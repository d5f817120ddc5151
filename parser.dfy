/**
 * The command-line parser of the chatbot (peggy.Parser): date and time
 * parsing and display, command-word classification, task-number parsing and
 * the argument splitting of todo, deadline, event and find.  A thrown
 * IllegalArgumentException is an `Err` carrying its message.
 */
module Parser {
  import opened Wrappers
  import opened JavaStrings
  import opened Temporal
  import opened CommandTypes

  const InvalidDateTime := "Invalid date/time. Try: 2/12/2019 1800 or 2019-12-02 1800"
  const InvalidDate := "Invalid date. Use yyyy-MM-dd (e.g. 2019-10-15)."
  const EmptyKeyword := "OOPS!!! The keyword of a find command cannot be empty."
  const OutOfRange := "Task number out of range."
  const EmptyTodo := "OOPS!!! The description of a todo cannot be empty."
  const DeadlineFormat := "Deadline format: deadline <desc> /by <when>"
  const EmptyDeadline := "OOPS!!! The description of a deadline cannot be empty."
  const EmptyDeadlineTime := "OOPS!!! The date/time of a deadline cannot be empty."
  const EventFormat := "Event format: event <desc> /from <start> /to <end>"
  const EmptyEvent := "OOPS!!! The description of an event cannot be empty."
  const EmptyEventFrom := "OOPS!!! The 'from time' of an event cannot be empty."
  const EmptyEventTo := "OOPS!!! The 'to time' of an event cannot be empty."
  const EventOrder := "Event time invalid: /from must be earlier than /to."

  function MissingIndex(cmd: string): string {
    "Please give a task number, e.g. " + cmd + " 2"
  }

  function InvalidIndex(cmd: string): string {
    "Please give a valid task number, e.g. " + cmd + " 2"
  }

  // ---------------------------------------------------------------- dates and times

  /** `parseDate`: the trimmed text as an ISO date, or the "Invalid date" error. */
  function ParseDate(raw: string): (r: Result<LocalDate, string>)
    ensures r.Ok? <==> Recognise(IsoDate, Trim(raw)).Some?
    ensures r.Ok? ==> Recognise(IsoDate, Trim(raw)) == Some(AtStartOfDay(r.value))
    ensures r.Err? ==> r.error == InvalidDate
  {
    match Recognise(IsoDate, Trim(raw))
    case Some(dt) => Ok(DateOf(dt))
    case None => Err(InvalidDate)
  }

  /** The first of `shapes` that accepts `s`, tried in order. */
  function FirstRecognised(s: string, shapes: seq<Shape>): Option<LocalDateTime> {
    if shapes == [] then None
    else
      match Recognise(shapes[0], s)
      case Some(dt) => Some(dt)
      case None => FirstRecognised(s, shapes[1..])
  }

  /** The first success is a success of one of the shapes, and there is none only when every shape fails. */
  lemma {:induction false} FirstRecognisedMeaning(s: string, shapes: seq<Shape>)
    ensures FirstRecognised(s, shapes).None? <==> forall i :: 0 <= i < |shapes| ==> Recognise(shapes[i], s).None?
    ensures FirstRecognised(s, shapes).Some? ==>
      exists i :: 0 <= i < |shapes| && Recognise(shapes[i], s) == FirstRecognised(s, shapes)
  {
    if shapes != [] && Recognise(shapes[0], s).None? {
      FirstRecognisedMeaning(s, shapes[1..]);
      assert forall i :: 1 <= i < |shapes| ==> shapes[i] == shapes[1..][i - 1];
      if FirstRecognised(s, shapes).Some? {
        var j :| 0 <= j < |shapes[1..]| && Recognise(shapes[1..][j], s) == FirstRecognised(s, shapes);
        assert Recognise(shapes[j + 1], s) == FirstRecognised(s, shapes);
      }
    }
  }

  /**
   * `parseDateTime`: trims, then tries the seven shapes in order and keeps
   * the first success; when none succeeds it fails with the "Invalid
   * date/time" message.
   */
  function ParseDateTime(raw: string): (r: Result<LocalDateTime, string>)
    ensures r.Err? ==> r.error == InvalidDateTime
  {
    match FirstRecognised(Trim(raw), ParseOrder)
    case Some(dt) => Ok(dt)
    case None => Err(InvalidDateTime)
  }

  lemma EveryShapeTried(shape: Shape)
    ensures exists i :: 0 <= i < |ParseOrder| && ParseOrder[i] == shape
  {
    match shape
    case IsoDateTime => assert ParseOrder[0] == shape;
    case DmyHhmm => assert ParseOrder[1] == shape;
    case DmyHhColonMm => assert ParseOrder[2] == shape;
    case YmdHhmm => assert ParseOrder[3] == shape;
    case YmdHhColonMm => assert ParseOrder[4] == shape;
    case DmyDate => assert ParseOrder[5] == shape;
    case IsoDate => assert ParseOrder[6] == shape;
  }

  /**
   * `parseDateTime` succeeds exactly when some shape accepts the trimmed
   * text, and then gives that shape's value: since no text fits two shapes,
   * the order of the attempts never changes the answer.
   */
  lemma {:induction false} ParseDateTimeAccepts(raw: string, shape: Shape)
    ensures ParseDateTime(raw).Ok? ==> exists sh :: Recognise(sh, Trim(raw)) == Some(ParseDateTime(raw).value)
    ensures Recognise(shape, Trim(raw)).Some? ==> ParseDateTime(raw) == Ok(Recognise(shape, Trim(raw)).value)
  {
    var s := Trim(raw);
    var first := FirstRecognised(s, ParseOrder);
    FirstRecognisedMeaning(s, ParseOrder);
    EveryShapeTried(shape);
    if first.Some? {
      var i :| 0 <= i < |ParseOrder| && Recognise(ParseOrder[i], s) == first;
      if Recognise(shape, s).Some? {
        ShapesExclusive(s, shape, ParseOrder[i]);
      }
    }
  }

  /** Text no wider than its content: the first and last characters survive trimming. */
  lemma DigitsEndsTrimmed(s: string)
    requires s != [] && IsDigit(s[0]) && IsDigit(s[|s| - 1])
    ensures Trim(s) == s
  {
    TrimOfTrimmed(s);
  }

  /** Every date-time with a four-digit year survives `toString` and `parseDateTime`. */
  lemma ParseDateTimeOfIsoString(dt: LocalDateTime)
    requires 0 <= dt.year <= 9999
    ensures ParseDateTime(IsoString(dt)) == Ok(dt)
  {
    IsoStringRecognised(dt);
    var s := IsoString(dt);
    IsoLayout(FixedDigits(dt.year, 4), FixedDigits(dt.month, 2), FixedDigits(dt.day, 2),
              FixedDigits(dt.hour, 2), FixedDigits(dt.minute, 2));
    IsoYearDigits(dt.year);
    assert s == FixedDigits(dt.year, 4) + "-" + FixedDigits(dt.month, 2) + "-" + FixedDigits(dt.day, 2)
                + "T" + FixedDigits(dt.hour, 2) + ":" + FixedDigits(dt.minute, 2);
    assert IsDigit(s[0]) && IsDigit(s[15]);
    DigitsEndsTrimmed(s);
    ParseDateTimeAccepts(s, IsoDateTime);
  }

  /** Every date with a four-digit year survives `toString` and `parseDate`. */
  lemma ParseDateOfIsoDateString(d: LocalDate)
    requires 0 <= d.year <= 9999
    ensures ParseDate(IsoDateString(d)) == Ok(d)
  {
    IsoDateStringRecognised(d);
    IsoYearDigits(d.year);
    var s := IsoDateString(d);
    assert s == FixedDigits(d.year, 4) + "-" + FixedDigits(d.month, 2) + "-" + FixedDigits(d.day, 2);
    assert IsDigit(s[0]) && IsDigit(s[9]);
    DigitsEndsTrimmed(s);
  }

  /** The date-only shapes give midnight of the date they read. */
  lemma ParseDateTimeDateOnly(raw: string, shape: Shape)
    requires shape == DmyDate || shape == IsoDate
    requires Recognise(shape, Trim(raw)).Some?
    ensures ParseDateTime(raw).Ok? && IsMidnight(ParseDateTime(raw).value)
  {
    ParseDateTimeAccepts(raw, shape);
  }

  /** The example of the parser's test: 2/12/2019 1800 is 2 December 2019, 18:00. */
  lemma ParseDateTimeExample()
    ensures ParseDateTime("2/12/2019 1800") == Ok(DateTime(2019, 12, 2, 18, 0))
  {
    var s := "2/12/2019 1800";
    DigitsEndsTrimmed(s);
    DmyHhmmExample();
    ParseDateTimeAccepts(s, DmyHhmm);
  }

  lemma DmyHhmmExample()
    ensures Recognise(DmyHhmm, "2/12/2019 1800") == Some(DateTime(2019, 12, 2, 18, 0))
  {
    var s := "2/12/2019 1800";
    DmyFieldsExample();
    HhmmExample();
    assert s[9] == ' ';
    DmyHhmmOf(s, 2, 12, 2019, 9, 18, 0);
    assert IsValidDateTime(DateTime(2019, 12, 2, 18, 0));
  }

  lemma DmyFieldsExample()
    ensures DmyFields("2/12/2019 1800") == Some((2, 12, 2019, 9))
  {
    var s := "2/12/2019 1800";
    assert s[0] == '2' && s[1] == '/' && s[2] == '1' && s[3] == '2' && s[4] == '/';
    assert s[5] == '2' && s[6] == '0' && s[7] == '1' && s[8] == '9' && s[9] == ' ';
    DmyFieldsOfChars(s);
  }

  /** The day, month and year fields of any text that opens with `2/12/2019 `. */
  lemma DmyFieldsOfChars(s: string)
    requires |s| >= 10
    requires s[0] == '2' && s[1] == '/' && s[2] == '1' && s[3] == '2' && s[4] == '/'
    requires s[5] == '2' && s[6] == '0' && s[7] == '1' && s[8] == '9' && s[9] == ' '
    ensures DmyFields(s) == Some((2, 12, 2019, 9))
  {
    DigitRunIs(s, 0, 1);
    DigitRunIs(s, 2, 2);
    DigitRunIs(s, 5, 4);
    ValueAtOne(s, 0);
    ValueAtTwo(s, 2);
    ValueAtTwo(s, 5);
    ValueAtFour(s, 5);
  }

  lemma HhmmExample()
    ensures HhmmAt("2/12/2019 1800", 10) == Some((18, 0))
  {
    var s := "2/12/2019 1800";
    assert s[10] == '1' && s[11] == '8' && s[12] == '0' && s[13] == '0';
    ValueAtTwo(s, 10);
    ValueAtTwo(s, 12);
  }

  /** `formatDate`: the pattern `MMM dd yyyy`, e.g. Dec 02 2019. */
  function FormatDate(d: LocalDate): (r: string)
    ensures |r| >= 11
  {
    MmmDdYyyy(d)
  }

  /**
   * Where `MMM dd yyyy` puts each part of a date whose year of era is the
   * year itself (years 1 to 9999): the month's English abbreviation, a
   * space, the day in two digits, a space, and the year in four digits.
   */
  lemma FormatDateLayout(d: LocalDate)
    requires 1 <= d.year <= 9999
    ensures |FormatDate(d)| == 11
    ensures FormatDate(d)[..3] == MonthAbbreviation(d.month)
    ensures FormatDate(d)[3] == ' ' && FormatDate(d)[6] == ' '
    ensures AllDigits(FormatDate(d)[4..6]) && DigitsValue(FormatDate(d)[4..6]) == d.day
    ensures AllDigits(FormatDate(d)[7..]) && DigitsValue(FormatDate(d)[7..]) == d.year
  {
    var m, dd, y := MonthAbbreviation(d.month), FixedDigits(d.day, 2), FixedDigits(d.year, 4);
    var r := FormatDate(d);
    assert r == m + " " + dd + " " + y;
    assert r[..3] == m && r[4..6] == dd && r[7..] == y;
    FixedDigitsValue(d.day, 2);
    FixedDigitsValue(d.year, 4);
  }

  /** No two months share an abbreviation. */
  lemma MonthAbbreviationInjective(m1: int, m2: int)
    requires 1 <= m1 <= 12 && 1 <= m2 <= 12
    requires MonthAbbreviation(m1) == MonthAbbreviation(m2)
    ensures m1 == m2
  {
    var a := MonthAbbreviation(m1);
    assert a[0] == MonthAbbreviation(m2)[0] && a[1] == MonthAbbreviation(m2)[1] && a[2] == MonthAbbreviation(m2)[2];
  }

  /** For years 1 to 9999 the rendering tells dates apart: two dates print alike exactly when they are equal. */
  lemma FormatDateInjective(a: LocalDate, b: LocalDate)
    requires 1 <= a.year <= 9999 && 1 <= b.year <= 9999
    ensures FormatDate(a) == FormatDate(b) <==> a == b
  {
    if FormatDate(a) == FormatDate(b) {
      FormatDateLayout(a);
      FormatDateLayout(b);
      MonthAbbreviationInjective(a.month, b.month);
    }
  }

  /** The pattern prints the year of era without the era, so 1 BC (year 0) prints as year 1. */
  lemma FormatDateDropsEra()
    ensures FormatDate(Date(0, 1, 1)) == FormatDate(Date(1, 1, 1)) == "Jan 01 0001"
  {
    assert FixedDigits(1, 2) == "01";
    assert FixedDigits(1, 4) == "0001";
  }

  /** `formatDateTime`: the date alone at midnight, the date and ` HH:mm` otherwise. */
  function FormatDateTime(dt: LocalDateTime): (r: string)
    ensures |r| >= |FormatDate(DateOf(dt))| && r[..|FormatDate(DateOf(dt))|] == FormatDate(DateOf(dt))
  {
    if IsMidnight(dt) then FormatDate(DateOf(dt)) else FormatDate(DateOf(dt)) + " " + HhColonMm(dt)
  }

  /** The time of day is shown exactly when it is not midnight, as ` HH:mm` after the date. */
  lemma FormatDateTimeOmitsMidnight(dt: LocalDateTime)
    ensures FormatDateTime(dt) == FormatDate(DateOf(dt)) <==> IsMidnight(dt)
    ensures !IsMidnight(dt) ==> FormatDateTime(dt) == FormatDate(DateOf(dt)) + " " + HhColonMm(dt)
  {
    if !IsMidnight(dt) {
      assert |FormatDateTime(dt)| == |FormatDate(DateOf(dt))| + 6;
    }
  }

  // ---------------------------------------------------------------- commands and indices

  /** `parseCommandType`: the command named by the first word of the trimmed input. */
  function ParseCommandType(input: string): (c: CommandType)
    ensures c == Unknown <==> forall k :: ToLower(FirstWord(Trim(input))) !in Keywords(k)
    ensures c != Unknown ==> ToLower(FirstWord(Trim(input))) in Keywords(c)
  {
    FromUnknown(FirstWord(Trim(input)));
    From(Some(FirstWord(Trim(input))))
  }

  /** Only the first word counts: whatever follows a space is ignored. */
  lemma ParseCommandTypeFirstWord(w: string, rest: string)
    requires w != [] && forall k :: 0 <= k < |w| ==> !IsTrimmable(w[k])
    ensures ParseCommandType(w + " " + rest) == From(Some(w))
  {
    FirstWordOfTrimmed(w, rest);
  }

  lemma {:induction false} FirstWordOfTrimmed(w: string, rest: string)
    requires w != [] && forall k :: 0 <= k < |w| ==> !IsTrimmable(w[k])
    ensures FirstWord(Trim(w + " " + rest)) == w
  {
    var s := w + " " + rest;
    assert s == w + (" " + rest);
    assert TrimStart(s) == s by { assert !IsTrimmable(s[0]); }
    TrimEndAppend(w, " " + rest);
    var tail := TrimEnd(" " + rest);
    TrimEndMeaning(" " + rest);
    assert tail == [] || tail[0] == ' ';
    FirstWordOf(w, tail);
  }

  /** The second `\s`-separated word of the trimmed input, where the index is read. */
  function IndexToken(input: string): Option<string> {
    SecondWord(Trim(input))
  }

  /**
   * `parseIndex`: the second word of the trimmed input read as an `int` n,
   * giving n - 1 (in `int` arithmetic) when that lies in [0, size).  A missing
   * or blank word, a word that is not an `int`, and an index out of range are
   * the three errors, in that order.
   */
  function ParseIndex(input: string, size: nat, cmd: string): (r: Result<int, string>)
    ensures r.Ok? ==> 0 <= r.value < size
    ensures r == Err(MissingIndex(cmd)) || r == Err(InvalidIndex(cmd)) || r == Err(OutOfRange) || r.Ok?
  {
    IndexOfToken(IndexToken(input), size, cmd)
  }

  /** What `parseIndex` makes of the word it reads. */
  function IndexOfToken(token: Option<string>, size: nat, cmd: string): (r: Result<int, string>)
    ensures r.Ok? ==> 0 <= r.value < size
    ensures token.None? || IsBlank(token.value) ==> r == Err(MissingIndex(cmd))
    ensures token.Some? && !IsBlank(token.value) ==>
      match ParseInt(token.value)
      case None => r == Err(InvalidIndex(cmd))
      case Some(n) => r == if 0 <= WrapInt(n - 1) < size then Ok(WrapInt(n - 1)) else Err(OutOfRange)
  {
    match token
    case None => Err(MissingIndex(cmd))
    case Some(t) =>
      if IsBlank(t) then Err(MissingIndex(cmd))
      else
        match ParseInt(t)
        case None => Err(InvalidIndex(cmd))
        case Some(n) =>
          var idx := WrapInt(n - 1);
          if idx < 0 || idx >= size then Err(OutOfRange) else Ok(idx)
  }

  /**
   * For a list that fits in an `int`, the task number n is accepted exactly
   * when 1 <= n <= size, and gives n - 1: the `int` wrap-around of
   * Integer.MIN_VALUE - 1 cannot sneak through.
   */
  lemma ParseIndexRange(input: string, size: nat, cmd: string, n: int)
    requires size <= INT_MAX
    requires IndexToken(input) == Some(IntToString(n)) && INT_MIN <= n <= INT_MAX
    ensures ParseIndex(input, size, cmd) == if 1 <= n <= size then Ok(n - 1) else Err(OutOfRange)
  {
    IndexOfNumber(n, size, cmd);
  }

  lemma IndexOfNumber(n: int, size: nat, cmd: string)
    requires size <= INT_MAX && INT_MIN <= n <= INT_MAX
    ensures IndexOfToken(Some(IntToString(n)), size, cmd) == if 1 <= n <= size then Ok(n - 1) else Err(OutOfRange)
  {
    ParseIntOfIntToString(n);
    var t := IntToString(n);
    assert !IsBlank(t) by {
      assert IsDigit(t[|t| - 1]);
    }
    PredecessorInRange(n, size);
  }

  /** In `int` arithmetic n - 1 lies in [0, size) exactly when n lies in [1, size]. */
  lemma PredecessorInRange(n: int, size: nat)
    requires size <= INT_MAX && INT_MIN <= n <= INT_MAX
    ensures (0 <= WrapInt(n - 1) < size) <==> 1 <= n <= size
    ensures 1 <= n ==> WrapInt(n - 1) == n - 1
  {
  }

  /** A token that is not an `int` is reported as invalid, whatever the size. */
  lemma ParseIndexNotANumber(input: string, size: nat, cmd: string)
    requires IndexToken(input).Some? && !IsBlank(IndexToken(input).value)
    requires ParseInt(IndexToken(input).value).None?
    ensures ParseIndex(input, size, cmd) == Err(InvalidIndex(cmd))
  {
  }

  /** A command word alone, with no number, is reported as missing the number. */
  lemma ParseIndexMissing(w: string, size: nat, cmd: string)
    requires forall k :: 0 <= k < |w| ==> !IsTrimmable(w[k])
    ensures ParseIndex(w, size, cmd) == Err(MissingIndex(cmd))
  {
    NoIndexToken(w);
  }

  lemma {:induction false} NoIndexToken(w: string)
    requires forall k :: 0 <= k < |w| ==> !IsTrimmable(w[k])
    ensures IndexToken(w) == None
  {
    TrimOfTrimmed(w);
    SpaceIndexAt(w, 0, |w|);
  }

  /** The index is read from the second word alone; later words are ignored. */
  lemma {:induction false} ParseIndexIgnoresLaterWords(w: string, t: string, tail: string, size: nat, cmd: string)
    requires w != [] && forall k :: 0 <= k < |w| ==> !IsTrimmable(w[k])
    requires t != [] && forall k :: 0 <= k < |t| ==> !IsTrimmable(t[k])
    requires tail != [] && IsRegexSpace(tail[0]) && !IsTrimmable(tail[|tail| - 1])
    ensures IndexToken(w + " " + t + tail) == Some(t)
    ensures ParseIndex(w + " " + t + tail, size, cmd) == ParseIndex(w + " " + t, size, cmd)
  {
    var s, s' := w + " " + t + tail, w + " " + t;
    assert s[0] == w[0] && s[|s| - 1] == tail[|tail| - 1];
    TrimOfTrimmed(s);
    assert s'[0] == w[0] && s'[|s'| - 1] == t[|t| - 1];
    TrimOfTrimmed(s');
    SecondWordOf(w, t, tail);
    assert s' + [] == s';
    SecondWordOf(w, t, []);
  }

  /** A command word and a number n >= 0 after it: index n - 1 when 1 <= n <= size, and out of range otherwise. */
  lemma ParseIndexOfWordNumber(w: string, n: nat, size: nat, cmd: string)
    requires w != [] && forall k :: 0 <= k < |w| ==> !IsTrimmable(w[k])
    requires size <= INT_MAX && n <= INT_MAX
    ensures ParseIndex(w + " " + IntToString(n), size, cmd) == if 1 <= n <= size then Ok(n - 1) else Err(OutOfRange)
  {
    var t := IntToString(n);
    var s := w + " " + t;
    assert s[0] == w[0] && s[|s| - 1] == t[|t| - 1];
    TrimOfTrimmed(s);
    assert s + [] == s;
    SecondWordOf(w, t, []);
    ParseIndexRange(s, size, cmd, n);
  }

  /** The first example of the parser's test: `mark 2` of five tasks is index 1. */
  lemma ParseIndexExample()
    ensures ParseIndex("mark 2", 5, "mark") == Ok(1)
  {
    assert IntToString(2) == "2";
    assert "mark 2" == "mark" + " " + "2";
    ParseIndexOfWordNumber("mark", 2, 5, "mark");
  }

  /** The second example of the parser's test: `mark 10` of three tasks is out of range. */
  lemma ParseIndexOutOfRangeExample()
    ensures ParseIndex("mark 10", 3, "mark") == Err(OutOfRange)
  {
    assert IntToString(10) == "10";
    assert "mark 10" == "mark" + " " + "10";
    ParseIndexOfWordNumber("mark", 10, 3, "mark");
  }

  // ---------------------------------------------------------------- todo and find

  /** `parseTodoDesc`: the trimmed text after the first space, which must not be blank. */
  function ParseTodoDesc(input: string): (r: Result<string, string>)
    ensures r.Err? <==> SplitOnce(input, " ").None? || IsBlank(SplitOnce(input, " ").value.1)
    ensures r.Err? ==> r.error == EmptyTodo
    ensures r.Ok? ==> IsTrimmed(r.value) && r.value == Trim(SplitOnce(input, " ").value.1)
  {
    var parts := SplitOnce(input, " ");
    if parts.None? || IsBlank(parts.value.1) then Err(EmptyTodo)
    else
      TrimEnds(parts.value.1);
      Ok(Trim(parts.value.1))
  }

  /** `todo <desc>` gives back the description itself when it is trimmed and not blank. */
  lemma {:induction false} ParseTodoDescOf(w: string, desc: string)
    requires forall k :: 0 <= k < |w| ==> w[k] != ' '
    requires IsTrimmed(desc) && !IsBlank(desc)
    ensures ParseTodoDesc(w + " " + desc) == Ok(desc)
  {
    var s := w + " " + desc;
    assert OccursAt(s, " ", |w|);
    SplitOnceMeaning(s, " ");
    var r := SplitOnce(s, " ");
    var a := r.value.0;
    assert s[|a|] == ' ';
    assert |a| == |w|;
    assert s[|w| + 1..] == desc;
    TrimOfTrimmed(desc);
  }

  /** `parseFindKeyword`: the trimmed text after the first whitespace run, which must not be blank. */
  function ParseFindKeyword(input: string): (r: Result<string, string>)
    ensures r.Err? <==> SplitAtSpaceRun(input).None? || IsBlank(SplitAtSpaceRun(input).value.1)
    ensures r.Err? ==> r.error == EmptyKeyword
    ensures r.Ok? ==> IsTrimmed(r.value) && r.value == Trim(SplitAtSpaceRun(input).value.1)
  {
    match SplitAtSpaceRun(input)
    case None => Err(EmptyKeyword)
    case Some((_, rest)) =>
      if IsBlank(rest) then Err(EmptyKeyword)
      else
        TrimEnds(rest);
        Ok(Trim(rest))
  }

  /** `find <keyword>` gives back the keyword itself when it is trimmed and not blank. */
  lemma {:induction false} ParseFindKeywordOf(w: string, keyword: string)
    requires forall k :: 0 <= k < |w| ==> !IsRegexSpace(w[k])
    requires IsTrimmed(keyword) && !IsBlank(keyword)
    ensures ParseFindKeyword(w + " " + keyword) == Ok(keyword)
  {
    var s := w + " " + keyword;
    SpaceIndexAt(s, 0, |w|);
    assert keyword != [] && !IsRegexSpace(keyword[0]);
    assert SpaceRunEnd(s, |w| + 1) == |w| + 1;
    assert s[|w| + 1..] == keyword;
    TrimOfTrimmed(keyword);
  }

  // ---------------------------------------------------------------- deadline and event

  /** No space is directly followed by '/': the text cannot hold a ` /by `, ` /from ` or ` /to ` marker. */
  predicate NoMarker(s: string) {
    forall k :: 0 <= k < |s| ==> !MarkerAt(s, k)
  }

  predicate MarkerAt(s: string, k: int) {
    0 <= k < |s| - 1 && s[k] == ' ' && s[k + 1] == '/'
  }

  datatype DeadlineArgs = DeadlineArgs(description: string, byText: string)

  /**
   * `parseDeadline`: drops the eight letters of the command word, trims, and
   * splits at the first ` /by `.  The trimmed description and the trimmed raw
   * date text come back, the latter only once `parseDateTime` accepts it.
   */
  function ParseDeadline(input: string): (r: Result<DeadlineArgs, string>)
    requires |input| >= |"deadline"|
    ensures r.Ok? ==> !IsBlank(r.value.description) && !IsBlank(r.value.byText) && ParseDateTime(r.value.byText).Ok?
    ensures r.Err? ==> r.error in {DeadlineFormat, EmptyDeadline, EmptyDeadlineTime, InvalidDateTime}
    ensures DeadlineOutcome(Trim(input[|"deadline"|..]), r)
  {
    DeadlineOfRest(Trim(input[|"deadline"|..]))
  }

  /** The trimmed texts on either side of the first ` /by `, when there is one. */
  function DeadlinePieces(rest: string): Option<DeadlineArgs> {
    match SplitOnce(rest, " /by ")
    case None => None
    case Some((d, b)) => Some(DeadlineArgs(Trim(d), Trim(b)))
  }

  /**
   * The checks `parseDeadline` makes of its two texts, in this order: a blank
   * description and then a blank date text, each with its own message; then a
   * date text `parseDateTime` rejects.  Texts that pass come back unchanged.
   */
  predicate DeadlineChecked(a: DeadlineArgs, r: Result<DeadlineArgs, string>) {
    && (IsBlank(a.description) ==> r == Err(EmptyDeadline))
    && (!IsBlank(a.description) && IsBlank(a.byText) ==> r == Err(EmptyDeadlineTime))
    && (!IsBlank(a.description) && !IsBlank(a.byText) && ParseDateTime(a.byText).Err? ==> r == Err(InvalidDateTime))
    && (!IsBlank(a.description) && !IsBlank(a.byText) && ParseDateTime(a.byText).Ok? ==> r == Ok(a))
  }

  /** What `parseDeadline` reports for the rest: the format error without ` /by `, else the checks of its pieces. */
  predicate DeadlineOutcome(rest: string, r: Result<DeadlineArgs, string>) {
    match DeadlinePieces(rest)
    case None => r == Err(DeadlineFormat)
    case Some(a) => DeadlineChecked(a, r)
  }

  /** What `parseDeadline` makes of the trimmed text after the command word. */
  function DeadlineOfRest(rest: string): (r: Result<DeadlineArgs, string>)
    ensures r.Ok? ==> !IsBlank(r.value.description) && !IsBlank(r.value.byText) && ParseDateTime(r.value.byText).Ok?
    ensures r.Err? ==> r.error in {DeadlineFormat, EmptyDeadline, EmptyDeadlineTime, InvalidDateTime}
    ensures DeadlineOutcome(rest, r)
  {
    match SplitOnce(rest, " /by ")
    case None => Err(DeadlineFormat)
    case Some((d, b)) =>
      var desc, byRaw := Trim(d), Trim(b);
      if IsBlank(desc) then Err(EmptyDeadline)
      else if IsBlank(byRaw) then Err(EmptyDeadlineTime)
      else
        match ParseDateTime(byRaw)
        case Err(e) => Err(e)
        case Ok(_) => Ok(DeadlineArgs(desc, byRaw))
  }

  /** Without ` /by ` the deadline is malformed. */
  lemma DeadlineWithoutBy(rest: string)
    requires SplitOnce(rest, " /by ").None?
    ensures DeadlineOfRest(rest) == Err(DeadlineFormat)
  {
  }

  /** An accepted deadline is the trimmed text on either side of the first ` /by `. */
  lemma DeadlineSplitsAtBy(rest: string)
    requires SplitOnce(rest, " /by ").Some?
    ensures DeadlineOfRest(rest).Ok? ==>
      DeadlineOfRest(rest).value == DeadlineArgs(Trim(SplitOnce(rest, " /by ").value.0), Trim(SplitOnce(rest, " /by ").value.1))
  {
  }

  /** The first occurrence of `sep` in `a + sep + b` is right after `a` when `a` holds no marker. */
  lemma {:induction false} SplitAtMarker(a: string, sep: string, b: string)
    requires |sep| >= 2 && sep[0] == ' ' && sep[1] == '/'
    requires NoMarker(a)
    ensures SplitOnce(a + sep + b, sep) == Some((a, b))
  {
    var s := a + sep + b;
    assert OccursAt(s, sep, |a|) by {
      assert s[|a|..|a| + |sep|] == sep;
    }
    forall k | 0 <= k < |a| ensures !OccursAt(s, sep, k) {
      if k + 1 < |a| {
        assert s[k] == a[k] && s[k + 1] == a[k + 1];
        assert !MarkerAt(a, k);
      } else {
        assert s[k + 1] == sep[0];
      }
      assert k + 1 < |s| ==> s[k..k + |sep|][1] == s[k + 1];
    }
    SplitOnceMeaning(s, sep);
    var x := SplitOnce(s, sep).value.0;
    assert |x| == |a|;
    assert s[..|a|] == a;
    assert s[|a| + |sep|..] == b;
  }

  /** The text after a command word of `n` letters and a space is the rest, once trimmed. */
  lemma {:induction false} RestAfterCommand(w: string, body: string)
    requires IsTrimmed(body) && body != []
    ensures Trim((w + " " + body)[|w|..]) == body
  {
    assert (w + " " + body)[|w|..] == " " + body;
    TrimPadded(" ", body);
  }

  /** `deadline <desc> /by <when>` gives back the description and the date text when both are well formed. */
  lemma ParseDeadlineOf(w: string, desc: string, byRaw: string)
    requires |w| == 8
    requires IsTrimmed(desc) && !IsBlank(desc) && NoMarker(desc)
    requires IsTrimmed(byRaw) && !IsBlank(byRaw) && ParseDateTime(byRaw).Ok?
    ensures ParseDeadline(w + " " + desc + " /by " + byRaw) == Ok(DeadlineArgs(desc, byRaw))
  {
    var body := desc + " /by " + byRaw;
    assert w + " " + desc + " /by " + byRaw == w + " " + body;
    assert body[0] == desc[0] && body[|body| - 1] == byRaw[|byRaw| - 1];
    RestAfterCommand(w, body);
    DeadlineOfRestOf(desc, byRaw);
  }

  lemma DeadlineOfRestOf(desc: string, byRaw: string)
    requires IsTrimmed(desc) && !IsBlank(desc) && NoMarker(desc)
    requires IsTrimmed(byRaw) && !IsBlank(byRaw) && ParseDateTime(byRaw).Ok?
    ensures DeadlineOfRest(desc + " /by " + byRaw) == Ok(DeadlineArgs(desc, byRaw))
  {
    SplitAtMarker(desc, " /by ", byRaw);
    TrimOfTrimmed(desc);
    TrimOfTrimmed(byRaw);
  }

  /** The example of the parser's test: `deadline return book /by 2/12/2019 1800`. */
  lemma ParseDeadlineExample()
    ensures ParseDeadline("deadline return book /by 2/12/2019 1800") == Ok(DeadlineArgs("return book", "2/12/2019 1800"))
  {
    ParseDateTimeExample();
    DeadlineExampleText();
    ReturnBookFacts();
    ExampleTimeFacts();
    ParseDeadlineOf("deadline", "return book", "2/12/2019 1800");
  }

  lemma DeadlineExampleText()
    ensures "deadline" + " " + "return book" + " /by " + "2/12/2019 1800" == "deadline return book /by 2/12/2019 1800"
  {
  }

  /** Text without a slash has no marker. */
  lemma NoSlashNoMarker(s: string)
    requires '/' !in s
    ensures NoMarker(s)
  {
    forall k | 0 <= k < |s| - 1 ensures !MarkerAt(s, k) {
      assert s[k + 1] in s;
    }
  }

  lemma ReturnBookFacts()
    ensures NoMarker("return book") && IsTrimmed("return book") && !IsBlank("return book")
  {
    var s := "return book";
    assert s == ['r', 'e', 't', 'u', 'r', 'n', ' ', 'b', 'o', 'o', 'k'];
    NoSlashNoMarker(s);
    assert !IsWhitespace(s[0]);
  }

  lemma ExampleTimeFacts()
    ensures IsTrimmed("2/12/2019 1800") && !IsBlank("2/12/2019 1800")
  {
    var s := "2/12/2019 1800";
    assert s[0] == '2' && s[|s| - 1] == '0';
    assert !IsWhitespace(s[0]);
  }

  /** Text without a marker has no occurrence of a marker separator. */
  lemma NoMarkerNoSplit(s: string, sep: string)
    requires |sep| >= 2 && sep[0] == ' ' && sep[1] == '/'
    requires NoMarker(s)
    ensures SplitOnce(s, sep).None?
  {
    forall k | 0 <= k ensures !OccursAt(s, sep, k) {
      if OccursAt(s, sep, k) {
        assert s[k] == sep[0] && s[k + 1] == sep[1];
        assert MarkerAt(s, k);
      }
    }
    SplitOnceMeaning(s, sep);
  }

  /**
   * The rest is trimmed before it is split, so when the text after the
   * command word has no marker once trimmed (as in `deadline /by 2019-01-01`,
   * which has lost the space in front of `/by`), the input is a format error
   * rather than a blank description.
   */
  lemma ParseDeadlineWithoutMarker(input: string)
    requires |input| >= 8 && NoMarker(Trim(input[8..]))
    ensures ParseDeadline(input) == Err(DeadlineFormat)
  {
    NoMarkerNoSplit(Trim(input[8..]), " /by ");
  }

  datatype EventArgs = EventArgs(description: string, fromTime: string, toTime: string)

  /**
   * `parseEvent`: drops the five letters of the command word, trims, splits at
   * the first ` /from ` and the remainder at its first ` /to `.  The trimmed
   * description and raw from and to texts come back once both parse and the
   * start is not after the end.
   */
  function ParseEvent(input: string): (r: Result<EventArgs, string>)
    requires |input| >= |"event"|
    ensures r.Ok? ==> ValidEvent(r.value)
    ensures r.Err? ==> r.error in EventErrors
    ensures EventOutcome(Trim(input[|"event"|..]), r)
  {
    EventOfRest(Trim(input[|"event"|..]))
  }

  /** The trimmed texts before the first ` /from ` and on either side of the first ` /to ` after it, when both are there. */
  function EventPieces(rest: string): Option<EventArgs> {
    match SplitOnce(rest, " /from ")
    case None => None
    case Some((d, p)) =>
      match SplitOnce(p, " /to ")
      case None => None
      case Some((f, t)) => Some(EventArgs(Trim(d), Trim(f), Trim(t)))
  }

  /**
   * The checks `parseEvent` makes of its three texts, in this order: a blank
   * description, a blank from text and a blank to text, each with its own
   * message; then a time `parseDateTime` rejects; then a start after the end.
   * Texts that pass come back unchanged.
   */
  predicate EventChecked(e: EventArgs, r: Result<EventArgs, string>) {
    && (IsBlank(e.description) ==> r == Err(EmptyEvent))
    && (!IsBlank(e.description) && IsBlank(e.fromTime) ==> r == Err(EmptyEventFrom))
    && (!IsBlank(e.description) && !IsBlank(e.fromTime) && IsBlank(e.toTime) ==> r == Err(EmptyEventTo))
    && (!IsBlank(e.description) && !IsBlank(e.fromTime) && !IsBlank(e.toTime) ==>
          if ParseDateTime(e.fromTime).Err? || ParseDateTime(e.toTime).Err? then r == Err(InvalidDateTime)
          else if IsAfter(ParseDateTime(e.fromTime).value, ParseDateTime(e.toTime).value) then r == Err(EventOrder)
          else r == Ok(e))
  }

  /** What `parseEvent` reports for the rest: the format error without both markers, else the checks of its pieces. */
  predicate EventOutcome(rest: string, r: Result<EventArgs, string>) {
    match EventPieces(rest)
    case None => r == Err(EventFormat)
    case Some(e) => EventChecked(e, r)
  }

  /** What `parseEvent` makes of the trimmed text after the command word. */
  function EventOfRest(rest: string): (r: Result<EventArgs, string>)
    ensures r.Ok? ==> ValidEvent(r.value)
    ensures r.Err? ==> r.error in EventErrors
    ensures EventOutcome(rest, r)
  {
    match SplitOnce(rest, " /from ")
    case None => Err(EventFormat)
    case Some((d, p)) => EventOfParts(Trim(d), p)
  }

  /** The errors `parseEvent` can report. */
  const EventErrors: set<string> := {EventFormat, EmptyEvent, EmptyEventFrom, EmptyEventTo, InvalidDateTime, EventOrder}

  /** What an accepted event satisfies: three non-blank texts, two readable times, in order. */
  predicate ValidEvent(e: EventArgs) {
    && !IsBlank(e.description) && !IsBlank(e.fromTime) && !IsBlank(e.toTime)
    && ParseDateTime(e.fromTime).Ok? && ParseDateTime(e.toTime).Ok?
    && !IsAfter(ParseDateTime(e.fromTime).value, ParseDateTime(e.toTime).value)
  }

  /** The second split, at ` /to `, of what follows ` /from `. */
  function EventOfParts(desc: string, p: string): (r: Result<EventArgs, string>)
    ensures r.Ok? ==> r.value.description == desc
    ensures r.Ok? ==> ValidEvent(r.value)
    ensures r.Err? ==> r.error in EventErrors
    ensures SplitOnce(p, " /to ").None? ==> r == Err(EventFormat)
    ensures SplitOnce(p, " /to ").Some? ==>
      EventChecked(EventArgs(desc, Trim(SplitOnce(p, " /to ").value.0), Trim(SplitOnce(p, " /to ").value.1)), r)
  {
    match SplitOnce(p, " /to ")
    case None => Err(EventFormat)
    case Some((f, t)) => EventOfFields(desc, Trim(f), Trim(t))
  }

  /**
   * Without ` /from ` and then ` /to ` the event is malformed; an accepted one
   * is the trimmed text before the first ` /from `, and the trimmed texts on
   * either side of the first ` /to ` after it.
   */
  lemma EventSplitsAtMarkers(rest: string)
    ensures SplitOnce(rest, " /from ").None? ==> EventOfRest(rest) == Err(EventFormat)
    ensures SplitOnce(rest, " /from ").Some? && SplitOnce(SplitOnce(rest, " /from ").value.1, " /to ").None? ==>
      EventOfRest(rest) == Err(EventFormat)
    ensures EventOfRest(rest).Ok? ==>
      var (d, p) := SplitOnce(rest, " /from ").value;
      && SplitOnce(rest, " /from ").Some? && SplitOnce(p, " /to ").Some?
      && EventOfRest(rest).value == EventArgs(Trim(d), Trim(SplitOnce(p, " /to ").value.0), Trim(SplitOnce(p, " /to ").value.1))
  {
  }

  /** The checks on the three trimmed texts, in the order `parseEvent` makes them. */
  function EventOfFields(desc: string, fromRaw: string, toRaw: string): (r: Result<EventArgs, string>)
    ensures r.Ok? <==> ValidEvent(EventArgs(desc, fromRaw, toRaw))
    ensures r.Ok? ==> r.value == EventArgs(desc, fromRaw, toRaw)
    ensures r.Err? ==> r.error in EventErrors
    ensures (&& !IsBlank(desc) && !IsBlank(fromRaw) && !IsBlank(toRaw)
             && ParseDateTime(fromRaw).Ok? && ParseDateTime(toRaw).Ok?
             && IsAfter(ParseDateTime(fromRaw).value, ParseDateTime(toRaw).value)) ==> r == Err(EventOrder)
    ensures EventChecked(EventArgs(desc, fromRaw, toRaw), r)
  {
    if IsBlank(desc) then Err(EmptyEvent)
    else if IsBlank(fromRaw) then Err(EmptyEventFrom)
    else if IsBlank(toRaw) then Err(EmptyEventTo)
    else
      match (ParseDateTime(fromRaw), ParseDateTime(toRaw))
      case (Err(e), _) => Err(e)
      case (_, Err(e)) => Err(e)
      case (Ok(from), Ok(to)) => if IsAfter(from, to) then Err(EventOrder) else Ok(EventArgs(desc, fromRaw, toRaw))
  }

  /**
   * `event <desc> /from <start> /to <end>` gives back its three texts when
   * they are well formed, and fails with the ordering error exactly when the
   * start is after the end; equal times are accepted.
   */
  lemma ParseEventOf(w: string, desc: string, from: string, to: string)
    requires |w| == 5
    requires IsTrimmed(desc) && !IsBlank(desc) && NoMarker(desc)
    requires IsTrimmed(from) && !IsBlank(from) && NoMarker(from) && ParseDateTime(from).Ok?
    requires IsTrimmed(to) && !IsBlank(to) && ParseDateTime(to).Ok?
    ensures ParseEvent(w + " " + desc + " /from " + from + " /to " + to)
      == if IsAfter(ParseDateTime(from).value, ParseDateTime(to).value) then Err(EventOrder)
         else Ok(EventArgs(desc, from, to))
  {
    var body := desc + " /from " + from + " /to " + to;
    assert w + " " + desc + " /from " + from + " /to " + to == w + " " + body;
    EventBodyTrimmed(desc, from, to);
    RestAfterCommand(w, body);
    EventOfRestOf(desc, from, to);
    EventOfFieldsOf(desc, from, to);
  }

  lemma EventOfFieldsOf(desc: string, from: string, to: string)
    requires !IsBlank(desc) && !IsBlank(from) && !IsBlank(to)
    requires ParseDateTime(from).Ok? && ParseDateTime(to).Ok?
    ensures EventOfFields(desc, from, to)
      == if IsAfter(ParseDateTime(from).value, ParseDateTime(to).value) then Err(EventOrder)
         else Ok(EventArgs(desc, from, to))
  {
  }

  lemma EventBodyTrimmed(desc: string, from: string, to: string)
    requires IsTrimmed(desc) && desc != [] && IsTrimmed(to) && to != []
    ensures IsTrimmed(desc + " /from " + from + " /to " + to)
  {
    var body := desc + " /from " + from + " /to " + to;
    assert body[0] == desc[0] && body[|body| - 1] == to[|to| - 1];
  }

  lemma EventOfRestOf(desc: string, from: string, to: string)
    requires IsTrimmed(desc) && NoMarker(desc)
    requires IsTrimmed(from) && NoMarker(from) && IsTrimmed(to)
    ensures EventOfRest(desc + " /from " + from + " /to " + to) == EventOfFields(desc, from, to)
  {
    var tail := from + " /to " + to;
    assert desc + " /from " + from + " /to " + to == desc + " /from " + tail;
    EventRestSplit(desc, tail);
    EventPartsSplit(desc, from, to);
  }

  lemma EventRestSplit(desc: string, tail: string)
    requires IsTrimmed(desc) && NoMarker(desc)
    ensures EventOfRest(desc + " /from " + tail) == EventOfParts(desc, tail)
  {
    SplitAtMarker(desc, " /from ", tail);
    TrimOfTrimmed(desc);
  }

  lemma EventPartsSplit(desc: string, from: string, to: string)
    requires IsTrimmed(from) && NoMarker(from) && IsTrimmed(to)
    ensures EventOfParts(desc, from + " /to " + to) == EventOfFields(desc, from, to)
  {
    SplitAtMarker(from, " /to ", to);
    TrimOfTrimmed(from);
    TrimOfTrimmed(to);
  }
}
