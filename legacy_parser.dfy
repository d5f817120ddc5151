/**
 * The earlier revision of `Parser` (the default-package `Parser`).  Its date
 * and time functions, `parseCommandType` and `parseTodoDesc` have the same
 * text as in the later revision and are those of module `Parser`.  What
 * differs is modelled here:
 *   - `parseIndex` has no handler around `Integer.parseInt`, so a word that is
 *     not a number escapes as a `NumberFormatException`;
 *   - `parseDeadline` and `parseEvent` never look at the date texts, and the
 *     messages speak of "a event" and of "the date of a deadline".
 */
module LegacyParser {
  import opened Wrappers
  import opened JavaStrings
  import Parser

  const EmptyDeadlineDate := "OOPS!!! The date of a deadline cannot be empty."
  const EmptyEvent := "OOPS!!! The description of a event cannot be empty."
  const EmptyEventFrom := "OOPS!!! The 'from time' of a event cannot be empty."
  const EmptyEventTo := "OOPS!!! The 'to time' of a event cannot be empty."

  /**
   * What the parser throws: an `IllegalArgumentException` with its message,
   * or the `NumberFormatException` of `Integer.parseInt` on the given word.
   */
  datatype Thrown = IllegalArgument(message: string) | NumberFormat(token: string)

  // ---------------------------------------------------------------- parseIndex

  /**
   * `parseIndex`: the second word of the trimmed input read as an `int` n,
   * giving n - 1 (in `int` arithmetic) when that lies in [0, size).  A
   * missing word and an index out of range throw their messages; a word that
   * is not an `int` lets `Integer.parseInt`'s exception out.
   */
  function ParseIndex(input: string, size: nat, cmd: string): (r: Result<int, Thrown>)
    ensures r.Ok? ==> 0 <= r.value < size
  {
    match Parser.IndexToken(input)
    case None => Err(IllegalArgument(Parser.MissingIndex(cmd)))
    case Some(t) =>
      if IsBlank(t) then Err(IllegalArgument(Parser.MissingIndex(cmd)))
      else
        match ParseInt(t)
        case None => Err(NumberFormat(t))
        case Some(n) =>
          var idx := WrapInt(n - 1);
          if idx < 0 || idx >= size then Err(IllegalArgument(Parser.OutOfRange)) else Ok(idx)
  }

  lemma InvalidIndexIsNew(cmd: string)
    ensures Parser.InvalidIndex(cmd) != Parser.MissingIndex(cmd)
    ensures Parser.InvalidIndex(cmd) != Parser.OutOfRange
  {
    assert Parser.InvalidIndex(cmd)[14] == 'v' != Parser.MissingIndex(cmd)[14];
    assert Parser.InvalidIndex(cmd)[0] == 'P' != Parser.OutOfRange[0];
  }

  /**
   * The two revisions read the same index and report the same errors, but
   * where the later one reports "Please give a valid task number" the
   * earlier one lets the `NumberFormatException` on that word escape.
   */
  lemma ParseIndexAgainstLater(input: string, size: nat, cmd: string)
    ensures Parser.ParseIndex(input, size, cmd).Ok? <==> ParseIndex(input, size, cmd).Ok?
    ensures Parser.ParseIndex(input, size, cmd).Ok? ==>
      ParseIndex(input, size, cmd).value == Parser.ParseIndex(input, size, cmd).value
    ensures Parser.ParseIndex(input, size, cmd) == Err(Parser.InvalidIndex(cmd)) <==>
      ParseIndex(input, size, cmd).Err? && ParseIndex(input, size, cmd).error.NumberFormat?
    ensures ParseIndex(input, size, cmd).Err? && ParseIndex(input, size, cmd).error.NumberFormat? ==>
      Parser.IndexToken(input) == Some(ParseIndex(input, size, cmd).error.token)
    ensures ParseIndex(input, size, cmd).Err? && ParseIndex(input, size, cmd).error.IllegalArgument? ==>
      Parser.ParseIndex(input, size, cmd) == Err(ParseIndex(input, size, cmd).error.message)
  {
    InvalidIndexIsNew(cmd);
  }

  /** For a list that fits in an `int`, task number n is accepted exactly when 1 <= n <= size, as n - 1. */
  lemma ParseIndexRange(input: string, size: nat, cmd: string, n: int)
    requires size <= INT_MAX
    requires Parser.IndexToken(input) == Some(IntToString(n)) && INT_MIN <= n <= INT_MAX
    ensures ParseIndex(input, size, cmd) == if 1 <= n <= size then Ok(n - 1) else Err(IllegalArgument(Parser.OutOfRange))
  {
    Parser.ParseIndexRange(input, size, cmd, n);
    ParseIndexAgainstLater(input, size, cmd);
  }

  /** A command word followed by a word that is not a number: the parse exception escapes with that word. */
  lemma ParseIndexNotANumber(w: string, t: string, size: nat, cmd: string)
    requires w != [] && forall k :: 0 <= k < |w| ==> !IsTrimmable(w[k])
    requires t != [] && forall k :: 0 <= k < |t| ==> !IsTrimmable(t[k])
    requires !IsBlank(t) && ParseInt(t).None?
    ensures ParseIndex(w + " " + t, size, cmd) == Err(NumberFormat(t))
  {
    var s := w + " " + t;
    assert s[0] == w[0] && s[|s| - 1] == t[|t| - 1];
    TrimOfTrimmed(s);
    assert s + [] == s;
    SecondWordOf(w, t, []);
  }

  /** `mark two` lets the exception out with the word `two`. */
  lemma ParseIndexWordExample()
    ensures ParseIndex("mark two", 3, "mark") == Err(NumberFormat("two"))
  {
    var w, t := "mark", "two";
    assert w == ['m', 'a', 'r', 'k'] && t == ['t', 'w', 'o'];
    assert "mark two" == w + " " + t;
    assert !IsDigit(t[0]) && !IsWhitespace(t[0]);
    ParseIndexNotANumber(w, t, 3, "mark");
  }

  // ---------------------------------------------------------------- parseDeadline

  /**
   * `parseDeadline`: drops the eight letters of the command word, trims, and
   * splits at the first ` /by `; the trimmed description and the trimmed
   * date text come back without any check of the date.
   */
  function ParseDeadline(input: string): (r: Result<Parser.DeadlineArgs, string>)
    requires |input| >= |"deadline"|
    ensures r.Ok? ==> !IsBlank(r.value.description) && !IsBlank(r.value.byText)
    ensures r.Err? ==> r.error in {Parser.DeadlineFormat, Parser.EmptyDeadline, EmptyDeadlineDate}
    ensures DeadlineOutcome(Trim(input[|"deadline"|..]), r)
  {
    DeadlineOfRest(Trim(input[|"deadline"|..]))
  }

  /**
   * The checks this `parseDeadline` makes of its two texts, in this order: a
   * blank description and then a blank date text, each with its own message.
   * Texts that pass come back unchanged, the date text unread.
   */
  predicate DeadlineChecked(a: Parser.DeadlineArgs, r: Result<Parser.DeadlineArgs, string>) {
    && (IsBlank(a.description) ==> r == Err(Parser.EmptyDeadline))
    && (!IsBlank(a.description) && IsBlank(a.byText) ==> r == Err(EmptyDeadlineDate))
    && (!IsBlank(a.description) && !IsBlank(a.byText) ==> r == Ok(a))
  }

  /** What this `parseDeadline` reports for the rest: the format error without ` /by `, else the checks of its pieces. */
  predicate DeadlineOutcome(rest: string, r: Result<Parser.DeadlineArgs, string>) {
    match Parser.DeadlinePieces(rest)
    case None => r == Err(Parser.DeadlineFormat)
    case Some(a) => DeadlineChecked(a, r)
  }

  /** What `parseDeadline` makes of the trimmed text after the command word. */
  function DeadlineOfRest(rest: string): (r: Result<Parser.DeadlineArgs, string>)
    ensures r.Ok? ==> !IsBlank(r.value.description) && !IsBlank(r.value.byText)
    ensures r.Err? ==> r.error in {Parser.DeadlineFormat, Parser.EmptyDeadline, EmptyDeadlineDate}
    ensures DeadlineOutcome(rest, r)
  {
    match SplitOnce(rest, " /by ")
    case None => Err(Parser.DeadlineFormat)
    case Some((d, b)) =>
      var desc, byRaw := Trim(d), Trim(b);
      if IsBlank(desc) then Err(Parser.EmptyDeadline)
      else if IsBlank(byRaw) then Err(EmptyDeadlineDate)
      else Ok(Parser.DeadlineArgs(desc, byRaw))
  }

  /**
   * The later revision is this one plus the date check: both split the same
   * way and agree on every error but the wording for a blank date, and the
   * later one keeps an accepted deadline exactly when its date text parses.
   */
  lemma DeadlineAgainstLater(rest: string)
    ensures DeadlineOfRest(rest).Ok? ==>
      Parser.DeadlineOfRest(rest) ==
        if Parser.ParseDateTime(DeadlineOfRest(rest).value.byText).Ok? then DeadlineOfRest(rest)
        else Err(Parser.InvalidDateTime)
    ensures DeadlineOfRest(rest).Err? ==>
      Parser.DeadlineOfRest(rest) ==
        Err(if DeadlineOfRest(rest).error == EmptyDeadlineDate then Parser.EmptyDeadlineTime else DeadlineOfRest(rest).error)
    ensures Parser.DeadlineOfRest(rest).Ok? ==> DeadlineOfRest(rest) == Parser.DeadlineOfRest(rest)
  {
  }

  /** `deadline <desc> /by <when>` gives back both texts, whatever the date text says. */
  lemma ParseDeadlineOf(w: string, desc: string, byRaw: string)
    requires |w| == 8
    requires IsTrimmed(desc) && !IsBlank(desc) && Parser.NoMarker(desc)
    requires IsTrimmed(byRaw) && !IsBlank(byRaw)
    ensures ParseDeadline(w + " " + desc + " /by " + byRaw) == Ok(Parser.DeadlineArgs(desc, byRaw))
  {
    var body := desc + " /by " + byRaw;
    assert w + " " + desc + " /by " + byRaw == w + " " + body;
    assert body[0] == desc[0] && body[|body| - 1] == byRaw[|byRaw| - 1];
    Parser.RestAfterCommand(w, body);
    Parser.SplitAtMarker(desc, " /by ", byRaw);
    TrimOfTrimmed(desc);
    TrimOfTrimmed(byRaw);
  }

  // ---------------------------------------------------------------- parseEvent

  /**
   * `parseEvent`: drops the five letters of the command word, trims, splits
   * at the first ` /from ` and the remainder at its first ` /to `; the three
   * trimmed texts come back once none is blank, with no date parsing and no
   * check of their order.
   */
  function ParseEvent(input: string): (r: Result<Parser.EventArgs, string>)
    requires |input| >= |"event"|
    ensures r.Ok? ==> !IsBlank(r.value.description) && !IsBlank(r.value.fromTime) && !IsBlank(r.value.toTime)
    ensures r.Err? ==> r.error in EventErrors
    ensures EventOutcome(Trim(input[|"event"|..]), r)
  {
    EventOfRest(Trim(input[|"event"|..]))
  }

  /**
   * The checks this `parseEvent` makes of its three texts, in this order: a
   * blank description, a blank from text and a blank to text, each with its
   * own message.  Texts that pass come back unchanged, neither time read.
   */
  predicate EventChecked(e: Parser.EventArgs, r: Result<Parser.EventArgs, string>) {
    && (IsBlank(e.description) ==> r == Err(EmptyEvent))
    && (!IsBlank(e.description) && IsBlank(e.fromTime) ==> r == Err(EmptyEventFrom))
    && (!IsBlank(e.description) && !IsBlank(e.fromTime) && IsBlank(e.toTime) ==> r == Err(EmptyEventTo))
    && (!IsBlank(e.description) && !IsBlank(e.fromTime) && !IsBlank(e.toTime) ==> r == Ok(e))
  }

  /** What this `parseEvent` reports for the rest: the format error without both markers, else the checks of its pieces. */
  predicate EventOutcome(rest: string, r: Result<Parser.EventArgs, string>) {
    match Parser.EventPieces(rest)
    case None => r == Err(Parser.EventFormat)
    case Some(e) => EventChecked(e, r)
  }

  /** The errors this `parseEvent` can report. */
  const EventErrors: set<string> := {Parser.EventFormat, EmptyEvent, EmptyEventFrom, EmptyEventTo}

  /** What `parseEvent` makes of the trimmed text after the command word. */
  function EventOfRest(rest: string): (r: Result<Parser.EventArgs, string>)
    ensures r.Ok? ==> !IsBlank(r.value.description) && !IsBlank(r.value.fromTime) && !IsBlank(r.value.toTime)
    ensures r.Err? ==> r.error in EventErrors
    ensures EventOutcome(rest, r)
  {
    match SplitOnce(rest, " /from ")
    case None => Err(Parser.EventFormat)
    case Some((d, p)) => EventOfParts(Trim(d), p)
  }

  /** The second split, at ` /to `, of what follows ` /from `. */
  function EventOfParts(desc: string, p: string): (r: Result<Parser.EventArgs, string>)
    ensures r.Ok? ==> r.value.description == desc
    ensures r.Ok? ==> !IsBlank(r.value.description) && !IsBlank(r.value.fromTime) && !IsBlank(r.value.toTime)
    ensures r.Err? ==> r.error in EventErrors
    ensures SplitOnce(p, " /to ").None? ==> r == Err(Parser.EventFormat)
    ensures SplitOnce(p, " /to ").Some? ==>
      EventChecked(Parser.EventArgs(desc, Trim(SplitOnce(p, " /to ").value.0), Trim(SplitOnce(p, " /to ").value.1)), r)
  {
    match SplitOnce(p, " /to ")
    case None => Err(Parser.EventFormat)
    case Some((f, t)) => EventOfFields(desc, Trim(f), Trim(t))
  }

  /** The blank checks on the three trimmed texts, in the order `parseEvent` makes them. */
  function EventOfFields(desc: string, fromRaw: string, toRaw: string): (r: Result<Parser.EventArgs, string>)
    ensures r.Ok? <==> !IsBlank(desc) && !IsBlank(fromRaw) && !IsBlank(toRaw)
    ensures r.Ok? ==> r.value == Parser.EventArgs(desc, fromRaw, toRaw)
    ensures r.Err? ==> r.error in EventErrors
    ensures EventChecked(Parser.EventArgs(desc, fromRaw, toRaw), r)
  {
    if IsBlank(desc) then Err(EmptyEvent)
    else if IsBlank(fromRaw) then Err(EmptyEventFrom)
    else if IsBlank(toRaw) then Err(EmptyEventTo)
    else Ok(Parser.EventArgs(desc, fromRaw, toRaw))
  }

  /** The message the later revision gives for the same failure ("an event" for "a event"). */
  function LaterMessage(e: string): string {
    if e == EmptyEvent then Parser.EmptyEvent
    else if e == EmptyEventFrom then Parser.EmptyEventFrom
    else if e == EmptyEventTo then Parser.EmptyEventTo
    else e
  }

  /**
   * The later revision is this one plus the date checks on the three fields:
   * the same splits and the same blank checks (with the later wording), and
   * then the later one parses both times and checks their order.
   */
  lemma EventFieldsAgainstLater(desc: string, fromRaw: string, toRaw: string)
    ensures EventOfFields(desc, fromRaw, toRaw).Err? ==>
      Parser.EventOfFields(desc, fromRaw, toRaw) == Err(LaterMessage(EventOfFields(desc, fromRaw, toRaw).error))
    ensures Parser.EventOfFields(desc, fromRaw, toRaw).Ok? ==>
      EventOfFields(desc, fromRaw, toRaw) == Parser.EventOfFields(desc, fromRaw, toRaw)
  {
  }

  lemma EventAgainstLater(rest: string)
    ensures EventOfRest(rest).Ok? ==>
      var a := EventOfRest(rest).value;
      Parser.EventOfRest(rest) == Parser.EventOfFields(a.description, a.fromTime, a.toTime)
    ensures EventOfRest(rest).Err? ==> Parser.EventOfRest(rest) == Err(LaterMessage(EventOfRest(rest).error))
    ensures Parser.EventOfRest(rest).Ok? ==> EventOfRest(rest) == Parser.EventOfRest(rest)
  {
    match SplitOnce(rest, " /from ")
    case None =>
    case Some((d, p)) =>
      match SplitOnce(p, " /to ")
      case None =>
      case Some((f, t)) =>
        EventFieldsAgainstLater(Trim(d), Trim(f), Trim(t));
  }

  /**
   * `event <desc> /from <start> /to <end>` gives back its three texts
   * whatever they say: a start after the end, or texts that are no date at
   * all, are accepted.
   */
  lemma ParseEventOf(w: string, desc: string, from: string, to: string)
    requires |w| == 5
    requires IsTrimmed(desc) && !IsBlank(desc) && Parser.NoMarker(desc)
    requires IsTrimmed(from) && !IsBlank(from) && Parser.NoMarker(from)
    requires IsTrimmed(to) && !IsBlank(to)
    ensures ParseEvent(w + " " + desc + " /from " + from + " /to " + to) == Ok(Parser.EventArgs(desc, from, to))
  {
    EventInputRest(w, desc, from, to);
    EventRestSplit(desc, from + " /to " + to);
    EventPartsSplit(desc, from, to);
  }

  /** What follows the command word of a well-formed event line, once trimmed. */
  lemma EventInputRest(w: string, desc: string, from: string, to: string)
    requires |w| == 5
    requires IsTrimmed(desc) && desc != [] && IsTrimmed(to) && to != []
    ensures Trim((w + " " + desc + " /from " + from + " /to " + to)[5..]) == desc + " /from " + (from + " /to " + to)
  {
    var body := desc + " /from " + from + " /to " + to;
    assert w + " " + desc + " /from " + from + " /to " + to == w + " " + body;
    assert body == desc + " /from " + (from + " /to " + to);
    Parser.EventBodyTrimmed(desc, from, to);
    Parser.RestAfterCommand(w, body);
  }

  lemma EventRestSplit(desc: string, tail: string)
    requires IsTrimmed(desc) && Parser.NoMarker(desc)
    ensures EventOfRest(desc + " /from " + tail) == EventOfParts(desc, tail)
  {
    Parser.SplitAtMarker(desc, " /from ", tail);
    TrimOfTrimmed(desc);
  }

  lemma EventPartsSplit(desc: string, from: string, to: string)
    requires IsTrimmed(from) && Parser.NoMarker(from) && IsTrimmed(to)
    ensures EventOfParts(desc, from + " /to " + to) == EventOfFields(desc, from, to)
  {
    Parser.SplitAtMarker(from, " /to ", to);
    TrimOfTrimmed(from);
    TrimOfTrimmed(to);
  }
}
