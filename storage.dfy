/**
 * `Storage`: the line format of the save file and the loading and saving of
 * a task list.  One task per line, fields separated by `|`:
 *   T | 0 | read book
 *   D | 1 | return book | 2019-12-02T18:00
 *   E | 0 | meeting | 2019-12-03T10:00 | 2019-12-03T12:00
 * The file is its list of lines, or None when it does not exist.
 */
module Storing {
  import opened Wrappers
  import opened JavaStrings
  import opened Temporal
  import opened Tasks
  import opened TaskLists
  import Parser

  // ---------------------------------------------------------------- splitting a line into fields

  /** Index of the first `c` in `s`, or |s| when there is none. */
  function IndexOfChar(s: string, c: char): (r: nat)
    ensures r <= |s|
    ensures forall k :: 0 <= k < r ==> s[k] != c
    ensures r < |s| ==> s[r] == c
  {
    if s == [] then 0 else if s[0] == c then 0 else 1 + IndexOfChar(s[1..], c)
  }

  /** Start of the run of `\s` characters that ends at `j`. */
  function SpaceRunStart(s: string, j: nat): (r: nat)
    requires j <= |s|
    ensures r <= j
    ensures forall k :: r <= k < j ==> IsRegexSpace(s[k])
    ensures r == 0 || !IsRegexSpace(s[r - 1])
  {
    if j > 0 && IsRegexSpace(s[j - 1]) then SpaceRunStart(s, j - 1) else j
  }

  /**
   * The pieces of `s` between the matches of the regular expression
   * `\s*\|\s*`: the leftmost match starts at the whitespace run right before
   * the first `|` and takes the whole whitespace run after it.
   */
  function SplitPipes(s: string): (r: seq<string>)
    ensures r != []
    decreases |s|
  {
    var j := IndexOfChar(s, '|');
    if j == |s| then [s]
    else [s[..SpaceRunStart(s, j)]] + SplitPipes(s[SpaceRunEnd(s, j + 1)..])
  }

  /** `split` with no limit drops the empty strings at the end of the result. */
  function DropTrailingEmpty(parts: seq<string>): (r: seq<string>)
    ensures |r| <= |parts| && r == parts[..|r|]
    ensures r == [] || r[|r| - 1] != []
    ensures forall k :: |r| <= k < |parts| ==> parts[k] == []
  {
    if parts != [] && parts[|parts| - 1] == [] then DropTrailingEmpty(parts[..|parts| - 1]) else parts
  }

  /** `line.split("\\s*\\|\\s*")`. */
  function SplitFields(line: string): seq<string> {
    DropTrailingEmpty(SplitPipes(line))
  }

  // ---------------------------------------------------------------- decoding lines

  /** What `load` does with one line: skips it, adds a task, or throws out of the whole load. */
  datatype LineResult<T> = Skipped | Loaded(task: T) | Aborted(error: string)

  /** `if (done) t.markAsDone()`. */
  function Marked(v: TaskValue, done: bool): (r: TaskValue)
    ensures r.kind == v.kind && r.description == v.description && r.done == (v.done || done)
  {
    if done then v.(done := true) else v
  }

  /**
   * The part of one pass of the loop in `load` after the split: the tag
   * picks the variant; a `D` line of fewer than four fields, an `E` line of
   * fewer than five and an unknown tag are skipped; a date that does not
   * parse throws.  Extra fields are ignored.
   */
  function DecodeFields(parts: seq<string>): (r: LineResult<TaskValue>)
    requires |parts| >= 3
    ensures r.Loaded? ==> r.task.description == parts[2] && (r.task.done <==> parts[1] == "1")
    ensures parts[0] !in ["T", "D", "E"] ==> r == Skipped
    ensures r.Aborted? ==> r.error == Parser.InvalidDateTime && parts[0] in ["D", "E"]
    ensures parts[0] == "T" ==> r == Loaded(TaskValue(ToDo, parts[2], parts[1] == "1"))
    ensures parts[0] == "D" && |parts| < 4 ==> r == Skipped
    ensures parts[0] == "D" && |parts| >= 4 ==>
      r == match Parser.ParseDateTime(parts[3])
           case Err(e) => Aborted(e)
           case Ok(due) => Loaded(TaskValue(Deadline(due), parts[2], parts[1] == "1"))
    ensures parts[0] == "E" && |parts| < 5 ==> r == Skipped
    ensures parts[0] == "E" && |parts| >= 5 ==>
      (r.Aborted? <==> Parser.ParseDateTime(parts[3]).Err? || Parser.ParseDateTime(parts[4]).Err?)
    ensures parts[0] == "E" && |parts| >= 5 && !r.Aborted? ==>
      r == Loaded(TaskValue(Event(Parser.ParseDateTime(parts[3]).value, Parser.ParseDateTime(parts[4]).value), parts[2], parts[1] == "1"))
  {
    var done := parts[1] == "1";
    if parts[0] == "T" then Loaded(Marked(NewToDo(parts[2]), done))
    else if parts[0] == "D" then
      if |parts| < 4 then Skipped
      else
        match NewDeadline(parts[2], parts[3])
        case Err(e) => Aborted(e)
        case Ok(t) => Loaded(Marked(t, done))
    else if parts[0] == "E" then
      if |parts| < 5 then Skipped
      else
        match NewEvent(parts[2], parts[3], parts[4])
        case Err(e) => Aborted(e)
        case Ok(t) => Loaded(Marked(t, done))
    else Skipped
  }

  /**
   * One pass of the loop in `load`: the line is trimmed; an empty line, a
   * `#` comment and a line of fewer than three fields are skipped.
   */
  function DecodeLine(raw: string): (r: LineResult<TaskValue>)
    ensures Trim(raw) == [] || Trim(raw)[0] == '#' ==> r == Skipped
    ensures Trim(raw) != [] && Trim(raw)[0] != '#' && |SplitFields(Trim(raw))| < 3 ==> r == Skipped
    ensures !r.Skipped? ==> |SplitFields(Trim(raw))| >= 3 && r == DecodeFields(SplitFields(Trim(raw)))
  {
    var line := Trim(raw);
    if line == [] || line[0] == '#' then Skipped
    else
      var parts := SplitFields(line);
      if |parts| < 3 then Skipped else DecodeFields(parts)
  }

  /** `f` applied to each element, in order. */
  function Map<S, T>(f: S -> T, xs: seq<S>): (r: seq<T>)
    ensures |r| == |xs|
    ensures forall k :: 0 <= k < |xs| ==> r[k] == f(xs[k])
  {
    seq(|xs|, k requires 0 <= k < |xs| => f(xs[k]))
  }

  /** Mapping a sequence with one more element at the end gives one more result at the end. */
  lemma MapAppend<S, T>(f: S -> T, xs: seq<S>, x: S)
    ensures Map(f, xs + [x]) == Map(f, xs) + [f(x)]
  {
    var a, b := Map(f, xs + [x]), Map(f, xs) + [f(x)];
    forall k | 0 <= k < |a| ensures a[k] == b[k] {
      if k < |xs| {
        assert (xs + [x])[k] == xs[k];
      }
    }
  }

  /** Each line of the file, read on its own. */
  function DecodeEach(lines: seq<string>): (rs: seq<LineResult<TaskValue>>)
    ensures |rs| == |lines|
    ensures forall k :: 0 <= k < |lines| ==> rs[k] == DecodeLine(lines[k])
  {
    Map(DecodeLine, lines)
  }

  /** The tasks of the lines read in order, or the error of the first line that throws. */
  function Collect<T>(rs: seq<LineResult<T>>): (r: Result<seq<T>, string>)
    ensures r.Ok? ==> |r.value| <= |rs|
    ensures r.Err? ==> Aborted(r.error) in rs
  {
    if rs == [] then Ok([])
    else
      match Collect(rs[..|rs| - 1])
      case Err(e) => Err(e)
      case Ok(vs) =>
        match rs[|rs| - 1]
        case Skipped => Ok(vs)
        case Loaded(v) => Ok(vs + [v])
        case Aborted(e) => Err(e)
  }

  /** The whole loop of `load`: the retained tasks in file order, or the first error thrown. */
  function DecodeLines(lines: seq<string>): (r: Result<seq<TaskValue>, string>)
    ensures r.Ok? ==> |r.value| <= |lines|
    ensures r.Err? ==> r.error == Parser.InvalidDateTime
  {
    var rs := DecodeEach(lines);
    var r := Collect(rs);
    assert r.Err? ==> exists k :: 0 <= k < |rs| && rs[k] == Aborted(r.error);
    r
  }

  /** `load`: a missing file is an empty list. */
  function DecodeFile(file: Option<seq<string>>): (r: Result<seq<TaskValue>, string>)
    ensures file.None? ==> r == Ok([])
  {
    match file
    case None => Ok([])
    case Some(lines) => DecodeLines(lines)
  }

  /** Once a prefix of the lines throws, the whole load throws the same error. */
  lemma {:induction false} AbortPersists<T>(rs: seq<LineResult<T>>, n: nat)
    requires n <= |rs| && Collect(rs[..n]).Err?
    ensures Collect(rs) == Collect(rs[..n])
    decreases |rs| - n
  {
    if n < |rs| {
      assert rs[..n + 1][..n] == rs[..n];
      AbortPersists(rs, n + 1);
    } else {
      assert rs[..n] == rs;
    }
  }

  /** One more line read: a skipped line keeps the result, a loaded one appends, an abort ends it. */
  lemma CollectStep<T>(rs: seq<LineResult<T>>, i: nat, vs: seq<T>)
    requires i < |rs| && Collect(rs[..i]) == Ok(vs)
    ensures rs[i].Skipped? ==> Collect(rs[..i + 1]) == Ok(vs)
    ensures rs[i].Loaded? ==> Collect(rs[..i + 1]) == Ok(vs + [rs[i].task])
    ensures rs[i].Aborted? ==> Collect(rs[..i + 1]) == Err(rs[i].error)
  {
    assert rs[..i + 1][..i] == rs[..i];
  }

  /** Reading one more line decodes the earlier lines as before. */
  lemma DecodeEachAppend(lines: seq<string>, raw: string)
    ensures DecodeEach(lines + [raw]) == DecodeEach(lines) + [DecodeLine(raw)]
  {
    MapAppend(DecodeLine, lines, raw);
  }

  /** Lines that are skipped add nothing: appending one leaves the result as it was. */
  lemma SkippedLineAddsNothing(lines: seq<string>, raw: string)
    requires DecodeLine(raw) == Skipped
    ensures DecodeLines(lines + [raw]) == DecodeLines(lines)
  {
    DecodeEachAppend(lines, raw);
    var rs := DecodeEach(lines) + [DecodeLine(raw)];
    assert rs[..|lines|] == DecodeEach(lines);
  }

  /** A line that throws, wherever it is, makes the whole load throw unless an earlier line has. */
  lemma AbortedLineAborts(lines: seq<string>, raw: string, rest: seq<string>)
    requires DecodeLines(lines).Ok? && DecodeLine(raw).Aborted?
    ensures DecodeLines(lines + [raw] + rest) == Err(DecodeLine(raw).error)
  {
    var all := lines + [raw] + rest;
    var rs := DecodeEach(all);
    assert all[..|lines| + 1] == lines + [raw];
    DecodeEachAppend(lines, raw);
    assert rs[..|lines| + 1] == DecodeEach(lines + [raw]);
    var pre := DecodeEach(lines) + [DecodeLine(raw)];
    assert pre[..|lines|] == DecodeEach(lines);
    AbortPersists(rs, |lines| + 1);
  }

  // ---------------------------------------------------------------- formatting

  /**
   * `format`: the `instanceof` chain of `Storage`; a task that is none of the
   * three variants is written as a todo.
   */
  function Format(v: TaskValue): string {
    var done := if v.done then "1" else "0";
    match v.kind
    case ToDo => "T | " + (done + (" | " + v.description))
    case Deadline(due) => "D | " + (done + (" | " + (v.description + (" | " + IsoString(due)))))
    case Event(f, t) =>
      "E | " + (done + (" | " + (v.description + (" | " + (IsoString(f) + (" | " + IsoString(t)))))))
    case Plain => "T | " + (done + (" | " + v.description))
  }

  lemma TagSeparator(tag: string, rest: string)
    requires |tag| == 1
    ensures tag + (" | " + rest) == tag + " | " + rest
  {
  }

  lemma JoinThree(a: string, b: string, c: string)
    ensures Join([a, b, c]) == a + (" | " + (b + (" | " + c)))
  {
    assert [a, b, c][1..] == [b, c] && [b, c][1..] == [c];
    assert Join([c]) == c;
    assert Join([b, c]) == b + (" | " + c);
  }

  lemma JoinFour(a: string, b: string, c: string, d: string)
    ensures Join([a, b, c, d]) == a + (" | " + Join([b, c, d]))
  {
    assert [a, b, c, d][1..] == [b, c, d];
  }

  lemma JoinFive(a: string, b: string, c: string, d: string, e: string)
    ensures Join([a, b, c, d, e]) == a + (" | " + Join([b, c, d, e]))
  {
    assert [a, b, c, d, e][1..] == [b, c, d, e];
  }

  lemma ToDoLineShape(tag: string, d: string, desc: string)
    requires |tag| == 1
    ensures Join([tag, d, desc]) == tag + " | " + (d + (" | " + desc))
  {
    JoinThree(tag, d, desc);
    TagSeparator(tag, d + (" | " + desc));
  }

  lemma DeadlineLineShape(d: string, desc: string, due: string)
    ensures Join(["D", d, desc, due]) == "D | " + (d + (" | " + (desc + (" | " + due))))
  {
    JoinFour("D", d, desc, due);
    JoinThree(d, desc, due);
    TagSeparator("D", d + (" | " + (desc + (" | " + due))));
  }

  lemma EventLineShape(d: string, desc: string, from: string, to: string)
    ensures Join(["E", d, desc, from, to]) == "E | " + (d + (" | " + (desc + (" | " + (from + (" | " + to))))))
  {
    JoinFive("E", d, desc, from, to);
    JoinFour(d, desc, from, to);
    JoinThree(desc, from, to);
    TagSeparator("E", d + (" | " + (desc + (" | " + (from + (" | " + to))))));
  }

  lemma FormatToDoLine(v: TaskValue)
    requires v.kind.ToDo? || v.kind.Plain?
    ensures Format(v) == FileString(v)
  {
    var d, desc := DoneDigit(v.done), v.description;
    assert Fields(v) == ["T", d, desc];
    ToDoLineShape("T", d, desc);
  }

  lemma FormatDeadlineLine(v: TaskValue)
    requires v.kind.Deadline?
    ensures Format(v) == FileString(v)
  {
    var d, desc, due := DoneDigit(v.done), v.description, IsoString(v.kind.due);
    assert Fields(v) == ["D", d, desc, due];
    DeadlineLineShape(d, desc, due);
  }

  lemma FormatEventLine(v: TaskValue)
    requires v.kind.Event?
    ensures Format(v) == FileString(v)
  {
    var d, desc := DoneDigit(v.done), v.description;
    var from, to := IsoString(v.kind.fromTime), IsoString(v.kind.toTime);
    assert Fields(v) == ["E", d, desc, from, to];
    EventLineShape(d, desc, from, to);
  }

  /** `format` writes each task exactly as its own `toFileString` does. */
  lemma FormatIsFileString(v: TaskValue)
    ensures Format(v) == FileString(v)
  {
    match v.kind
    case Plain => FormatToDoLine(v);
    case ToDo => FormatToDoLine(v);
    case Deadline(_) => FormatDeadlineLine(v);
    case Event(_, _) => FormatEventLine(v);
  }

  /** The lines `save` writes: one formatted line per task, in list order. */
  function Encode(vs: seq<TaskValue>): (r: seq<string>)
    ensures |r| == |vs|
    ensures forall i :: 0 <= i < |vs| ==> r[i] == Format(vs[i])
  {
    if vs == [] then [] else Encode(vs[..|vs| - 1]) + [Format(vs[|vs| - 1])]
  }

  /** One more task saved adds its line at the end. */
  lemma EncodeStep(vs: seq<TaskValue>, i: nat)
    requires i < |vs|
    ensures Encode(vs[..i + 1]) == Encode(vs[..i]) + [Format(vs[i])]
  {
    assert vs[..i + 1][..i] == vs[..i];
  }

  // ---------------------------------------------------------------- the round trip

  /**
   * A field that survives the write and the split: not empty, no surrounding
   * whitespace, no `|`, and no line break (`readAllLines` ends a line at
   * `\n`, `\r` and `\r\n`).
   */
  predicate IsField(f: string) {
    f != [] && IsTrimmed(f) && '|' !in f && '\n' !in f && '\r' !in f
  }

  /**
   * A task whose line reads back as itself: its description is a field and
   * its date-times have years 0 to 9999 (so that their ISO text has four
   * year digits).
   */
  predicate Storable(v: TaskValue) {
    && IsField(v.description)
    && match v.kind
       case Plain => true
       case ToDo => true
       case Deadline(due) => 0 <= due.year <= 9999
       case Event(f, t) => 0 <= f.year <= 9999 && 0 <= t.year <= 9999
  }

  /** How a task comes back from the file: a plain task is read back as a todo. */
  function Stored(v: TaskValue): (r: TaskValue)
    ensures r.description == v.description && r.done == v.done
    ensures v.kind.Plain? ==> r.kind.ToDo?
    ensures !v.kind.Plain? ==> r == v
  {
    if v.kind.Plain? then v.(kind := ToDo) else v
  }

  lemma DigitsNoPipe(s: string)
    requires AllDigits(s)
    ensures '|' !in s && '\n' !in s && '\r' !in s
  {
    forall k | 0 <= k < |s| ensures s[k] != '|' && s[k] != '\n' && s[k] != '\r' {
      assert IsDigit(s[k]);
    }
  }

  /** The ISO text of a date-time with a four-digit year is a field. */
  lemma IsoStringIsField(dt: LocalDateTime)
    requires 0 <= dt.year <= 9999
    ensures IsField(IsoString(dt))
  {
    IsoYearDigits(dt.year);
    var y, mo, d := FixedDigits(dt.year, 4), FixedDigits(dt.month, 2), FixedDigits(dt.day, 2);
    var h, mi := FixedDigits(dt.hour, 2), FixedDigits(dt.minute, 2);
    DigitsNoPipe(y);
    DigitsNoPipe(mo);
    DigitsNoPipe(d);
    DigitsNoPipe(h);
    DigitsNoPipe(mi);
    var s := IsoString(dt);
    assert s == y + "-" + mo + "-" + d + "T" + h + ":" + mi;
    assert s[0] == y[0] && s[|s| - 1] == mi[1];
    assert IsDigit(y[0]) && IsDigit(mi[1]);
  }

  /** A joined line starts with its first field and ends with its last. */
  lemma {:induction false} JoinEnds(fs: seq<string>)
    requires fs != [] && forall i :: 0 <= i < |fs| ==> fs[i] != []
    ensures Join(fs) != [] && Join(fs)[0] == fs[0][0]
    ensures Join(fs)[|Join(fs)| - 1] == fs[|fs| - 1][|fs[|fs| - 1]| - 1]
  {
    if |fs| > 1 {
      JoinEnds(fs[1..]);
    }
  }

  /** The first piece of `f + " | " + rest` is `f`, and the split goes on at `rest`. */
  lemma SplitPipesStep(f: string, rest: string)
    requires IsField(f) && rest != [] && !IsTrimmable(rest[0])
    ensures SplitPipes(f + (" | " + rest)) == [f] + SplitPipes(rest)
  {
    var s := f + (" | " + rest);
    var n := |f|;
    assert forall k :: 0 <= k < n ==> s[k] == f[k];
    assert s[n] == ' ' && s[n + 1] == '|' && s[n + 2] == ' ' && s[n + 3] == rest[0];
    forall k | 0 <= k < n ensures s[k] != '|' {
      assert f[k] in f;
    }
    assert IndexOfChar(s, '|') == n + 1;
    assert !IsRegexSpace(s[n - 1]);
    assert SpaceRunStart(s, n + 1) == n by {
      assert SpaceRunStart(s, n) == n;
    }
    assert SpaceRunEnd(s, n + 2) == n + 3 by {
      assert SpaceRunEnd(s, n + 3) == n + 3;
    }
    assert s[..n] == f;
    assert s[n + 3..] == rest;
  }

  /** Splitting a line joined from fields gives the fields back. */
  lemma {:induction false} SplitJoin(fs: seq<string>)
    requires fs != [] && forall i :: 0 <= i < |fs| ==> IsField(fs[i])
    ensures SplitPipes(Join(fs)) == fs
  {
    if |fs| == 1 {
      assert '|' !in fs[0];
      assert IndexOfChar(fs[0], '|') == |fs[0]| by {
        forall k | 0 <= k < |fs[0]| ensures fs[0][k] != '|' {
          assert fs[0][k] in fs[0];
        }
      }
    } else {
      var rest := fs[1..];
      assert forall i :: 0 <= i < |rest| ==> IsField(rest[i]) && rest[i] != [];
      JoinEnds(rest);
      SplitJoin(rest);
      assert Join(fs) == fs[0] + (" | " + Join(rest));
      SplitPipesStep(fs[0], Join(rest));
      assert SplitPipes(Join(fs)) == [fs[0]] + rest;
      assert [fs[0]] + rest == fs;
    }
  }

  /** The fields of a storable task are all fields in the split's sense. */
  lemma FieldsOfStorable(v: TaskValue)
    requires Storable(v)
    ensures forall i :: 0 <= i < |Fields(v)| ==> IsField(Fields(v)[i])
  {
    var fs := Fields(v);
    assert IsField(fs[0]) by { assert fs[0][0] in "TDE"; }
    assert IsField(fs[1]) by { assert fs[1] == "1" || fs[1] == "0"; }
    match v.kind
    case Plain =>
    case ToDo =>
    case Deadline(due) =>
      IsoStringIsField(due);
    case Event(f, t) =>
      IsoStringIsField(f);
      IsoStringIsField(t);
  }

  /** A line joined from fields is trimmed, opens with its first field and splits back into the fields. */
  lemma SplitJoinedLine(fs: seq<string>)
    requires fs != [] && forall i :: 0 <= i < |fs| ==> IsField(fs[i])
    ensures Join(fs) != [] && Trim(Join(fs)) == Join(fs) && Join(fs)[0] == fs[0][0]
    ensures SplitFields(Join(fs)) == fs
  {
    assert forall i :: 0 <= i < |fs| ==> fs[i] != [];
    JoinEnds(fs);
    var last := fs[|fs| - 1];
    assert IsField(last);
    TrimOfTrimmed(Join(fs));
    SplitJoin(fs);
  }

  /** A line joined from three or more fields is read as those fields. */
  lemma DecodeJoinedLine(fs: seq<string>)
    requires |fs| >= 3 && forall i :: 0 <= i < |fs| ==> IsField(fs[i])
    requires fs[0] != [] && fs[0][0] != '#'
    ensures DecodeLine(Join(fs)) == DecodeFields(fs)
  {
    SplitJoinedLine(fs);
  }

  /** A `T` line is a todo, marked as its digit says; later fields are ignored. */
  lemma DecodeToDoFields(parts: seq<string>)
    requires |parts| >= 3 && parts[0] == "T"
    ensures DecodeFields(parts) == Loaded(TaskValue(ToDo, parts[2], parts[1] == "1"))
  {
  }

  /** A `D` line whose date parses is a deadline, marked as its digit says; later fields are ignored. */
  lemma DecodeDeadlineFields(parts: seq<string>, dt: LocalDateTime)
    requires |parts| >= 4 && parts[0] == "D"
    requires Parser.ParseDateTime(parts[3]) == Ok(dt)
    ensures DecodeFields(parts) == Loaded(TaskValue(Deadline(dt), parts[2], parts[1] == "1"))
  {
  }

  /** An `E` line whose dates parse is an event, marked as its digit says; later fields are ignored. */
  lemma DecodeEventFields(parts: seq<string>, f: LocalDateTime, t: LocalDateTime)
    requires |parts| >= 5 && parts[0] == "E"
    requires Parser.ParseDateTime(parts[3]) == Ok(f) && Parser.ParseDateTime(parts[4]) == Ok(t)
    ensures DecodeFields(parts) == Loaded(TaskValue(Event(f, t), parts[2], parts[1] == "1"))
  {
  }

  /** The tasks as they come back from the file. */
  function StoredAll(vs: seq<TaskValue>): (r: seq<TaskValue>)
    ensures |r| == |vs|
    ensures forall i :: 0 <= i < |vs| ==> r[i] == Stored(vs[i])
  {
    if vs == [] then [] else StoredAll(vs[..|vs| - 1]) + [Stored(vs[|vs| - 1])]
  }

  /** The fields of a storable task's line, read back. */
  lemma DecodeStoredFields(v: TaskValue)
    requires Storable(v)
    ensures DecodeFields(Fields(v)) == Loaded(Stored(v))
  {
    var d := DoneDigit(v.done);
    assert d == "1" <==> v.done;
    match v.kind
    case Plain =>
      DecodeToDoFields(Fields(v));
    case ToDo =>
      DecodeToDoFields(Fields(v));
    case Deadline(due) =>
      assert Fields(v) == ["D", d, v.description, IsoString(due)];
      Parser.ParseDateTimeOfIsoString(due);
      DecodeDeadlineFields(Fields(v), due);
    case Event(f, t) =>
      assert Fields(v) == ["E", d, v.description, IsoString(f), IsoString(t)];
      Parser.ParseDateTimeOfIsoString(f);
      Parser.ParseDateTimeOfIsoString(t);
      DecodeEventFields(Fields(v), f, t);
  }

  /** A storable task's line reads back as the task (a plain task as a todo). */
  lemma DecodeFormatted(v: TaskValue)
    requires Storable(v)
    ensures DecodeLine(Format(v)) == Loaded(Stored(v))
  {
    FormatIsFileString(v);
    FieldsOfStorable(v);
    assert Fields(v)[0][0] in "TDE";
    DecodeJoinedLine(Fields(v));
    DecodeStoredFields(v);
  }

  /**
   * Saving then loading gives back every storable task, in order, with its
   * variant, description and done flag.
   */
  lemma {:induction false} SaveThenLoad(vs: seq<TaskValue>)
    requires forall i :: 0 <= i < |vs| ==> Storable(vs[i])
    ensures DecodeFile(Some(Encode(vs))) == Ok(StoredAll(vs))
  {
    if vs != [] {
      var init := vs[..|vs| - 1];
      SaveThenLoad(init);
      var lines := Encode(vs);
      assert lines == Encode(init) + [Format(vs[|vs| - 1])];
      DecodeEachAppend(Encode(init), Format(vs[|vs| - 1]));
      DecodeFormatted(vs[|vs| - 1]);
      var rs := DecodeEach(lines);
      assert rs[..|vs| - 1] == DecodeEach(Encode(init));
    }
  }

  /** The line of a todo whose description is `a | b` is the line of four fields. */
  lemma PipeLineFields(done: bool)
    ensures Format(TaskValue(ToDo, "a | b", done)) == Join(["T", DoneDigit(done), "a", "b"])
  {
    var d := DoneDigit(done);
    FormatToDoLine(TaskValue(ToDo, "a | b", done));
    assert Fields(TaskValue(ToDo, "a | b", done)) == ["T", d, "a | b"];
    JoinThree("T", d, "a | b");
    JoinFour("T", d, "a", "b");
    JoinThree(d, "a", "b");
    assert "a" + (" | " + "b") == "a | b";
  }

  /** A description holding the separator does not survive: its line splits into more fields. */
  lemma PipeInDescription(done: bool)
    ensures DecodeLine(Format(TaskValue(ToDo, "a | b", done))) == Loaded(TaskValue(ToDo, "a", done))
  {
    var d := DoneDigit(done);
    var fs := ["T", d, "a", "b"];
    PipeLineFields(done);
    assert IsField("T") && IsField(d) && IsField("a") && IsField("b");
    assert forall i :: 0 <= i < |fs| ==> IsField(fs[i]);
    DecodeJoinedLine(fs);
    DecodeToDoFields(fs);
  }

  // ---------------------------------------------------------------- the storage object

  /**
   * A `Storage` for one path.  The file system is modelled by the file's
   * lines (None while it does not exist) and by whether it can be written.
   */
  class Storage {
    var file: Option<seq<string>>
    const writable: bool

    constructor (file: Option<seq<string>>, writable: bool)
      ensures this.file == file && this.writable == writable
    {
      this.file := file;
      this.writable := writable;
    }

    /**
     * `load`: a missing file gives an empty list; otherwise the lines are
     * read in order (see `ReadTasks`).
     */
    method Load() returns (r: Result<TaskArray, string>)
      ensures DecodeFile(file).Err? ==> r == Err(DecodeFile(file).error)
      ensures DecodeFile(file).Ok? ==>
        && r.Ok? && fresh(r.value) && Values(r.value.elems) == DecodeFile(file).value
        && Distinct(r.value.elems) && forall t :: t in r.value.elems ==> fresh(t)
    {
      if file.None? {
        var tasks := new TaskArray();
        return Ok(tasks);
      }
      r := ReadTasks(file.value);
    }

    /**
     * `save`: one formatted line per task, in list order, replacing the old
     * contents; an unwritable file throws, reported here as `false`.
     */
    method Save(tasks: TaskArray) returns (saved: bool)
      modifies this
      ensures saved == writable
      ensures saved ==> file == Some(Encode(Values(tasks.elems)))
      ensures !saved ==> file == old(file)
    {
      var out := FormatAll(tasks);
      ghost var values := Values(tasks.elems);
      if !writable {
        return false;
      }
      file := Some(out);
      assert Values(tasks.elems) == values;
      return true;
    }
  }

  /** A new task object in the given state: constructed, then marked done when the state says so. */
  method NewTask(v: TaskValue) returns (t: Task)
    ensures fresh(t) && t.Value() == v
  {
    t := new Task(v.description, v.kind);
    if v.done {
      t.MarkAsDone();
    }
  }

  /** One task of `load`: constructed, marked done when the line says so, and added at the end. */
  method AddNewTask(tasks: TaskArray, v: TaskValue)
    requires Distinct(tasks.elems)
    modifies tasks
    ensures Values(tasks.elems) == old(Values(tasks.elems)) + [v]
    ensures Distinct(tasks.elems)
    ensures forall t :: t in tasks.elems ==> t in old(tasks.elems) || fresh(t)
  {
    var t := NewTask(v);
    AppendTask(tasks, t);
  }

  /** `TaskList.add` as `load` uses it: the object goes at the end. */
  method AppendTask(tasks: TaskArray, t: Task)
    requires Distinct(tasks.elems) && t !in tasks.elems
    modifies tasks
    ensures tasks.elems == old(tasks.elems) + [t]
    ensures Values(tasks.elems) == old(Values(tasks.elems)) + [t.Value()]
    ensures Distinct(tasks.elems)
  {
    ValuesAppend(tasks.elems, t);
    DistinctAppend(tasks.elems, t);
    tasks.elems := tasks.elems + [t];
  }

  /**
   * One pass of the loop of `load`, on line `i`: a line that makes a task
   * adds it at the end, a skipped line adds nothing, and a date that does
   * not parse ends the whole load with its error.
   */
  method ReadLine(tasks: TaskArray, lines: seq<string>, i: nat, ghost kept: seq<TaskValue>)
      returns (res: LineResult<TaskValue>, ghost now: seq<TaskValue>)
    requires i < |lines| && Collect(DecodeEach(lines)[..i]) == Ok(kept)
    requires Values(tasks.elems) == kept && Distinct(tasks.elems)
    modifies tasks
    ensures res.Aborted? ==> DecodeLines(lines) == Err(res.error)
    ensures !res.Aborted? ==> Collect(DecodeEach(lines)[..i + 1]) == Ok(now) && Values(tasks.elems) == now
    ensures Distinct(tasks.elems)
    ensures forall t :: t in tasks.elems ==> t in old(tasks.elems) || fresh(t)
  {
    ghost var rs := DecodeEach(lines);
    res := DecodeLine(lines[i]);
    assert res == rs[i];
    CollectStep(rs, i, kept);
    now := kept;
    if res.Aborted? {
      AbortPersists(rs, i + 1);
    } else if res.Loaded? {
      AddNewTask(tasks, res.task);
      now := kept + [res.task];
    }
  }

  /** The loop of `load`: the lines in file order, until one throws. */
  method ReadTasks(lines: seq<string>) returns (r: Result<TaskArray, string>)
    ensures DecodeLines(lines).Err? ==> r == Err(DecodeLines(lines).error)
    ensures DecodeLines(lines).Ok? ==>
      && r.Ok? && fresh(r.value) && Values(r.value.elems) == DecodeLines(lines).value
      && Distinct(r.value.elems) && forall t :: t in r.value.elems ==> fresh(t)
  {
    var tasks := new TaskArray();
    var i := 0;
    ghost var kept: seq<TaskValue> := [];
    assert DecodeEach(lines)[..0] == [];
    while i < |lines|
      invariant 0 <= i <= |lines|
      invariant fresh(tasks)
      invariant Collect(DecodeEach(lines)[..i]) == Ok(kept)
      invariant Values(tasks.elems) == kept
      invariant Distinct(tasks.elems) && forall t :: t in tasks.elems ==> fresh(t)
    {
      var res;
      res, kept := ReadLine(tasks, lines, i, kept);
      if res.Aborted? {
        return Err(res.error);
      }
      i := i + 1;
    }
    assert DecodeEach(lines)[..i] == DecodeEach(lines);
    return Ok(tasks);
  }

  /** The loop of `save`: the formatted line of each task, in list order. */
  method FormatAll(tasks: TaskArray) returns (out: seq<string>)
    ensures out == Encode(Values(tasks.elems))
  {
    ghost var vs := Values(tasks.elems);
    out := [];
    var i := 0;
    while i < |tasks.elems|
      invariant 0 <= i <= |tasks.elems|
      invariant out == Encode(vs[..i])
    {
      EncodeStep(vs, i);
      out := out + [Format(tasks.elems[i].Value())];
      i := i + 1;
    }
    assert vs[..i] == vs;
  }
}
