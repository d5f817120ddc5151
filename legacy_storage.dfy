/**
 * The earlier revision of `Storage` (the default-package `Storage`): the same
 * line format as the later one, but an event's two times are the texts it
 * was made with, written and read back without any date parsing.  Only a
 * `D` line's date is parsed on loading, and one that does not parse throws
 * out of the whole load.  The file is its list of lines, or None when it
 * does not exist.
 */
module LegacyStorage {
  import opened Wrappers
  import opened JavaStrings
  import opened Temporal
  import opened LegacyTasks
  import Storing
  import Tasks
  import Parser

  // ---------------------------------------------------------------- decoding lines

  /** `if (done) t.markAsDone()`. */
  function Marked(t: LegacyTask, done: bool): (r: LegacyTask)
    ensures r.kind == t.kind && r.description == t.description && r.done == (t.done || done)
  {
    if done then t.(done := true) else t
  }

  /**
   * The part of one pass of the loop in `load` after the split: the tag
   * picks the variant; a `D` line of fewer than four fields, an `E` line of
   * fewer than five and an unknown tag are skipped; a `D` date that does not
   * parse throws.  Extra fields are ignored.
   */
  function DecodeFields(parts: seq<string>): (r: Storing.LineResult<LegacyTask>)
    requires |parts| >= 3
    ensures r.Loaded? ==> r.task.description == parts[2] && (r.task.done <==> parts[1] == "1")
    ensures parts[0] !in ["T", "D", "E"] ==> r == Storing.Skipped
    ensures r.Aborted? ==> r.error == Parser.InvalidDateTime && parts[0] == "D"
    ensures parts[0] == "T" ==> r == Storing.Loaded(LegacyTask(ToDo, parts[2], parts[1] == "1"))
    ensures parts[0] == "D" && |parts| < 4 ==> r == Storing.Skipped
    ensures parts[0] == "D" && |parts| >= 4 ==>
      r == match Parser.ParseDateTime(parts[3])
           case Err(e) => Storing.Aborted(e)
           case Ok(due) => Storing.Loaded(LegacyTask(Deadline(due), parts[2], parts[1] == "1"))
    ensures parts[0] == "E" && |parts| < 5 ==> r == Storing.Skipped
    ensures parts[0] == "E" && |parts| >= 5 ==>
      r == Storing.Loaded(LegacyTask(Event(parts[3], parts[4]), parts[2], parts[1] == "1"))
  {
    var done := parts[1] == "1";
    if parts[0] == "T" then Storing.Loaded(Marked(NewToDo(parts[2]), done))
    else if parts[0] == "D" then
      if |parts| < 4 then Storing.Skipped
      else
        match NewDeadline(parts[2], parts[3])
        case Err(e) => Storing.Aborted(e)
        case Ok(t) => Storing.Loaded(Marked(t, done))
    else if parts[0] == "E" then
      if |parts| < 5 then Storing.Skipped
      else Storing.Loaded(Marked(NewEvent(parts[2], parts[3], parts[4]), done))
    else Storing.Skipped
  }

  /**
   * One pass of the loop in `load`: the line is trimmed; an empty line, a
   * `#` comment and a line of fewer than three fields are skipped.
   */
  function DecodeLine(raw: string): (r: Storing.LineResult<LegacyTask>)
    ensures Trim(raw) == [] || Trim(raw)[0] == '#' ==> r == Storing.Skipped
    ensures Trim(raw) != [] && Trim(raw)[0] != '#' && |Storing.SplitFields(Trim(raw))| < 3 ==> r == Storing.Skipped
    ensures !r.Skipped? ==> |Storing.SplitFields(Trim(raw))| >= 3 && r == DecodeFields(Storing.SplitFields(Trim(raw)))
  {
    var line := Trim(raw);
    if line == [] || line[0] == '#' then Storing.Skipped
    else
      var parts := Storing.SplitFields(line);
      if |parts| < 3 then Storing.Skipped else DecodeFields(parts)
  }

  /** Each line of the file, read on its own. */
  function DecodeEach(lines: seq<string>): (rs: seq<Storing.LineResult<LegacyTask>>)
    ensures |rs| == |lines|
    ensures forall k :: 0 <= k < |lines| ==> rs[k] == DecodeLine(lines[k])
  {
    Storing.Map(DecodeLine, lines)
  }

  /** The whole loop of `load`: the retained tasks in file order, or the first error thrown. */
  function DecodeLines(lines: seq<string>): (r: Result<seq<LegacyTask>, string>)
    ensures r.Ok? ==> |r.value| <= |lines|
    ensures r.Err? ==> r.error == Parser.InvalidDateTime
  {
    var rs := DecodeEach(lines);
    var r := Storing.Collect(rs);
    assert r.Err? ==> exists k :: 0 <= k < |rs| && rs[k] == Storing.Aborted(r.error);
    r
  }

  /** `load`: a missing file is an empty list. */
  function DecodeFile(file: Option<seq<string>>): (r: Result<seq<LegacyTask>, string>)
    ensures file.None? ==> r == Ok([])
  {
    match file
    case None => Ok([])
    case Some(lines) => DecodeLines(lines)
  }

  /**
   * An `E` line is an event whatever its two time texts say, where the later
   * revision throws out of the load when either is no date-time.
   */
  lemma EventTextsNotParsed(d: string, desc: string, from: string, to: string)
    ensures DecodeFields(["E", d, desc, from, to]) == Storing.Loaded(LegacyTask(Event(from, to), desc, d == "1"))
    ensures Parser.ParseDateTime(from).Err? ==> Storing.DecodeFields(["E", d, desc, from, to]) == Storing.Aborted(Parser.InvalidDateTime)
  {
    var parts := ["E", d, desc, from, to];
    assert parts[0] == "E" && parts[1] == d && parts[2] == desc && parts[3] == from && parts[4] == to;
  }

  /**
   * A `T` or `D` line loads as the later revision loads it: the same task,
   * the same skips, the same error.
   */
  lemma DecodeFieldsAgainstLater(parts: seq<string>)
    requires |parts| >= 3 && parts[0] != "E"
    ensures DecodeFields(parts).Skipped? <==> Storing.DecodeFields(parts).Skipped?
    ensures DecodeFields(parts).Aborted? <==> Storing.DecodeFields(parts).Aborted?
    ensures DecodeFields(parts).Aborted? ==> DecodeFields(parts).error == Storing.DecodeFields(parts).error
    ensures DecodeFields(parts).Loaded? ==>
      && Storing.DecodeFields(parts).Loaded?
      && Later(DecodeFields(parts).task) == Storing.DecodeFields(parts).task
  {
    if parts[0] == "D" && |parts| >= 4 {
      NewDeadlineAgainstLater(parts[2], parts[3]);
    }
  }

  // ---------------------------------------------------------------- formatting

  /** `format`: the `instanceof` chain; an event writes its two texts as they are. */
  function Format(t: LegacyTask): string {
    var done := if t.done then "1" else "0";
    match t.kind
    case ToDo => "T | " + (done + (" | " + t.description))
    case Deadline(due) => "D | " + (done + (" | " + (t.description + (" | " + IsoString(due)))))
    case Event(f, to) => "E | " + (done + (" | " + (t.description + (" | " + (f + (" | " + to))))))
  }

  /** The fields of a task's line, in order. */
  function Fields(t: LegacyTask): (r: seq<string>)
    ensures |r| >= 3 && r[1] == Tasks.DoneDigit(t.done) && r[2] == t.description
  {
    var d := Tasks.DoneDigit(t.done);
    match t.kind
    case ToDo => ["T", d, t.description]
    case Deadline(due) => ["D", d, t.description, IsoString(due)]
    case Event(f, to) => ["E", d, t.description, f, to]
  }

  /**
   * `format` writes a task's fields joined by ` | `; for a todo and a
   * deadline that is their own `toFileString`, and the later revision's line.
   */
  lemma FormatIsJoin(t: LegacyTask)
    ensures Format(t) == Tasks.Join(Fields(t))
    ensures t.kind.ToDo? ==> Format(t) == ToDoFileString(t)
    ensures t.kind.Deadline? ==> Format(t) == DeadlineFileString(t)
    ensures !t.kind.Event? ==> Format(t) == Storing.Format(Later(t))
  {
    match t.kind
    case ToDo => FormatToDoJoin(t);
    case Deadline(_) => FormatDeadlineJoin(t);
    case Event(_, _) => FormatEventJoin(t);
  }

  lemma FormatToDoJoin(t: LegacyTask)
    requires t.kind.ToDo?
    ensures Format(t) == Tasks.Join(Fields(t)) == ToDoFileString(t) == Storing.Format(Later(t))
  {
    var d := Tasks.DoneDigit(t.done);
    assert d == if t.done then "1" else "0";
    Storing.ToDoLineShape("T", d, t.description);
  }

  lemma FormatDeadlineJoin(t: LegacyTask)
    requires t.kind.Deadline?
    ensures Format(t) == Tasks.Join(Fields(t)) == DeadlineFileString(t) == Storing.Format(Later(t))
  {
    var d := Tasks.DoneDigit(t.done);
    assert d == if t.done then "1" else "0";
    Storing.DeadlineLineShape(d, t.description, IsoString(t.kind.due));
  }

  lemma FormatEventJoin(t: LegacyTask)
    requires t.kind.Event?
    ensures Format(t) == Tasks.Join(Fields(t))
  {
    var d := Tasks.DoneDigit(t.done);
    assert d == if t.done then "1" else "0";
    Storing.EventLineShape(d, t.description, t.kind.fromTime, t.kind.toTime);
  }

  /** The lines `save` writes: one formatted line per task, in list order. */
  function Encode(ts: seq<LegacyTask>): (r: seq<string>)
    ensures |r| == |ts|
    ensures forall i :: 0 <= i < |ts| ==> r[i] == Format(ts[i])
  {
    if ts == [] then [] else Encode(ts[..|ts| - 1]) + [Format(ts[|ts| - 1])]
  }

  /** One more task saved adds its line at the end. */
  lemma EncodeStep(ts: seq<LegacyTask>, i: nat)
    requires i < |ts|
    ensures Encode(ts[..i + 1]) == Encode(ts[..i]) + [Format(ts[i])]
  {
    assert ts[..i + 1][..i] == ts[..i];
  }

  // ---------------------------------------------------------------- the round trip

  /**
   * A task whose line reads back as itself: its description and an event's
   * two texts are fields, and a deadline's year has four digits.
   */
  predicate Storable(t: LegacyTask) {
    && Storing.IsField(t.description)
    && match t.kind
       case ToDo => true
       case Deadline(due) => 0 <= due.year <= 9999
       case Event(f, to) => Storing.IsField(f) && Storing.IsField(to)
  }

  lemma FieldsOfStorable(t: LegacyTask)
    requires Storable(t)
    ensures forall i :: 0 <= i < |Fields(t)| ==> Storing.IsField(Fields(t)[i])
    ensures Fields(t)[0][0] in "TDE"
  {
    var fs := Fields(t);
    assert Storing.IsField(fs[0]) by { assert fs[0] in ["T", "D", "E"]; }
    assert Storing.IsField(fs[1]) by { assert fs[1] == "1" || fs[1] == "0"; }
    match t.kind
    case ToDo =>
    case Deadline(due) =>
      Storing.IsoStringIsField(due);
    case Event(f, to) =>
  }

  /** The fields of a storable task's line, read back. */
  lemma DecodeTaskFields(t: LegacyTask)
    requires Storable(t)
    ensures DecodeFields(Fields(t)) == Storing.Loaded(t)
  {
    var d := Tasks.DoneDigit(t.done);
    assert d == "1" <==> t.done;
    var parts := Fields(t);
    match t.kind
    case ToDo =>
      assert parts[0] == "T";
    case Deadline(due) =>
      assert parts[0] == "D" && parts[3] == IsoString(due);
      Parser.ParseDateTimeOfIsoString(due);
    case Event(f, to) =>
      assert parts[0] == "E" && parts[3] == f && parts[4] == to;
  }

  /** A storable task's line reads back as the task. */
  lemma DecodeFormatted(t: LegacyTask)
    requires Storable(t)
    ensures DecodeLine(Format(t)) == Storing.Loaded(t)
  {
    FormatIsJoin(t);
    FieldsOfStorable(t);
    Storing.SplitJoinedLine(Fields(t));
    DecodeTaskFields(t);
  }

  /**
   * Saving then loading gives back every storable task, in order, with its
   * variant, description, done flag and, for an event, its two texts.
   */
  lemma {:induction false} SaveThenLoad(ts: seq<LegacyTask>)
    requires forall i :: 0 <= i < |ts| ==> Storable(ts[i])
    ensures DecodeFile(Some(Encode(ts))) == Ok(ts)
  {
    if ts != [] {
      var init, last := ts[..|ts| - 1], ts[|ts| - 1];
      assert ts == init + [last];
      SaveThenLoad(init);
      assert Encode(ts) == Encode(init) + [Format(last)];
      DecodeFormatted(last);
      LoadedLineAppends(Encode(init), Format(last), init, last);
    }
  }

  /** A line that loads a task adds that task after those of the lines before it. */
  lemma LoadedLineAppends(lines: seq<string>, raw: string, ts: seq<LegacyTask>, t: LegacyTask)
    requires DecodeLines(lines) == Ok(ts) && DecodeLine(raw) == Storing.Loaded(t)
    ensures DecodeLines(lines + [raw]) == Ok(ts + [t])
  {
    Storing.MapAppend(DecodeLine, lines, raw);
    var rs := DecodeEach(lines + [raw]);
    assert rs[..|lines|] == DecodeEach(lines);
    Storing.CollectStep(rs, |lines|, ts);
    assert rs[..|lines| + 1] == rs;
  }

  // ---------------------------------------------------------------- the storage object

  /** A `Storage` for one path; the file system is modelled by the file's lines (None while it does not exist). */
  class Storage {
    var file: Option<seq<string>>

    constructor (file: Option<seq<string>>)
      ensures this.file == file
    {
      this.file := file;
    }

    /** `load`: a missing file gives an empty list; otherwise the lines are read in order. */
    method Load() returns (r: Result<seq<LegacyTask>, string>)
      ensures r == DecodeFile(file)
    {
      if file.None? {
        return Ok([]);
      }
      r := ReadTasks(file.value);
    }

    /** `save`: one formatted line per task, in list order, replacing the old contents. */
    method Save(tasks: seq<LegacyTask>)
      modifies this
      ensures file == Some(Encode(tasks))
    {
      var out := FormatAll(tasks);
      file := Some(out);
    }
  }

  /** The loop of `load`: the lines in file order, each task appended, until one throws. */
  method ReadTasks(lines: seq<string>) returns (r: Result<seq<LegacyTask>, string>)
    ensures r == DecodeLines(lines)
  {
    var tasks: seq<LegacyTask> := [];
    var i := 0;
    assert lines[..0] == [];
    while i < |lines|
      invariant 0 <= i <= |lines|
      invariant DecodeLines(lines[..i]) == Ok(tasks)
    {
      var res := DecodeLine(lines[i]);
      DecodePrefixStep(lines, i, tasks);
      match res {
        case Skipped =>
        case Loaded(t) =>
          tasks := tasks + [t];
        case Aborted(e) =>
          return Err(e);
      }
      i := i + 1;
    }
    assert lines[..i] == lines;
    return Ok(tasks);
  }

  /** One more line of the loop: a skipped line keeps the tasks, a loaded one appends its task, and a throwing one ends the whole load. */
  lemma DecodePrefixStep(lines: seq<string>, i: nat, ts: seq<LegacyTask>)
    requires i < |lines| && DecodeLines(lines[..i]) == Ok(ts)
    ensures DecodeLine(lines[i]).Skipped? ==> DecodeLines(lines[..i + 1]) == Ok(ts)
    ensures DecodeLine(lines[i]).Loaded? ==> DecodeLines(lines[..i + 1]) == Ok(ts + [DecodeLine(lines[i]).task])
    ensures DecodeLine(lines[i]).Aborted? ==> DecodeLines(lines) == Err(DecodeLine(lines[i]).error)
  {
    var rs := DecodeEach(lines);
    assert rs[..i] == DecodeEach(lines[..i]);
    assert rs[..i + 1] == DecodeEach(lines[..i + 1]);
    Storing.CollectStep(rs, i, ts);
    if rs[i].Aborted? {
      Storing.AbortPersists(rs, i + 1);
      assert rs[..|rs|] == rs;
    }
  }

  /** The loop of `save`: the formatted line of each task, in list order. */
  method FormatAll(tasks: seq<LegacyTask>) returns (out: seq<string>)
    ensures out == Encode(tasks)
  {
    out := [];
    var i := 0;
    while i < |tasks|
      invariant 0 <= i <= |tasks|
      invariant out == Encode(tasks[..i])
    {
      EncodeStep(tasks, i);
      out := out + [Format(tasks[i])];
      i := i + 1;
    }
    assert tasks[..i] == tasks;
  }
}
