/**
 * The task hierarchy: a plain `Task` with a description and a done flag, and
 * its three variants `ToDo`, `Deadline` (a due date-time) and `Event` (a start
 * and an end).  A task's state at one moment is a `TaskValue`; the `Task`
 * class holds the one field Java changes in place, the done flag.
 */
module Tasks {
  import opened Wrappers
  import opened JavaStrings
  import opened Temporal
  import Parser

  /** The variant of a task; the date-times are the parsed values the constructors store. */
  datatype Kind =
    | Plain
    | ToDo
    | Deadline(due: LocalDateTime)
    | Event(fromTime: LocalDateTime, toTime: LocalDateTime)

  /** Everything a task holds: its variant, its final description and its done flag. */
  datatype TaskValue = TaskValue(kind: Kind, description: string, done: bool)

  /** `getStatusIcon`: "X" for a done task, a blank otherwise. */
  function StatusIcon(done: bool): (r: string)
    ensures |r| == 1
    ensures r == "X" <==> done
    ensures r == " " <==> !done
  {
    if done then "X" else " "
  }

  /** The done field of the file line, `(isDone ? 1 : 0)` printed as a number. */
  function DoneDigit(done: bool): (r: string)
    ensures |r| == 1
    ensures r == "1" <==> done
    ensures r == "0" <==> !done
  {
    if done then IntToString(1) else IntToString(0)
  }

  /** The letter that opens a task's file line; a plain task is written as a todo. */
  function TypeTag(kind: Kind): string {
    match kind
    case Plain => "T"
    case ToDo => "T"
    case Deadline(_) => "D"
    case Event(_, _) => "E"
  }

  /** The fields after the description in a file line: the ISO texts of the stored date-times. */
  function DateFields(kind: Kind): seq<string> {
    match kind
    case Plain => []
    case ToDo => []
    case Deadline(due) => [IsoString(due)]
    case Event(f, t) => [IsoString(f), IsoString(t)]
  }

  /** The fields of a file line, in order: tag, done digit, description, then the date texts. */
  function Fields(v: TaskValue): (r: seq<string>)
    ensures |r| >= 3 && r[0] == TypeTag(v.kind) && r[1] == DoneDigit(v.done) && r[2] == v.description
  {
    [TypeTag(v.kind), DoneDigit(v.done), v.description] + DateFields(v.kind)
  }

  /** Fields joined with the separator ` | ` that the file lines use. */
  function Join(fields: seq<string>): string
    requires fields != []
  {
    if |fields| == 1 then fields[0] else fields[0] + (" | " + Join(fields[1..]))
  }

  /**
   * `toFileString` of each variant: its fields joined by ` | `, that is
   * `T | d | desc`, `D | d | desc | by` and `E | d | desc | from | to`, with
   * the date-times in ISO form.
   */
  function FileString(v: TaskValue): string {
    Join(Fields(v))
  }

  /** The base `Task.toString`: `[X] desc` or `[ ] desc`. */
  function BaseString(v: TaskValue): string {
    "[" + (StatusIcon(v.done) + ("] " + v.description))
  }

  /**
   * `toString` of each variant: the base rendering after `[T]`, `[D]` or
   * `[E]`; a deadline shows its due time in ISO form, an event shows its times
   * through `formatDateTime`.
   */
  function DisplayString(v: TaskValue): string {
    match v.kind
    case Plain => BaseString(v)
    case ToDo => "[T]" + BaseString(v)
    case Deadline(due) => "[D]" + (BaseString(v) + (" (by: " + IsoString(due) + ")"))
    case Event(f, t) =>
      "[E]" + (BaseString(v) + (" (from: " + Parser.FormatDateTime(f) + " to: " + Parser.FormatDateTime(t) + ")"))
  }

  /** Where the status icon sits in `DisplayString`: after `[` or after `[T][`, `[D][`, `[E][`. */
  function IconIndex(kind: Kind): nat {
    if kind.Plain? then 1 else 4
  }

  /** The done digit is the fifth character of a file line, after the tag and ` | `. */
  lemma FileStringLayout(v: TaskValue)
    ensures |FileString(v)| >= 8
    ensures FileString(v)[0] == TypeTag(v.kind)[0] && FileString(v)[1..4] == " | "
    ensures FileString(v)[4] == (if v.done then '1' else '0')
  {
    FileStringPrefix(v);
  }

  lemma FileStringPrefix(v: TaskValue)
    ensures FileString(v) == TypeTag(v.kind) + (" | " + (DoneDigit(v.done) + (" | " + Join(Fields(v)[2..]))))
  {
    var fs := Fields(v);
    assert fs[1..][0] == fs[1] && fs[1..][1..] == fs[2..];
    assert Join(fs[1..]) == fs[1] + (" | " + Join(fs[2..]));
  }

  /**
   * Marking or unmarking changes a file line in the done digit alone: the two
   * lines have the same length and agree everywhere else.
   */
  lemma MarkChangesOnlyDoneDigit(v: TaskValue, done: bool)
    ensures |FileString(v.(done := done))| == |FileString(v)| >= 5
    ensures forall k :: 0 <= k < |FileString(v)| && k != 4 ==> FileString(v.(done := done))[k] == FileString(v)[k]
    ensures FileString(v.(done := done))[4] != FileString(v)[4] <==> done != v.done
  {
    var w := v.(done := done);
    var fs, gs := Fields(v), Fields(w);
    assert fs[2..] == gs[2..];
    FileStringPrefix(v);
    FileStringPrefix(w);
  }

  /** The base rendering puts the icon second and keeps everything else when the flag changes. */
  lemma BaseStringLayout(v: TaskValue, done: bool)
    ensures |BaseString(v.(done := done))| == |BaseString(v)| == |v.description| + 4
    ensures BaseString(v)[1] == (if v.done then 'X' else ' ')
    ensures forall k :: 0 <= k < |BaseString(v)| && k != 1 ==> BaseString(v.(done := done))[k] == BaseString(v)[k]
  {
  }

  /** Marking or unmarking changes the display text in the status icon alone. */
  lemma MarkChangesOnlyIcon(v: TaskValue, done: bool)
    ensures |DisplayString(v.(done := done))| == |DisplayString(v)|
    ensures forall k :: 0 <= k < |DisplayString(v)| && k != IconIndex(v.kind) ==>
      DisplayString(v.(done := done))[k] == DisplayString(v)[k]
    ensures DisplayString(v.(done := done))[IconIndex(v.kind)] == (if done then 'X' else ' ')
  {
    var w := v.(done := done);
    BaseStringLayout(v, done);
    BaseStringLayout(w, done);
    match v.kind
    case Plain =>
    case ToDo =>
      OneChangeInside("[T]", BaseString(v), BaseString(w), "", 1);
      assert BaseString(v) + "" == BaseString(v) && BaseString(w) + "" == BaseString(w);
    case Deadline(due) =>
      OneChangeInside("[D]", BaseString(v), BaseString(w), " (by: " + IsoString(due) + ")", 1);
    case Event(f, t) =>
      OneChangeInside("[E]", BaseString(v), BaseString(w),
        " (from: " + Parser.FormatDateTime(f) + " to: " + Parser.FormatDateTime(t) + ")", 1);
  }

  /** Two texts that differ at one position of their middle part differ at that position alone. */
  lemma OneChangeInside(head: string, a: string, b: string, tail: string, j: nat)
    requires |a| == |b| && forall k :: 0 <= k < |a| && k != j ==> a[k] == b[k]
    ensures |head + (a + tail)| == |head + (b + tail)|
    ensures forall k :: 0 <= k < |head + (a + tail)| && k != |head| + j ==> (head + (a + tail))[k] == (head + (b + tail))[k]
  {
    forall k | 0 <= k < |head + (a + tail)| && k != |head| + j
      ensures (head + (a + tail))[k] == (head + (b + tail))[k]
    {
      if k >= |head| {
        assert (head + (a + tail))[k] == (a + tail)[k - |head|];
        assert (head + (b + tail))[k] == (b + tail)[k - |head|];
      }
    }
  }

  /** A todo is written exactly like a plain task and displayed as one after `[T]`. */
  lemma ToDoRendersAsBase(description: string, done: bool)
    ensures FileString(TaskValue(ToDo, description, done)) == FileString(TaskValue(Plain, description, done))
    ensures DisplayString(TaskValue(ToDo, description, done)) == "[T]" + DisplayString(TaskValue(Plain, description, done))
  {
  }

  /** `new ToDo(description)`: not done, holding the description as given. */
  function NewToDo(description: string): (r: TaskValue)
    ensures r.kind.ToDo? && r.description == description && !r.done
  {
    TaskValue(ToDo, description, false)
  }

  /**
   * `new Deadline(description, by)`: the due text goes through
   * `parseDateTime`, whose exception means no task is made.
   */
  function NewDeadline(description: string, byRaw: string): (r: Result<TaskValue, string>)
    ensures r.Ok? <==> Parser.ParseDateTime(byRaw).Ok?
    ensures r.Ok? ==> r.value == TaskValue(Deadline(Parser.ParseDateTime(byRaw).value), description, false)
    ensures r.Err? ==> r.error == Parser.InvalidDateTime
  {
    match Parser.ParseDateTime(byRaw)
    case Err(e) => Err(e)
    case Ok(due) => Ok(TaskValue(Deadline(due), description, false))
  }

  /**
   * `new Event(description, from, to)`: both texts go through
   * `parseDateTime`, the start first; the order of the two is not checked.
   */
  function NewEvent(description: string, fromRaw: string, toRaw: string): (r: Result<TaskValue, string>)
    ensures r.Ok? <==> Parser.ParseDateTime(fromRaw).Ok? && Parser.ParseDateTime(toRaw).Ok?
    ensures r.Ok? ==> r.value == TaskValue(Event(Parser.ParseDateTime(fromRaw).value, Parser.ParseDateTime(toRaw).value), description, false)
    ensures r.Err? ==> r.error == Parser.InvalidDateTime
  {
    match Parser.ParseDateTime(fromRaw)
    case Err(e) => Err(e)
    case Ok(f) =>
      match Parser.ParseDateTime(toRaw)
      case Err(e) => Err(e)
      case Ok(t) => Ok(TaskValue(Event(f, t), description, false))
  }

  /** The event constructor accepts a start after the end; only the parser's check rules it out. */
  lemma NewEventIgnoresOrder(description: string, fromRaw: string, toRaw: string)
    requires Parser.ParseDateTime(fromRaw).Ok? && Parser.ParseDateTime(toRaw).Ok?
    requires IsAfter(Parser.ParseDateTime(fromRaw).value, Parser.ParseDateTime(toRaw).value)
    ensures NewEvent(description, fromRaw, toRaw).Ok?
    ensures Parser.ParseEvent("event " + description + " /from " + fromRaw + " /to " + toRaw) != Ok(Parser.EventArgs(description, fromRaw, toRaw))
  {
    var r := Parser.ParseEvent("event " + description + " /from " + fromRaw + " /to " + toRaw);
    if r.Ok? {
      assert !IsAfter(Parser.ParseDateTime(r.value.fromTime).value, Parser.ParseDateTime(r.value.toTime).value);
    }
  }

  /**
   * A task object.  The description and the variant (with its parsed
   * date-times) are final; the done flag is the one field that changes.
   */
  class Task {
    const description: string
    const kind: Kind
    var done: bool

    /** The base constructor: a new task is not done. */
    constructor (description: string, kind: Kind)
      ensures this.description == description && this.kind == kind && !done
    {
      this.description := description;
      this.kind := kind;
      done := false;
    }

    /** The task's state now. */
    function Value(): (v: TaskValue)
      reads this
      ensures v.kind == kind && v.description == description && v.done == done
    {
      TaskValue(kind, description, done)
    }

    /** `markAsDone`: sets the flag, whatever it was, so a second call changes nothing. */
    method MarkAsDone()
      modifies this
      ensures done
      ensures Value() == old(Value()).(done := true)
    {
      done := true;
    }

    /** `markAsNotDone`: clears the flag, whatever it was. */
    method MarkAsNotDone()
      modifies this
      ensures !done
      ensures Value() == old(Value()).(done := false)
    {
      done := false;
    }
  }

  /** The states of a sequence of task objects, in order. */
  function Values(ts: seq<Task>): (r: seq<TaskValue>)
    reads ts
    ensures |r| == |ts|
    ensures forall i :: 0 <= i < |ts| ==> r[i] == ts[i].Value()
  {
    if ts == [] then [] else Values(ts[..|ts| - 1]) + [ts[|ts| - 1].Value()]
  }

  /** Appending a task object appends its state. */
  lemma ValuesAppend(ts: seq<Task>, t: Task)
    ensures Values(ts + [t]) == Values(ts) + [t.Value()]
  {
    assert (ts + [t])[..|ts|] == ts;
  }

  /** No task object appears twice, so changing one changes one position. */
  predicate Distinct(ts: seq<Task>) {
    forall i, j :: 0 <= i < j < |ts| ==> ts[i] != ts[j]
  }

  /** Appending an object not yet in the list keeps the list distinct. */
  lemma DistinctAppend(ts: seq<Task>, t: Task)
    requires Distinct(ts) && t !in ts
    ensures Distinct(ts + [t])
  {
  }
}
