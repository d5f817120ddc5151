/**
 * The task variants of the earlier revision (the default-package `ToDo`,
 * `Deadline` and `Event`).  They extend a base `Task` holding a description
 * and a done flag; that class is not part of this model, so its `toString`
 * is a parameter of the renderings here (`base`), and a new task is taken to
 * start not done, which is what `Storage.load` relies on when it marks the
 * loaded ones.
 */
module LegacyTasks {
  import opened Wrappers
  import opened Temporal
  import Parser
  import Tasks
  import Storing

  /** The variant and its final fields: a deadline's parsed due time, an event's two texts as given. */
  datatype Kind = ToDo | Deadline(due: LocalDateTime) | Event(fromTime: string, toTime: string)

  /** A task: its variant, with the description and done flag of the base class. */
  datatype LegacyTask = LegacyTask(kind: Kind, description: string, done: bool)

  /** `new ToDo(description)`: the description goes to the base class unchanged. */
  function NewToDo(description: string): (r: LegacyTask)
    ensures r.kind.ToDo? && r.description == description && !r.done
  {
    LegacyTask(ToDo, description, false)
  }

  /**
   * `new Deadline(description, by)`: the due text goes through
   * `parseDateTime`, whose exception means no task is made.
   */
  function NewDeadline(description: string, byRaw: string): (r: Result<LegacyTask, string>)
    ensures r.Ok? <==> Parser.ParseDateTime(byRaw).Ok?
    ensures r.Ok? ==> r.value == LegacyTask(Deadline(Parser.ParseDateTime(byRaw).value), description, false)
    ensures r.Err? ==> r.error == Parser.InvalidDateTime
  {
    match Parser.ParseDateTime(byRaw)
    case Err(e) => Err(e)
    case Ok(due) => Ok(LegacyTask(Deadline(due), description, false))
  }

  /**
   * `new Event(description, fromTime, toTime)`: the two texts are kept as
   * given, with no parsing, no emptiness check and no ordering check; the
   * getters give them back unchanged.
   */
  function NewEvent(description: string, fromRaw: string, toRaw: string): (r: LegacyTask)
    ensures r.kind.Event? && r.kind.fromTime == fromRaw && r.kind.toTime == toRaw
    ensures r.description == description && !r.done
  {
    LegacyTask(Event(fromRaw, toRaw), description, false)
  }

  /** `toFileString` of a todo: `T | d | desc`, d being 1 when done and 0 otherwise. */
  function ToDoFileString(t: LegacyTask): string
    requires t.kind.ToDo?
  {
    "T | " + (Tasks.DoneDigit(t.done) + (" | " + t.description))
  }

  /** `toFileString` of a deadline: `D | d | desc | by`, the due time in ISO form. */
  function DeadlineFileString(t: LegacyTask): string
    requires t.kind.Deadline?
  {
    "D | " + (Tasks.DoneDigit(t.done) + (" | " + (t.description + (" | " + IsoString(t.kind.due)))))
  }

  /**
   * `toString` of each variant, after the base class's `toString` (`base`):
   * `[T]base`, `[D]base (by: <ISO due>)`, `[E]base (from: <from> to: <to>)`.
   */
  function DisplayString(t: LegacyTask, base: string): string {
    match t.kind
    case ToDo => "[T]" + base
    case Deadline(due) => "[D]" + (base + (" (by: " + IsoString(due) + ")"))
    case Event(f, to) => "[E]" + (base + (" (from: " + f + " to: " + to + ")"))
  }

  /** The same task in the later revision's terms, for the variants whose fields agree. */
  function Later(t: LegacyTask): (v: Tasks.TaskValue)
    requires !t.kind.Event?
    ensures v.description == t.description && v.done == t.done
  {
    match t.kind
    case ToDo => Tasks.TaskValue(Tasks.ToDo, t.description, t.done)
    case Deadline(due) => Tasks.TaskValue(Tasks.Deadline(due), t.description, t.done)
  }

  /** Both revisions make the same deadline of the same texts, and fail on the same ones. */
  lemma NewDeadlineAgainstLater(description: string, byRaw: string)
    ensures NewDeadline(description, byRaw).Ok? <==> Tasks.NewDeadline(description, byRaw).Ok?
    ensures NewDeadline(description, byRaw).Ok? ==>
      Later(NewDeadline(description, byRaw).value) == Tasks.NewDeadline(description, byRaw).value
  {
  }

  /** A todo is written to the file and shown exactly as in the later revision, given the later base rendering `[X] desc`. */
  lemma ToDoRenderingsAgainstLater(t: LegacyTask)
    requires t.kind.ToDo?
    ensures ToDoFileString(t) == Tasks.FileString(Later(t))
    ensures DisplayString(t, Tasks.BaseString(Later(t))) == Tasks.DisplayString(Later(t))
  {
    var d := Tasks.DoneDigit(t.done);
    assert Tasks.Fields(Later(t)) == ["T", d, t.description];
    Storing.ToDoLineShape("T", d, t.description);
  }

  /** A deadline is written to the file (due time in ISO form) and shown exactly as in the later revision. */
  lemma DeadlineRenderingsAgainstLater(t: LegacyTask)
    requires t.kind.Deadline?
    ensures DeadlineFileString(t) == Tasks.FileString(Later(t))
    ensures DisplayString(t, Tasks.BaseString(Later(t))) == Tasks.DisplayString(Later(t))
  {
    var d := Tasks.DoneDigit(t.done);
    assert Tasks.Fields(Later(t)) == ["D", d, t.description, IsoString(t.kind.due)];
    Storing.DeadlineLineShape(d, t.description, IsoString(t.kind.due));
  }

  /**
   * An event shows the texts it was given, so an event given what
   * `formatDateTime` makes of the later one's times reads as the later
   * revision's event with those times.
   */
  lemma EventDisplayAgainstLater(description: string, done: bool, f: LocalDateTime, to: LocalDateTime)
    ensures
      var v := Tasks.TaskValue(Tasks.Event(f, to), description, done);
      DisplayString(LegacyTask(Event(Parser.FormatDateTime(f), Parser.FormatDateTime(to)), description, done), Tasks.BaseString(v))
        == Tasks.DisplayString(v)
  {
  }
}
