/**
 * `Peggy`: the chatbot session.  It owns a storage and a task list, reads
 * one line of user input at a time, and answers with a response framed by
 * separator lines, changing the list and saving it where the command asks.
 *
 * The session's state is the list's task states and the save file's lines
 * (`State`); `Respond` is what one call of `getResponse` does to that state
 * and what it answers, and the class `Peggy` is the object itself, its
 * handlers proved against the functions that specify them.
 *
 * `TaskList.find` is not part of this model: the matching is a parameter
 * (`Finder`) from the states of the list and a keyword to the states of the
 * matching tasks, in list order.
 */
module Session {
  import opened Wrappers
  import opened JavaStrings
  import opened CommandTypes
  import opened Tasks
  import opened TaskLists
  import Temporal
  import Parser
  import Storing

  // ---------------------------------------------------------------- response texts

  /** The separator that opens and closes every response. */
  const LINE := "---------------------------------------------"

  // The fixed texts of the responses, each a line or lines ending in a line break.
  const Oops := "OOPS!!! I don't know what that means :-("
  const NotUnderstood := "I don't understand that. Try 'help' to see commands."
  const WelcomeBody := "Hello! I'm Peggy\nWhat can I do for you?\n"
  const FarewellBody := "Bye. Hope to see you again soon!\n"
  const HelloBody := "Hi! \U{1F642}\nType 'help' to see what I can do.\n"
  const HelpBody :=
    "Here are the commands you can use:\n  list\n  todo <description>\n"
    + "  deadline <description> /by <time>\n  event <description> /from <time> /to <time>\n"
    + "  mark <task number>\n  unmark <task number>\n  delete <task number>\n  find <keyword>\n  bye\n"
  const EmptyList := "Your list is empty.\n"
  const ListHeader := "Here are the tasks in your list:\n"
  const FindHeader := "Here are the matching tasks in your list:\n"
  const NoMatches := "(none)\n"
  const MarkedHeader := "Nice! I've marked this task as done:\n"
  const UnmarkedHeader := "OK, I've marked this task as not done yet:\n"
  const RemovedHeader := "Noted. I've removed this task:\n"
  const AddedHeader := "Got it. I've added this task:\n"

  /** A response: the separator and a line break, the body (which ends with its own line break), the separator. */
  function Framed(body: string): string {
    LINE + "\n" + body + LINE
  }

  /** `formatError`: the message on a line of its own between the separators. */
  function ErrorText(msg: string): string {
    Framed(msg + "\n")
  }

  /** One numbered line of a listing: the number, `. `, the task's `toString`. */
  function Entry(n: int, text: string): string {
    IntToString(n) + ". " + text + "\n"
  }

  /** The numbered lines of a listing of the given texts, numbered from 1 in order. */
  function Numbered(texts: seq<string>): string {
    if texts == [] then "" else Numbered(texts[..|texts| - 1]) + Entry(|texts|, texts[|texts| - 1])
  }

  /** The `toString` of each task, in list order. */
  function Displays(vs: seq<TaskValue>): (r: seq<string>)
    ensures |r| == |vs|
  {
    seq(|vs|, i requires 0 <= i < |vs| => DisplayString(vs[i]))
  }

  /** `formatList`. */
  function ListText(vs: seq<TaskValue>): string {
    Framed(if vs == [] then EmptyList else ListHeader + Numbered(Displays(vs)))
  }

  /** `handleFind`'s response for the matching tasks. */
  function FindText(matches: seq<TaskValue>): string {
    Framed(FindHeader + (if matches == [] then NoMatches else Numbered(Displays(matches))))
  }

  /** The response that shows one task under a header, as marking and unmarking answer. */
  function ShownText(header: string, v: TaskValue): string {
    Framed(header + "  " + DisplayString(v) + "\n")
  }

  /** The response that shows one task under a header and the new size, as deleting and adding answer. */
  function CountedText(header: string, v: TaskValue, size: int): string {
    Framed(header + "  " + DisplayString(v) + "\n" + "Now you have " + IntToString(size) + " tasks in the list.\n")
  }

  /** A text that opens with the separator and a line break and closes with the separator. */
  predicate IsFramed(r: string) {
    && |r| >= |LINE| + 1 + |LINE|
    && r[..|LINE| + 1] == LINE + "\n"
    && r[|r| - |LINE|..] == LINE
  }

  lemma FramedShape(body: string)
    ensures IsFramed(Framed(body))
  {
    var r := Framed(body);
    assert r == (LINE + "\n") + body + LINE;
    assert r[..|LINE| + 1] == LINE + "\n";
    assert r[|r| - |LINE|..] == LINE;
  }

  /** The listing is the empty-list message exactly when there are no tasks. */
  lemma ListEmptyExactly(vs: seq<TaskValue>)
    ensures ListText(vs) == Framed(EmptyList) <==> vs == []
  {
    if vs != [] {
      var body := ListHeader + Numbered(Displays(vs));
      assert Framed(body)[|LINE| + 1] == 'H';
      assert Framed(EmptyList)[|LINE| + 1] == 'Y';
    }
  }

  /** Each task of the list gets the line numbered by its position plus one; the lines are in list order. */
  lemma {:induction false} NumberedAppend(vs: seq<string>, v: string)
    ensures Numbered(vs + [v]) == Numbered(vs) + Entry(|vs| + 1, v)
  {
    assert (vs + [v])[..|vs|] == vs;
  }

  // ---------------------------------------------------------------- the session as a function

  /** Everything a response can depend on or change: the task states in list order and the save file. */
  datatype State = State(tasks: seq<TaskValue>, file: Option<seq<string>>)

  /**
   * A response before it is laid out: what a handler answers, which `Text`
   * turns into the string `getResponse` returns.
   */
  datatype Reply =
    | Failure(message: string)             // `formatError(message)`
    | Farewell                             // the `bye` branch
    | Listing(shown: seq<TaskValue>)       // `formatList`
    | Toggled(done: bool, task: TaskValue) // `handleMark` (done) and `handleUnmark`
    | Removed(task: TaskValue, size: int)  // `handleDelete`, with the size after it
    | Added(task: TaskValue, size: int)    // `formatAdded`, with the size after it
    | Matches(found: seq<TaskValue>)       // `handleFind`
    | Guide                                // `formatHelp`
    | Greeting                             // `formatHello`

  /** The text of a reply, as the source builds it. */
  function Text(r: Reply): string {
    match r
    case Failure(msg) => ErrorText(msg)
    case Farewell => Framed(FarewellBody)
    case Listing(vs) => ListText(vs)
    case Toggled(done, v) => ShownText(if done then MarkedHeader else UnmarkedHeader, v)
    case Removed(v, size) => CountedText(RemovedHeader, v, size)
    case Added(v, size) => CountedText(AddedHeader, v, size)
    case Matches(vs) => FindText(vs)
    case Guide => Framed(HelpBody)
    case Greeting => Framed(HelloBody)
  }

  /** A reply and the state after it. */
  datatype Outcome = Outcome(reply: Reply, state: State)

  /** `TaskList.find`: the states of the matching tasks, for the list's states and a keyword. */
  type Finder = (seq<TaskValue>, string) -> seq<TaskValue>

  /**
   * What one line of input asks for, once its command word is classified and
   * its handler has parsed the rest (each parse error is kept, as the
   * handler reports it).
   */
  datatype Request =
    | Blank
    | Exit
    | ShowList
    | SetDone(index: Result<int, string>, done: bool)
    | Remove(index: Result<int, string>)
    | Add(task: Result<TaskValue, string>)
    | Search(keyword: Result<string, string>)
    | ShowHelp
    | Greet
    | Unrecognised

  /** The indices a request names lie in the list, as `parseIndex` guarantees. */
  predicate Fits(req: Request, size: nat) {
    match req
    case SetDone(index, _) => index.Ok? ==> 0 <= index.value < size
    case Remove(index) => index.Ok? ==> 0 <= index.value < size
    case _ => true
  }

  /** `saveQuietly` after a change: the file holds the new list when it can be written, and is as it was otherwise. */
  function AfterSave(file: Option<seq<string>>, ts: seq<TaskValue>, writable: bool): Option<seq<string>> {
    if writable then Some(Storing.Encode(ts)) else file
  }

  /** The list becomes `ts`, and the session saves it. */
  function Changed(s: State, ts: seq<TaskValue>, writable: bool): State {
    State(ts, AfterSave(s.file, ts, writable))
  }

  /** The tasks a session starts with: those of the file, or none when loading it throws. */
  function StartTasks(file: Option<seq<string>>): (r: seq<TaskValue>)
    ensures Storing.DecodeFile(file).Ok? ==> r == Storing.DecodeFile(file).value
    ensures Storing.DecodeFile(file).Err? ==> r == []
  {
    match Storing.DecodeFile(file)
    case Ok(vs) => vs
    case Err(_) => []
  }

  /** The command of a trimmed, non-blank input: its first word, classified. */
  function CommandOf(trimmed: string): CommandType {
    From(Some(FirstWord(trimmed)))
  }

  /** A command word is at least as long as its keyword. */
  lemma CommandLength(trimmed: string)
    ensures CommandOf(trimmed) == CommandType.Deadline ==> |trimmed| >= |"deadline"|
    ensures CommandOf(trimmed) == CommandType.Event ==> |trimmed| >= |"event"|
  {
  }

  /** `parseTodoDesc`, then `new ToDo`. */
  function TodoTask(input: string): (r: Result<TaskValue, string>)
    ensures r.Ok? <==> Parser.ParseTodoDesc(input).Ok?
    ensures r.Ok? ==> r.value == NewToDo(Parser.ParseTodoDesc(input).value)
    ensures r.Err? ==> r.error == Parser.EmptyTodo
  {
    match Parser.ParseTodoDesc(input)
    case Err(e) => Err(e)
    case Ok(desc) => Ok(NewToDo(desc))
  }

  /** `parseDeadline`, then `new Deadline`, whose own parse of the due text may throw. */
  function DeadlineTask(input: string): (r: Result<TaskValue, string>)
    requires |input| >= |"deadline"|
    ensures r.Ok? <==> Parser.ParseDeadline(input).Ok?
    ensures Parser.ParseDeadline(input).Err? ==> r == Err(Parser.ParseDeadline(input).error)
    ensures r.Ok? ==> r.value.kind.Deadline? && !r.value.done
    ensures r.Ok? ==>
      && r.value.description == Parser.ParseDeadline(input).value.description
      && Parser.ParseDateTime(Parser.ParseDeadline(input).value.byText) == Ok(r.value.kind.due)
  {
    match Parser.ParseDeadline(input)
    case Err(e) => Err(e)
    case Ok(a) => NewDeadline(a.description, a.byText)
  }

  /** `parseEvent`, then `new Event`, whose own parses of the two times may throw. */
  function EventTask(input: string): (r: Result<TaskValue, string>)
    requires |input| >= |"event"|
    ensures r.Ok? <==> Parser.ParseEvent(input).Ok?
    ensures Parser.ParseEvent(input).Err? ==> r == Err(Parser.ParseEvent(input).error)
    ensures r.Ok? ==> r.value.kind.Event? && !r.value.done
    ensures r.Ok? ==>
      && r.value.description == Parser.ParseEvent(input).value.description
      && Parser.ParseDateTime(Parser.ParseEvent(input).value.fromTime) == Ok(r.value.kind.fromTime)
      && Parser.ParseDateTime(Parser.ParseEvent(input).value.toTime) == Ok(r.value.kind.toTime)
      && !Temporal.IsAfter(r.value.kind.fromTime, r.value.kind.toTime)
  {
    match Parser.ParseEvent(input)
    case Err(e) => Err(e)
    case Ok(a) => NewEvent(a.description, a.fromTime, a.toTime)
  }

  /** The inputs that the handler of a command can cut its keyword from: `substring` past the keyword does not throw. */
  predicate LongEnough(cmd: CommandType, trimmed: string) {
    && (cmd == CommandType.Deadline ==> |trimmed| >= |"deadline"|)
    && (cmd == CommandType.Event ==> |trimmed| >= |"event"|)
  }

  /**
   * The first half of `getResponse`: null or blank input, else the `switch`
   * on the command word, with what each handler parses from the input.
   */
  function ReadRequest(input: Option<string>, size: nat): (req: Request)
    ensures Fits(req, size)
  {
    if input.None? || IsBlank(Trim(input.value)) then Blank
    else
      var trimmed := Trim(input.value);
      CommandLength(trimmed);
      Classify(CommandOf(trimmed), trimmed, size)
  }

  /** The `switch` of `getResponse` on the command of the trimmed input, with what each handler parses. */
  function Classify(cmd: CommandType, trimmed: string, size: nat): (req: Request)
    requires LongEnough(cmd, trimmed)
    ensures Fits(req, size)
  {
    match cmd
    case Bye => Exit
    case List => ShowList
    case Mark => SetDone(Parser.ParseIndex(trimmed, size, "mark"), true)
    case Unmark => SetDone(Parser.ParseIndex(trimmed, size, "unmark"), false)
    case Delete => Remove(Parser.ParseIndex(trimmed, size, "delete"))
    case Todo => Add(TodoTask(trimmed))
    case Deadline => Add(DeadlineTask(trimmed))
    case Event => Add(EventTask(trimmed))
    case Find => Search(Parser.ParseFindKeyword(trimmed))
    case Help => ShowHelp
    case Hello => Greet
    case Unknown => Unrecognised
  }

  /** `handleMark` (done) and `handleUnmark` (not done), once the index is parsed. */
  function SetDoneOutcome(s: State, index: Result<int, string>, done: bool, writable: bool): Outcome
    requires index.Ok? ==> 0 <= index.value < |s.tasks|
  {
    if index.Err? then Outcome(Failure(index.error), s)
    else
      var v := s.tasks[index.value].(done := done);
      Outcome(Toggled(done, v), Changed(s, s.tasks[index.value := v], writable))
  }

  /** `handleDelete`, once the index is parsed. */
  function RemoveOutcome(s: State, index: Result<int, string>, writable: bool): Outcome
    requires index.Ok? ==> 0 <= index.value < |s.tasks|
  {
    if index.Err? then Outcome(Failure(index.error), s)
    else
      var ts := Without(s.tasks, index.value);
      Outcome(Removed(s.tasks[index.value], |ts|), Changed(s, ts, writable))
  }

  /** `handleTodo`, `handleDeadline` and `handleEvent`, once the task is made. */
  function AddOutcome(s: State, task: Result<TaskValue, string>, writable: bool): Outcome {
    if task.Err? then Outcome(Failure(task.error), s)
    else
      var ts := s.tasks + [task.value];
      Outcome(Added(task.value, |ts|), Changed(s, ts, writable))
  }

  /** `handleFind`, once the keyword is parsed. */
  function FindOutcome(s: State, keyword: Result<string, string>, find: Finder): Outcome {
    if keyword.Err? then Outcome(Failure(keyword.error), s)
    else Outcome(Matches(find(s.tasks, keyword.value)), s)
  }

  /** The second half of `getResponse`: what each handler answers and changes. */
  function Apply(s: State, req: Request, writable: bool, find: Finder): Outcome
    requires Fits(req, |s.tasks|)
  {
    match req
    case Blank => Outcome(Failure(Oops), s)
    case Exit => Outcome(Farewell, s)
    case ShowList => Outcome(Listing(s.tasks), s)
    case SetDone(index, done) => SetDoneOutcome(s, index, done, writable)
    case Remove(index) => RemoveOutcome(s, index, writable)
    case Add(task) => AddOutcome(s, task, writable)
    case Search(keyword) => FindOutcome(s, keyword, find)
    case ShowHelp => Outcome(Guide, s)
    case Greet => Outcome(Greeting, s)
    case Unrecognised => Outcome(Failure(NotUnderstood), s)
  }

  /** `getResponse`: Java's null input is None. */
  function Respond(s: State, input: Option<string>, writable: bool, find: Finder): Outcome {
    Apply(s, ReadRequest(input, |s.tasks|), writable, find)
  }

  /** `isExitCommand`. */
  function IsExitCommand(input: Option<string>): bool {
    input.Some? && Trim(input.value) != [] && CommandOf(Trim(input.value)) == Bye
  }

  // ---------------------------------------------------------------- properties of a response

  /** Every reply's text opens and closes with the separator. */
  lemma TextFramed(r: Reply)
    ensures IsFramed(Text(r))
  {
    match r
    case Failure(msg) => FramedShape(msg + "\n");
    case Farewell => FramedShape(FarewellBody);
    case Listing(vs) => FramedShape(if vs == [] then EmptyList else ListHeader + Numbered(Displays(vs)));
    case Toggled(done, v) => FramedShape((if done then MarkedHeader else UnmarkedHeader) + "  " + DisplayString(v) + "\n");
    case Removed(v, size) => FramedShape(RemovedHeader + "  " + DisplayString(v) + "\n" + "Now you have " + IntToString(size) + " tasks in the list.\n");
    case Added(v, size) => FramedShape(AddedHeader + "  " + DisplayString(v) + "\n" + "Now you have " + IntToString(size) + " tasks in the list.\n");
    case Matches(vs) => FramedShape(FindHeader + (if vs == [] then NoMatches else Numbered(Displays(vs))));
    case Guide => FramedShape(HelpBody);
    case Greeting => FramedShape(HelloBody);
  }

  /** Every response opens and closes with the separator. */
  lemma EveryResponseFramed(s: State, input: Option<string>, writable: bool, find: Finder)
    ensures IsFramed(Text(Respond(s, input, writable, find).reply))
  {
    TextFramed(Respond(s, input, writable, find).reply);
  }

  /** Null or blank input is answered with the framed "OOPS" message and changes nothing. */
  lemma BlankInputChangesNothing(s: State, input: Option<string>, writable: bool, find: Finder)
    requires input.None? || IsBlank(Trim(input.value))
    ensures Respond(s, input, writable, find) == Outcome(Failure(Oops), s)
  {
  }

  /** An input whose first word is no command is answered with the framed hint and changes nothing. */
  lemma UnknownCommandChangesNothing(s: State, input: string, writable: bool, find: Finder)
    requires !IsBlank(Trim(input)) && CommandOf(Trim(input)) == Unknown
    ensures Respond(s, Some(input), writable, find) == Outcome(Failure(NotUnderstood), s)
  {
  }

  /**
   * `isExitCommand` holds exactly when `getResponse` takes its `bye` branch,
   * which answers the farewell and changes nothing.
   */
  lemma ExitExactlyOnBye(s: State, input: Option<string>, writable: bool, find: Finder)
    ensures IsExitCommand(input) <==> ReadRequest(input, |s.tasks|) == Exit
    ensures IsExitCommand(input) ==> Respond(s, input, writable, find) == Outcome(Farewell, s)
  {
    if IsExitCommand(input) {
      var t := Trim(input.value);
      var w := FirstWord(t);
      assert ToLower(w) == "bye";
      assert LowerChar(w[0]) == 'b';
      assert !IsWhitespace(t[0]);
    }
  }

  /** Marking or unmarking task i changes that task's done flag and nothing else in the list, then saves. */
  lemma SetDoneChangesOne(s: State, i: int, done: bool, writable: bool, find: Finder)
    requires 0 <= i < |s.tasks|
    ensures var o := Apply(s, SetDone(Ok(i), done), writable, find);
      && |o.state.tasks| == |s.tasks|
      && o.state.tasks[i] == s.tasks[i].(done := done)
      && (forall j :: 0 <= j < |s.tasks| && j != i ==> o.state.tasks[j] == s.tasks[j])
      && o.state.file == AfterSave(s.file, o.state.tasks, writable)
  {
  }

  /** Deleting task i removes exactly that task, keeps the others in order, reports the new size, then saves. */
  lemma RemoveDropsOne(s: State, i: int, writable: bool, find: Finder)
    requires 0 <= i < |s.tasks|
    ensures var o := Apply(s, Remove(Ok(i)), writable, find);
      && |o.state.tasks| == |s.tasks| - 1
      && multiset(o.state.tasks) + multiset{s.tasks[i]} == multiset(s.tasks)
      && (forall j :: 0 <= j < i ==> o.state.tasks[j] == s.tasks[j])
      && (forall j :: i <= j < |o.state.tasks| ==> o.state.tasks[j] == s.tasks[j + 1])
      && o.reply == Removed(s.tasks[i], |s.tasks| - 1)
  {
    WithoutCounts(s.tasks, i);
  }

  /** A task that is made goes at the end of the list, the earlier tasks unchanged, and the list is saved. */
  lemma AddAppendsOne(s: State, v: TaskValue, writable: bool, find: Finder)
    ensures var o := Apply(s, Add(Ok(v)), writable, find);
      && o.state.tasks == s.tasks + [v]
      && o.state.file == AfterSave(s.file, s.tasks + [v], writable)
      && o.reply == Added(v, |s.tasks| + 1)
  {
  }

  /** A parse error, for any command, is answered with its message and changes nothing. */
  lemma ParseErrorChangesNothing(s: State, req: Request, writable: bool, find: Finder)
    requires Fits(req, |s.tasks|)
    requires || (req.SetDone? && req.index.Err?) || (req.Remove? && req.index.Err?)
             || (req.Add? && req.task.Err?) || (req.Search? && req.keyword.Err?)
    ensures Apply(s, req, writable, find).state == s
  {
  }

  /** Only `mark`, `unmark`, `delete`, `todo`, `deadline` and `event` can change the list or the file. */
  lemma OnlyEditingCommandsChange(s: State, input: Option<string>, writable: bool, find: Finder)
    requires input.Some? && !IsBlank(Trim(input.value))
    requires CommandOf(Trim(input.value)) in {Bye, List, Find, Help, Hello, Unknown}
    ensures Respond(s, input, writable, find).state == s
  {
  }

  /**
   * After any response the save file is unchanged, or it holds the new list;
   * so, when the tasks can be stored, loading the file gives back the list
   * as the session holds it (plain tasks read back as todos).
   */
  lemma FileFollowsList(s: State, req: Request, writable: bool, find: Finder)
    requires Fits(req, |s.tasks|)
    ensures var o := Apply(s, req, writable, find);
      o.state.file == s.file || o.state.file == Some(Storing.Encode(o.state.tasks))
    ensures var o := Apply(s, req, writable, find);
      o.state.file != s.file && (forall i :: 0 <= i < |o.state.tasks| ==> Storing.Storable(o.state.tasks[i])) ==>
      Storing.DecodeFile(o.state.file) == Ok(Storing.StoredAll(o.state.tasks))
  {
    var o := Apply(s, req, writable, find);
    if o.state.file != s.file && forall i :: 0 <= i < |o.state.tasks| ==> Storing.Storable(o.state.tasks[i]) {
      Storing.SaveThenLoad(o.state.tasks);
    }
  }

  // ---------------------------------------------------------------- the session object

  /** The numbered lines of a listing, built line by line as `formatList` and `handleFind` do. */
  method NumberedText(vs: seq<string>) returns (text: string)
    ensures text == Numbered(vs)
  {
    text := "";
    var i := 0;
    while i < |vs|
      invariant 0 <= i <= |vs|
      invariant text == Numbered(vs[..i])
    {
      NumberedAppend(vs[..i], vs[i]);
      assert vs[..i + 1] == vs[..i] + [vs[i]];
      text := text + Entry(i + 1, vs[i]);
      i := i + 1;
    }
    assert vs[..i] == vs;
  }

  /**
   * The string a reply stands for, built as the source builds it: the
   * listings of `formatList` and `handleFind` line by line.
   */
  method Render(reply: Reply) returns (response: string)
    ensures response == Text(reply)
  {
    match reply {
      case Listing(vs) =>
        if vs == [] {
          response := Framed(EmptyList);
        } else {
          var lines := NumberedText(Displays(vs));
          response := Framed(ListHeader + lines);
        }
      case Matches(vs) =>
        var text := NoMatches;
        if vs != [] {
          text := NumberedText(Displays(vs));
        }
        response := Framed(FindHeader + text);
      case _ =>
        response := Text(reply);
    }
  }

  class Peggy {
    const storage: Storing.Storage
    const tasks: TaskList

    /** The list holds each task object once, as loading and adding make it. */
    ghost predicate Valid()
      reads tasks, tasks.tasks
    {
      Distinct(tasks.tasks.elems)
    }

    /** The session's state now. */
    ghost function Model(): State
      reads tasks, tasks.tasks, tasks.tasks.elems, storage
    {
      State(Values(tasks.tasks.elems), storage.file)
    }

    /** `new Peggy(filePath)`: the file's tasks, or an empty list when loading throws. */
    constructor (file: Option<seq<string>>, writable: bool)
      ensures Valid() && storage.writable == writable
      ensures Model() == State(StartTasks(file), file)
    {
      var st := new Storing.Storage(file, writable);
      var r := st.Load();
      var loaded: TaskList;
      if r.Ok? {
        loaded := new TaskList.Of(r.value);
      } else {
        loaded := new TaskList();
      }
      storage := st;
      tasks := loaded;
    }

    /** `getWelcomeMessage`. */
    function GetWelcomeMessage(): (r: string)
      ensures IsFramed(r)
    {
      FramedShape(WelcomeBody);
      Framed(WelcomeBody)
    }

    /** `saveQuietly`: an unwritable file leaves the file as it was, and the change in memory stands. */
    method SaveQuietly()
      modifies storage
      ensures Model() == Changed(old(Model()), old(Model()).tasks, storage.writable)
    {
      ghost var values := Values(tasks.tasks.elems);
      var saved := storage.Save(tasks.AsList());
      assert Values(tasks.tasks.elems) == values;
    }

    /** The done flag of the task at `i` becomes `done`; no other task changes. */
    method SetDone(i: nat, done: bool) returns (t: Task)
      requires Valid() && i < |tasks.tasks.elems|
      modifies tasks.tasks.elems[i]
      ensures t == tasks.tasks.elems[i]
      ensures Values(tasks.tasks.elems) == old(Values(tasks.tasks.elems))[i := old(tasks.tasks.elems[i].Value()).(done := done)]
    {
      ghost var before := Values(tasks.tasks.elems);
      t := tasks.Get(i);
      if done {
        t.MarkAsDone();
      } else {
        t.MarkAsNotDone();
      }
      ghost var after := Values(tasks.tasks.elems);
      forall j | 0 <= j < |after| && j != i
        ensures after[j] == before[j]
      {
        assert tasks.tasks.elems[j] != t;
      }
      assert after == before[i := before[i].(done := done)];
    }

    /** The done flag of the task at `i` becomes `done` and the list is saved; `v` is the task's new state. */
    method SetDoneAndSave(i: nat, done: bool) returns (v: TaskValue)
      requires Valid() && i < |tasks.tasks.elems|
      modifies tasks.tasks.elems, storage
      ensures Valid() && tasks.tasks.elems == old(tasks.tasks.elems)
      ensures v == old(Model()).tasks[i].(done := done)
      ensures Model() == Changed(old(Model()), old(Model()).tasks[i := v], storage.writable)
    {
      ghost var s0 := Model();
      var t := SetDone(i, done);
      ghost var ts := Values(tasks.tasks.elems);
      assert ts == s0.tasks[i := s0.tasks[i].(done := done)];
      v := t.Value();
      assert v == ts[i];
      SaveQuietly();
    }

    /** `handleMark` and `handleUnmark` once the index is parsed: set the flag, save, show the task. */
    method SetDoneAt(index: Result<int, string>, done: bool) returns (reply: Reply)
      requires Valid() && (index.Ok? ==> 0 <= index.value < |tasks.tasks.elems|)
      modifies tasks.tasks.elems, storage
      ensures Valid() && tasks.tasks.elems == old(tasks.tasks.elems)
      ensures Outcome(reply, Model()) == SetDoneOutcome(old(Model()), index, done, storage.writable)
    {
      if index.Err? {
        return Failure(index.error);
      }
      var v := SetDoneAndSave(index.value, done);
      reply := Toggled(done, v);
    }

    /** `handleMark`. */
    method HandleMark(input: string) returns (reply: Reply)
      requires Valid()
      modifies tasks.tasks.elems, storage
      ensures Valid() && tasks.tasks.elems == old(tasks.tasks.elems)
      ensures Outcome(reply, Model()) == SetDoneOutcome(old(Model()), Parser.ParseIndex(input, |old(Model()).tasks|, "mark"), true, storage.writable)
    {
      var index := Parser.ParseIndex(input, tasks.Size(), "mark");
      reply := SetDoneAt(index, true);
    }

    /** `handleUnmark`. */
    method HandleUnmark(input: string) returns (reply: Reply)
      requires Valid()
      modifies tasks.tasks.elems, storage
      ensures Valid() && tasks.tasks.elems == old(tasks.tasks.elems)
      ensures Outcome(reply, Model()) == SetDoneOutcome(old(Model()), Parser.ParseIndex(input, |old(Model()).tasks|, "unmark"), false, storage.writable)
    {
      var index := Parser.ParseIndex(input, tasks.Size(), "unmark");
      reply := SetDoneAt(index, false);
    }

    /** The task at `i` leaves the list; `v` is its state. */
    method RemoveTask(i: nat) returns (v: TaskValue)
      requires Valid() && i < |tasks.tasks.elems|
      modifies tasks.tasks
      ensures Valid()
      ensures v == old(Model()).tasks[i]
      ensures Model() == old(Model()).(tasks := Without(old(Model()).tasks, i))
    {
      ghost var before := tasks.tasks.elems;
      ghost var values := Values(before);
      WithoutDistinct(before, i);
      var t := tasks.Remove(i);
      assert Values(before) == values;
      ValuesWithout(before, i);
      v := t.Value();
    }

    /** The task at `i` leaves the list and the list is saved; `v` is the removed task's state. */
    method RemoveAndSave(i: nat) returns (v: TaskValue)
      requires Valid() && i < |tasks.tasks.elems|
      modifies tasks.tasks, storage
      ensures Valid()
      ensures v == old(Model()).tasks[i]
      ensures Model() == Changed(old(Model()), Without(old(Model()).tasks, i), storage.writable)
    {
      v := RemoveTask(i);
      SaveQuietly();
    }

    /** `handleDelete` once the index is parsed: remove the task, save, show it and the new size. */
    method RemoveAt(index: Result<int, string>) returns (reply: Reply)
      requires Valid() && (index.Ok? ==> 0 <= index.value < |tasks.tasks.elems|)
      modifies tasks.tasks, storage
      ensures Valid()
      ensures Outcome(reply, Model()) == RemoveOutcome(old(Model()), index, storage.writable)
    {
      if index.Err? {
        return Failure(index.error);
      }
      var v := RemoveAndSave(index.value);
      reply := Removed(v, tasks.Size());
    }

    /** `handleDelete`. */
    method HandleDelete(input: string) returns (reply: Reply)
      requires Valid()
      modifies tasks.tasks, storage
      ensures Valid()
      ensures Outcome(reply, Model()) == RemoveOutcome(old(Model()), Parser.ParseIndex(input, |old(Model()).tasks|, "delete"), storage.writable)
    {
      var index := Parser.ParseIndex(input, tasks.Size(), "delete");
      reply := RemoveAt(index);
    }

    /** `tasks.add(t)`, `saveQuietly()` and `formatAdded(t)`, the common end of the three adding handlers. */
    method AddAndReport(t: Task) returns (reply: Reply)
      requires Valid() && t !in tasks.tasks.elems
      modifies tasks.tasks, storage
      ensures Valid()
      ensures Outcome(reply, Model()) == AddOutcome(old(Model()), Ok(t.Value()), storage.writable)
    {
      ghost var values := Values(tasks.tasks.elems) + [t.Value()];
      ValuesAppend(tasks.tasks.elems, t);
      DistinctAppend(tasks.tasks.elems, t);
      tasks.Add(t);
      assert Values(tasks.tasks.elems) == values;
      SaveQuietly();
      assert Values(tasks.tasks.elems) == values;
      reply := Added(t.Value(), tasks.Size());
    }

    /** The task a handler made, or the error it reports: a new task object goes at the end of the list. */
    method AddMade(made: Result<TaskValue, string>) returns (reply: Reply)
      requires Valid() && (made.Ok? ==> !made.value.done)
      modifies tasks.tasks, storage
      ensures Valid()
      ensures Outcome(reply, Model()) == AddOutcome(old(Model()), made, storage.writable)
    {
      if made.Err? {
        return Failure(made.error);
      }
      ghost var s0 := Model();
      var t := new Task(made.value.description, made.value.kind);
      assert Model() == s0;
      reply := AddAndReport(t);
    }

    /** `handleTodo`. */
    method HandleTodo(input: string) returns (reply: Reply)
      requires Valid()
      modifies tasks.tasks, storage
      ensures Valid()
      ensures Outcome(reply, Model()) == AddOutcome(old(Model()), TodoTask(input), storage.writable)
    {
      var desc := Parser.ParseTodoDesc(input);
      var made := if desc.Err? then Err(desc.error) else Ok(NewToDo(desc.value));
      assert made == TodoTask(input);
      reply := AddMade(made);
    }

    /** `handleDeadline`: the task's own parse of its due text may fail as well. */
    method HandleDeadline(input: string) returns (reply: Reply)
      requires Valid() && |input| >= |"deadline"|
      modifies tasks.tasks, storage
      ensures Valid()
      ensures Outcome(reply, Model()) == AddOutcome(old(Model()), DeadlineTask(input), storage.writable)
    {
      var dl := Parser.ParseDeadline(input);
      var made := if dl.Err? then Err(dl.error) else NewDeadline(dl.value.description, dl.value.byText);
      assert made == DeadlineTask(input);
      reply := AddMade(made);
    }

    /** `handleEvent`: the task's own parses of its times may fail as well. */
    method HandleEvent(input: string) returns (reply: Reply)
      requires Valid() && |input| >= |"event"|
      modifies tasks.tasks, storage
      ensures Valid()
      ensures Outcome(reply, Model()) == AddOutcome(old(Model()), EventTask(input), storage.writable)
    {
      var ev := Parser.ParseEvent(input);
      var made := if ev.Err? then Err(ev.error) else NewEvent(ev.value.description, ev.value.fromTime, ev.value.toTime);
      assert made == EventTask(input);
      reply := AddMade(made);
    }

    /** `handleFind`: nothing changes. */
    method HandleFind(input: string, find: Finder) returns (reply: Reply)
      ensures reply == FindOutcome(Model(), Parser.ParseFindKeyword(input), find).reply
    {
      var keyword := Parser.ParseFindKeyword(input);
      if keyword.Err? {
        return Failure(keyword.error);
      }
      reply := Matches(find(Values(tasks.tasks.elems), keyword.value));
    }

    /** `getResponse`: one line of input, its response, and the state after it. */
    method GetResponse(input: Option<string>, find: Finder) returns (response: string)
      requires Valid()
      modifies tasks.tasks, tasks.tasks.elems, storage
      ensures Valid()
      ensures var o := Respond(old(Model()), input, storage.writable, find);
        response == Text(o.reply) && Model() == o.state
    {
      var reply := Answer(input, find);
      response := Render(reply);
    }

    /** `getResponse` up to the text: the reply to one line of input, and the state after it. */
    method Answer(input: Option<string>, find: Finder) returns (reply: Reply)
      requires Valid()
      modifies tasks.tasks, tasks.tasks.elems, storage
      ensures Valid()
      ensures Outcome(reply, Model()) == Respond(old(Model()), input, storage.writable, find)
    {
      if input.None? {
        return Failure(Oops);
      }
      var trimmed := Trim(input.value);
      if IsBlank(trimmed) {
        return Failure(Oops);
      }
      var cmd := From(Some(FirstWord(trimmed)));
      CommandLength(trimmed);
      reply := Dispatch(cmd, trimmed, find);
    }

    /** The `switch` of `getResponse` on the command of a trimmed input. */
    method Dispatch(cmd: CommandType, trimmed: string, find: Finder) returns (reply: Reply)
      requires Valid() && LongEnough(cmd, trimmed)
      modifies tasks.tasks, tasks.tasks.elems, storage
      ensures Valid()
      ensures Outcome(reply, Model()) == Apply(old(Model()), Classify(cmd, trimmed, |old(Model()).tasks|), storage.writable, find)
    {
      ghost var s0 := Model();
      ghost var req := Classify(cmd, trimmed, |s0.tasks|);
      match cmd {
        case Bye =>
          reply := Farewell;
          assert Apply(s0, req, storage.writable, find) == Outcome(reply, s0);
        case List =>
          reply := Listing(Values(tasks.tasks.elems));
          assert Apply(s0, req, storage.writable, find) == Outcome(reply, s0);
        case Mark => reply := DispatchIndexed(cmd, trimmed, find);
        case Unmark => reply := DispatchIndexed(cmd, trimmed, find);
        case Delete => reply := DispatchIndexed(cmd, trimmed, find);
        case Todo => reply := DispatchAdding(cmd, trimmed, find);
        case Deadline => reply := DispatchAdding(cmd, trimmed, find);
        case Event => reply := DispatchAdding(cmd, trimmed, find);
        case Find =>
          assert req == Search(Parser.ParseFindKeyword(trimmed));
          reply := HandleFind(trimmed, find);
          assert Apply(s0, req, storage.writable, find) == FindOutcome(s0, req.keyword, find);
        case Help =>
          reply := Guide;
          assert Apply(s0, req, storage.writable, find) == Outcome(reply, s0);
        case Hello =>
          reply := Greeting;
          assert Apply(s0, req, storage.writable, find) == Outcome(reply, s0);
        case Unknown =>
          reply := Failure(NotUnderstood);
          assert Apply(s0, req, storage.writable, find) == Outcome(reply, s0);
      }
    }

    /** The branches of the `switch` that read a task number. */
    method DispatchIndexed(cmd: CommandType, trimmed: string, find: Finder) returns (reply: Reply)
      requires Valid() && cmd in {Mark, Unmark, Delete}
      modifies tasks.tasks, tasks.tasks.elems, storage
      ensures Valid()
      ensures Outcome(reply, Model()) == Apply(old(Model()), Classify(cmd, trimmed, |old(Model()).tasks|), storage.writable, find)
    {
      ghost var s0 := Model();
      ghost var req := Classify(cmd, trimmed, |s0.tasks|);
      match cmd {
        case Mark =>
          assert req == Request.SetDone(Parser.ParseIndex(trimmed, |s0.tasks|, "mark"), true);
          reply := HandleMark(trimmed);
          assert Apply(s0, req, storage.writable, find) == SetDoneOutcome(s0, req.index, true, storage.writable);
        case Unmark =>
          assert req == Request.SetDone(Parser.ParseIndex(trimmed, |s0.tasks|, "unmark"), false);
          reply := HandleUnmark(trimmed);
          assert Apply(s0, req, storage.writable, find) == SetDoneOutcome(s0, req.index, false, storage.writable);
        case Delete =>
          assert req == Remove(Parser.ParseIndex(trimmed, |s0.tasks|, "delete"));
          reply := HandleDelete(trimmed);
          assert Apply(s0, req, storage.writable, find) == RemoveOutcome(s0, req.index, storage.writable);
      }
    }

    /** The branches of the `switch` that make a task. */
    method DispatchAdding(cmd: CommandType, trimmed: string, find: Finder) returns (reply: Reply)
      requires Valid() && cmd in {Todo, CommandType.Deadline, CommandType.Event} && LongEnough(cmd, trimmed)
      modifies tasks.tasks, tasks.tasks.elems, storage
      ensures Valid()
      ensures Outcome(reply, Model()) == Apply(old(Model()), Classify(cmd, trimmed, |old(Model()).tasks|), storage.writable, find)
    {
      ghost var s0 := Model();
      ghost var req := Classify(cmd, trimmed, |s0.tasks|);
      match cmd {
        case Todo =>
          assert req == Add(TodoTask(trimmed));
          reply := HandleTodo(trimmed);
        case Deadline =>
          assert req == Add(DeadlineTask(trimmed));
          reply := HandleDeadline(trimmed);
        case Event =>
          assert req == Add(EventTask(trimmed));
          reply := HandleEvent(trimmed);
      }
      assert Apply(s0, req, storage.writable, find) == AddOutcome(s0, req.task, storage.writable);
    }
  }
}
