# Peggy task tracker, modelled in Dafny

Peggy is a personal task tracker driven by short commands. The user can:
- add a todo, a deadline (`/by <when>`) or an event (`/from <start> /to <end>`);
- mark, unmark or delete a task by its number;
- list the tasks, or find tasks by keyword.

The list is kept in memory and saved to a text file after every change. The file holds one line per task, with fields separated by ` | `.

This project models the core of the later revision (package `peggy`):
- the command parser;
- the command classifier `CommandType.from`;
- the task hierarchy;
- the in-place task list;
- the save-file codec with its load and save loops;
- the session object `Peggy`, which answers one line of input at a time.

It also models the earlier revision in the default package (`Parser`, `Storage`, `ToDo`, `Deadline`, `Event`), each member beside the later member it differs from.

Modules, one per file:
- `Wrappers` (wrappers.dfy): `Option` and `Result`. Exceptions are `Err` results, and Java's `null` is `None`.
- `JavaStrings` (java_strings.dfy): the `java.lang.String` and `Integer` behaviour the core relies on. This covers `trim`, `isBlank`, splits at a literal and at `\s+`, `toLowerCase` on ASCII letters, and `Integer.parseInt` with 32-bit wrap-around of `n - 1`.
- `Temporal` (temporal.dfy): the shapes of `java.time` values and of the seven date/time patterns. It also holds their ISO and `MMM dd yyyy` renderings.
- `CommandTypes` (command_type.dfy): `CommandType`.
- `Parser` (parser.dfy): `peggy.Parser`. Its date functions and `parseTodoDesc` are also the earlier `Parser`'s, since the text is the same.
- `Tasks` (task.dfy): `Task`, `ToDo`, `Deadline` and `Event`. A `TaskValue` datatype holds a task's state. A `Task` class holds the done flag that `markAsDone`/`markAsNotDone` change in place.
- `TaskLists` (task_list.dfy): `TaskList`. It is a class over a shared backing-array object, so the list given to the constructor and the list returned by `asList` alias the list's contents.
- `Storing` (storage.dfy): `peggy.Storage`. It holds the line codec as functions and `load`/`save` as methods with loops proved against them.
- `Session` (session.dfy): `Peggy`, in two parts:
  - a specification function `Respond(state, input)` that gives a `Reply` and the new state;
  - the `Peggy` class, whose handlers change the task objects, the list and the file, and are proved against it.

  `Text` renders a reply as the framed response string. The method `Render` builds the list and find responses line by line, as the source's `StringBuilder` loops do.
- `LegacyParser`, `LegacyTasks`, `LegacyStorage` (legacy_parser.dfy, legacy_tasks.dfy, legacy_storage.dfy): the earlier revision. Each difference is proved as a lemma relating the earlier member to the later one.

The earlier `src/main/java/Parser.java` has the same text as the later one for five functions, and the same `Parser` members model both:
- `parseDate` (lines 19-25): `Parser.ParseDate`;
- `parseDateTime` (27-63): `Parser.ParseDateTime`;
- `formatDate` (65-67): `Parser.FormatDate`;
- `formatDateTime` (69-74): `Parser.FormatDateTime`;
- `parseTodoDesc` (94-100): `Parser.ParseTodoDesc`.

## Model

| member | source | states |
|---|---|---|
| CommandTypes.From | src/main/java/peggy/CommandType.java:6-26 | a null word is UNKNOWN; any other result is a command whose keywords contain the lower-cased word |
| CommandTypes.FromUnknown | src/main/java/peggy/CommandType.java:9-24 | a word is UNKNOWN exactly when its lower-cased form is no command's keyword |
| CommandTypes.FromIgnoresCase | src/main/java/peggy/CommandType.java:9 | a word and its lower-case form select the same command |
| CommandTypes.FromKeyword | src/main/java/peggy/CommandType.java:10-22 | each of bye, list, mark, unmark, delete, todo, deadline, event, find, help, hi and hello selects its own command (hi and hello both HELLO) |
| Parser.ParseDate | src/main/java/peggy/Parser.java:19-25 | succeeds exactly when the trimmed text is an ISO `yyyy-MM-dd` date, giving that date; fails with the "Invalid date" message |
| Parser.ParseDateOfIsoDateString | src/main/java/peggy/Parser.java:19-25 | the ISO text of any date with a four-digit year parses back to that date |
| Parser.ParseDateTime | src/main/java/peggy/Parser.java:35-67 | every failure carries the "Invalid date/time. Try: ..." message |
| Parser.FirstRecognisedMeaning | src/main/java/peggy/Parser.java:38-63 | the first success in the order tried is a success of one of the shapes; there is none only when every shape fails |
| Parser.ParseDateTimeAccepts | src/main/java/peggy/Parser.java:35-67 | the parse succeeds exactly when some shape accepts the trimmed text, and gives that shape's value, whatever the order of the attempts |
| Parser.ParseDateTimeOfIsoString | src/main/java/peggy/Parser.java:38-39 | the ISO text storage writes (e.g. 2019-12-02T18:00) re-parses to the same date-time |
| Parser.ParseDateTimeDateOnly | src/main/java/peggy/Parser.java:57-62 | the date-only shapes give midnight of their date |
| Parser.ParseDateTimeExample | src/main/java/peggy/Parser.java:41-43 | `2/12/2019 1800` is 2 December 2019, 18:00 |
| Parser.FormatDate | src/main/java/peggy/Parser.java:69-71 | `MMM dd yyyy` is at least eleven characters |
| Parser.FormatDateLayout | src/main/java/peggy/Parser.java:69-71 | for years 1 to 9999 the text is eleven characters: the month's English abbreviation, a space, two digits whose value is the day, a space, four digits whose value is the year |
| Parser.FormatDateInjective | src/main/java/peggy/Parser.java:69-71 | for years 1 to 9999 two dates print alike exactly when they are the same date |
| Parser.FormatDateDropsEra | src/main/java/peggy/Parser.java:69-71 | the year of era is printed without the era, so 1 January of year 0 (1 BC) and of year 1 both print as `Jan 01 0001` |
| Parser.FormatDateTime | src/main/java/peggy/Parser.java:73-78 | the rendering opens with the date's `MMM dd yyyy` |
| Parser.FormatDateTimeOmitsMidnight | src/main/java/peggy/Parser.java:73-78 | the rendering is the date alone exactly at midnight, and the date, a space and `HH:mm` otherwise |
| Parser.ParseCommandType | src/main/java/peggy/Parser.java:80-84 | the result is UNKNOWN exactly when the lower-cased first word of the trimmed input is no keyword, and otherwise a command with that keyword |
| Parser.ParseCommandTypeFirstWord | src/main/java/peggy/Parser.java:80-84 | only the first word counts; whatever follows a space is ignored |
| Parser.ParseIndex | src/main/java/peggy/Parser.java:86-103 | an accepted index lies in [0, size); every failure is one of the three messages |
| Parser.ParseIndexRange | src/main/java/peggy/Parser.java:94-102 | for a list that fits in an `int`, task number n is accepted exactly when 1 <= n <= size, as n - 1; the wrap-around of Integer.MIN_VALUE - 1 cannot slip through |
| Parser.ParseIndexNotANumber | src/main/java/peggy/Parser.java:93-97 | a word that is not an `int` is reported as invalid, whatever the size |
| Parser.ParseIndexMissing | src/main/java/peggy/Parser.java:87-90 | a command word with no number is reported as missing the number |
| Parser.ParseIndexIgnoresLaterWords | src/main/java/peggy/Parser.java:87-94 | the index is read from the second word alone |
| Parser.ParseIndexExample | src/main/java/peggy/Parser.java:86-103 | `mark 2` with five tasks is index 1 |
| Parser.ParseIndexOutOfRangeExample | src/main/java/peggy/Parser.java:99-101 | `mark 10` with three tasks is out of range |
| Parser.ParseTodoDesc | src/main/java/peggy/Parser.java:105-111 | fails with the empty-todo message exactly when there is no space or the text after the first space is blank; otherwise that text, trimmed |
| Parser.ParseTodoDescOf | src/main/java/peggy/Parser.java:105-111 | `todo <desc>` gives back the description |
| Parser.ParseFindKeyword | src/main/java/peggy/Parser.java:27-33 | fails with the empty-keyword message exactly when there is no whitespace run or the text after the first run is blank; otherwise that text, trimmed |
| Parser.ParseFindKeywordOf | src/main/java/peggy/Parser.java:27-33 | `find <keyword>` gives back the keyword |
| Parser.ParseDeadline | src/main/java/peggy/Parser.java:113-135 | the outcome for the trimmed text after the eight letters of `deadline`: without ` /by ` the format error; otherwise, on the trimmed texts around the first ` /by `, a blank description gives the empty-description message, then a blank date text the empty-date/time message, then a date text `parseDateTime` rejects the invalid date/time message; texts that pass come back unchanged |
| Parser.DeadlineOfRest | src/main/java/peggy/Parser.java:115-135 | without ` /by ` the format error; otherwise, on the trimmed texts around the first ` /by `, a blank description gives the empty-description message, then a blank date text the empty-date/time message, then a date text `parseDateTime` rejects the invalid date/time message; texts that pass come back unchanged |
| Parser.DeadlineWithoutBy | src/main/java/peggy/Parser.java:115-119 | without ` /by ` the input is the format error |
| Parser.DeadlineSplitsAtBy | src/main/java/peggy/Parser.java:115-134 | an accepted deadline is the trimmed text on either side of the first ` /by ` (the raw due text, not the parsed value) |
| Parser.ParseDeadlineOf | src/main/java/peggy/Parser.java:113-135 | `deadline <desc> /by <when>` gives back both texts when they are well formed |
| Parser.ParseDeadlineExample | src/main/java/peggy/Parser.java:113-135 | `deadline return book /by 2/12/2019 1800` gives `return book` and `2/12/2019 1800` |
| Parser.ParseDeadlineWithoutMarker | src/main/java/peggy/Parser.java:114-119 | the rest is trimmed before the split, so `deadline /by X` is the format error, not the empty-description error |
| Parser.ParseEvent | src/main/java/peggy/Parser.java:137-173 | the outcome for the trimmed text after the five letters of `event`: without ` /from ` and then ` /to ` the format error; otherwise, on the three trimmed texts, a blank description, a blank from text and a blank to text each give their own message in that order, then a time `parseDateTime` rejects gives the invalid date/time message, then a start after the end "Event time invalid"; texts that pass come back unchanged |
| Parser.EventOfRest | src/main/java/peggy/Parser.java:139-173 | without ` /from ` and then ` /to ` the format error; otherwise, on the three trimmed texts, a blank description, a blank from text and a blank to text each give their own message in that order, then a time `parseDateTime` rejects gives the invalid date/time message, then a start after the end "Event time invalid"; texts that pass come back unchanged |
| Parser.EventOfParts | src/main/java/peggy/Parser.java:147-172 | without ` /to ` the format error; otherwise the checks of the description and the trimmed texts around the first ` /to `, each blank text with its own message, then the date and order checks |
| Parser.EventOfFields | src/main/java/peggy/Parser.java:152-172 | succeeds exactly when the three texts are non-blank, both times parse and the start is not after the end; a blank description, from text and to text give their own messages in that order, an unreadable time the invalid date/time message, a start after the end "Event time invalid" |
| Parser.EventSplitsAtMarkers | src/main/java/peggy/Parser.java:140-153 | a missing ` /from `, or a missing ` /to ` after it, is the format error; an accepted event is the trimmed texts around the first of each |
| Parser.ParseEventOf | src/main/java/peggy/Parser.java:137-173 | a well-formed `event <desc> /from <a> /to <b>` fails with the ordering error exactly when a is after b, and otherwise gives the three texts; equal times are accepted |
| Tasks.StatusIcon | src/main/java/peggy/task/Task.java:38-40 | "X" exactly when done, " " exactly when not |
| Tasks.FileString | src/main/java/peggy/task/Task.java:62-64 | `toFileString` of each variant (ToDo.java:16-18, Deadline.java:29-31, Event.java:23-26): the tag, the done digit, the description and the ISO date texts joined by the pipe separator; stated by Tasks.FileStringLayout, Tasks.MarkChangesOnlyDoneDigit and Storing.SaveThenLoad |
| Tasks.DisplayString | src/main/java/peggy/task/Task.java:71-73 | `toString` of each variant (ToDo.java:21-23, Deadline.java:34-36, Event.java:29-33): the variant's tag, the base rendering, then the ISO due time or the two `formatDateTime` texts; stated by Tasks.ToDoRendersAsBase, Tasks.MarkChangesOnlyIcon and the earlier revision's AgainstLater lemmas |
| Tasks.DoneDigit | src/main/java/peggy/task/Task.java:62-64 | "1" exactly when done, "0" exactly when not |
| Tasks.FileStringLayout | src/main/java/peggy/task/Task.java:62-64 | a file line opens with the tag and the pipe separator (space, pipe, space), and its fifth character is the done digit |
| Tasks.MarkChangesOnlyDoneDigit | src/main/java/peggy/task/ToDo.java:16-18 | marking or unmarking changes a file line in the done digit alone |
| Tasks.BaseStringLayout | src/main/java/peggy/task/Task.java:71-73 | the base rendering is `[`, the icon, `] ` and the description; changing the flag changes the icon alone |
| Tasks.MarkChangesOnlyIcon | src/main/java/peggy/task/ToDo.java:21-23 | marking or unmarking changes the display text in the status icon alone |
| Tasks.ToDoRendersAsBase | src/main/java/peggy/task/ToDo.java:16-23 | a todo's file line is the base one, and its display is `[T]` and the base one |
| Tasks.NewToDo | src/main/java/peggy/task/ToDo.java:11-13 | a new todo is not done and holds exactly the given description |
| Tasks.NewDeadline | src/main/java/peggy/task/Deadline.java:15-18 | a deadline is made exactly when `parseDateTime` accepts the due text, holding the parsed value, not done |
| Tasks.NewEvent | src/main/java/peggy/task/Event.java:9-13 | an event is made exactly when both texts parse, holding both values, not done |
| Tasks.NewEventIgnoresOrder | src/main/java/peggy/task/Event.java:9-13 | the constructor accepts a start after the end, which only the parser rejects |
| Tasks.Task.constructor | src/main/java/peggy/task/Task.java:17-20 | a new task keeps the description and is not done |
| Tasks.Task.Value | src/main/java/peggy/task/Task.java:46-56 | the getters: the task's variant, description and flag |
| Tasks.Task.MarkAsDone | src/main/java/peggy/task/Task.java:24-26 | the flag is set whatever it was, so a second call changes nothing; nothing else changes |
| Tasks.Task.MarkAsNotDone | src/main/java/peggy/task/Task.java:30-32 | the flag is cleared whatever it was; nothing else changes |
| TaskLists.TaskList.constructor | src/main/java/peggy/TaskList.java:9-11 | a new list is empty, over a new backing list |
| TaskLists.TaskList.Of | src/main/java/peggy/TaskList.java:13-15 | the given backing list is shared, not copied |
| TaskLists.TaskList.Add | src/main/java/peggy/TaskList.java:17-19 | appends at the end; the earlier tasks are unchanged |
| TaskLists.TaskList.Get | src/main/java/peggy/TaskList.java:21-23 | for an index in range, the task at that position (the object itself, not a copy) |
| TaskLists.TaskList.Remove | src/main/java/peggy/TaskList.java:25-27 | returns the task at the index; the list loses it and keeps the others in order |
| TaskLists.WithoutCounts | src/main/java/peggy/TaskList.java:25-27 | removal loses exactly the removed element: the multiset of the rest plus it is the old multiset |
| TaskLists.TaskList.Size | src/main/java/peggy/TaskList.java:29-31 | the number of tasks |
| TaskLists.TaskList.IsEmpty | src/main/java/peggy/TaskList.java:33-35 | true exactly when the size is 0 |
| TaskLists.TaskList.AsList | src/main/java/peggy/TaskList.java:38-40 | the backing list itself, so changes through it are changes to the list |
| Storing.DropTrailingEmpty | src/main/java/peggy/Storage.java:48 | `split` drops exactly the empty strings at the end |
| Storing.SplitFields | src/main/java/peggy/Storage.java:48 | `split` at a pipe with any blanks around it: the pieces between separators, trailing empty pieces dropped; stated by Storing.DropTrailingEmpty and, on saved lines, Storing.SaveThenLoad |
| Storing.DecodeFields | src/main/java/peggy/Storage.java:53-81 | a `T` line is a todo; a `D` line of fewer than four fields and an `E` line of fewer than five are skipped; otherwise a `D` line throws exactly when field 3 does not parse and is else the deadline due then, and an `E` line throws exactly when field 3 or 4 does not parse and is else the event between them; the description is field 2, the task is done exactly when field 1 is "1", later fields are ignored, and an unknown tag is skipped |
| Storing.DecodeLine | src/main/java/peggy/Storage.java:43-51 | an empty or `#` line, and one of fewer than three fields, is skipped; any other line is decoded from its fields |
| Storing.DecodeLines | src/main/java/peggy/Storage.java:42-84 | the loop keeps at most one task per line, and can only throw the date-time message |
| Storing.DecodeFile | src/main/java/peggy/Storage.java:37-39 | a missing file is an empty list |
| Storing.AbortPersists | src/main/java/peggy/Storage.java:65-71 | once a line throws, the whole load throws that error |
| Storing.CollectStep | src/main/java/peggy/Storage.java:42-82 | one more line: a skipped line keeps the list, a loaded one appends its task, a throwing one ends the load |
| Storing.SkippedLineAddsNothing | src/main/java/peggy/Storage.java:44-51 | a skipped line leaves the loaded list as it was |
| Storing.AbortedLineAborts | src/main/java/peggy/Storage.java:62-72 | a throwing line after lines that load makes the whole load throw, whatever follows |
| Storing.FormatIsFileString | src/main/java/peggy/Storage.java:107-123 | `format` writes each task exactly as its own `toFileString` does |
| Storing.Format | src/main/java/peggy/Storage.java:107-123 | `format`: the `instanceof` chain, a task of no known variant written as a todo; Storing.FormatIsFileString proves it equals `toFileString` |
| Storing.Encode | src/main/java/peggy/Storage.java:92-96 | one line per task, in list order, each the task's formatted line |
| Storing.SaveThenLoad | src/main/java/peggy/Storage.java:92-123 | saving then loading tasks whose description is non-empty, has no pipe character, no line break and no surrounding blanks, and whose years lie in 0..9999, gives them back in order with variant, times, description and done flag (a plain `Task` reads back as a todo) |
| Storing.PipeInDescription | src/main/java/peggy/Storage.java:48 | a description holding the pipe separator does not survive: `a`, separator, `b` reads back as `a` |
| Storing.Storage.constructor | src/main/java/peggy/Storage.java:26-28 | a storage for the given file |
| Storing.Storage.Load | src/main/java/peggy/Storage.java:35-85 | the new list holds fresh task objects whose states are the file's tasks in order, or the load throws the first error |
| Storing.ReadTasks | src/main/java/peggy/Storage.java:41-84 | the loop over the lines, proved against `DecodeLines` |
| Storing.ReadLine | src/main/java/peggy/Storage.java:43-81 | one pass of the loop: append, skip, or throw for the whole load |
| Storing.NewTask | src/main/java/peggy/Storage.java:56-80 | a fresh task object in the line's state |
| Storing.AddNewTask | src/main/java/peggy/Storage.java:56-81 | a fresh task in the given state is appended; the earlier tasks keep their states and stay distinct objects |
| Storing.AppendTask | src/main/java/peggy/Storage.java:81 | `tasks.add(t)` appends the object and its state |
| Storing.Storage.Save | src/main/java/peggy/Storage.java:92-105 | the file becomes the encoded list when it can be written, and is unchanged otherwise |
| Storing.FormatAll | src/main/java/peggy/Storage.java:93-96 | the loop builds exactly the encoded lines |
| Session.Peggy.constructor | src/main/java/peggy/Peggy.java:19-30 | the session starts with the file's tasks, or with none when loading throws |
| Session.StartTasks | src/main/java/peggy/Peggy.java:22-29 | the loaded tasks when the load succeeds, the empty list when it throws |
| Session.Peggy.GetWelcomeMessage | src/main/java/peggy/Peggy.java:32-37 | the welcome is framed by the separator |
| Session.ExitExactlyOnBye | src/main/java/peggy/Peggy.java:39-49 | `isExitCommand` holds exactly when `getResponse` takes its `bye` branch, which answers the farewell and changes nothing |
| Session.Peggy.GetResponse | src/main/java/peggy/Peggy.java:51-103 | the response is the text of the reply `Respond` gives, and the new state is the one it gives |
| Session.Respond | src/main/java/peggy/Peggy.java:51-103 | `getResponse` as a specification: the request read from the input, then what its handler answers and changes; Session.Peggy.GetResponse is proved against it, and Session.SetDoneChangesOne, Session.RemoveDropsOne, Session.AddAppendsOne and Session.EveryResponseFramed state its properties |
| Session.Apply | src/main/java/peggy/Peggy.java:61-101 | the `switch` of `getResponse`: each request's reply and new state; Session.Peggy.Dispatch is proved against it |
| Session.IsExitCommand | src/main/java/peggy/Peggy.java:39-49 | `isExitCommand`: false for null or blank input, otherwise whether the first word is `bye`; Session.ExitExactlyOnBye ties it to the farewell reply |
| Session.Peggy.Answer | src/main/java/peggy/Peggy.java:51-103 | the reply and the new state are those of `Respond` |
| Session.Peggy.Dispatch | src/main/java/peggy/Peggy.java:61-101 | the `switch` on the command: each branch's reply and state are those of `Apply` |
| Session.Classify | src/main/java/peggy/Peggy.java:61-101 | the request the command word and its handler's parse make of the trimmed input; any index it names lies in the list |
| Session.Peggy.DispatchIndexed | src/main/java/peggy/Peggy.java:73-80 | the mark, unmark and delete branches: reply and state are those of `Apply` |
| Session.Peggy.DispatchAdding | src/main/java/peggy/Peggy.java:82-89 | the todo, deadline and event branches: reply and state are those of `Apply` |
| Session.ReadRequest | src/main/java/peggy/Peggy.java:51-101 | any index a request names lies in the list, as `parseIndex` guarantees |
| Session.TextFramed | src/main/java/peggy/Peggy.java:105-140 | every reply's text opens with the separator and a line break and closes with the separator |
| Session.EveryResponseFramed | src/main/java/peggy/Peggy.java:51-103 | every response of `getResponse` is framed |
| Session.ListEmptyExactly | src/main/java/peggy/Peggy.java:105-118 | `list` says "Your list is empty." exactly when there are no tasks |
| Session.NumberedAppend | src/main/java/peggy/Peggy.java:111-113 | the tasks are numbered 1..n in list order |
| Session.NumberedText | src/main/java/peggy/Peggy.java:109-115 | the loop builds exactly the numbered lines |
| Session.Render | src/main/java/peggy/Peggy.java:105-140 | the string built is the reply's text |
| Session.BlankInputChangesNothing | src/main/java/peggy/Peggy.java:51-59 | null or blank input gives the framed "OOPS!!! I don't know what that means :-(" and changes nothing |
| Session.UnknownCommandChangesNothing | src/main/java/peggy/Peggy.java:100-101 | a first word that is no command gives the framed hint and changes nothing |
| Session.OnlyEditingCommandsChange | src/main/java/peggy/Peggy.java:61-101 | bye, list, find, help, hello and unknown words change neither the list nor the file |
| Session.SetDoneChangesOne | src/main/java/peggy/Peggy.java:143-179 | marking or unmarking task i changes its done flag and nothing else in the list, then saves |
| Session.RemoveDropsOne | src/main/java/peggy/Peggy.java:181-198 | deleting task i removes exactly that task, keeps the others in order, and reports it with the new size |
| Session.AddAppendsOne | src/main/java/peggy/Peggy.java:200-239 | a made task goes at the end, the earlier ones unchanged; the reply shows it and the new size; the list is saved |
| Session.ParseErrorChangesNothing | src/main/java/peggy/Peggy.java:143-261 | a parse error of any command leaves list and file unchanged, since it is raised before any change |
| Session.FileFollowsList | src/main/java/peggy/Peggy.java:275-281 | after any response the file is unchanged or holds the new list, and then loading it gives the list back when the tasks can be stored |
| Session.TodoTask | src/main/java/peggy/Peggy.java:200-211 | a todo is made exactly when `parseTodoDesc` succeeds, from its description |
| Session.DeadlineTask | src/main/java/peggy/Peggy.java:213-225 | a parse error is reported as such; a made task is a deadline, not done, with the parsed description and the `parseDateTime` of the parsed `/by` text as its due time |
| Session.EventTask | src/main/java/peggy/Peggy.java:227-239 | a parse error is reported as such; a made task is an event, not done, with the parsed description, the `parseDateTime` of the parsed `/from` and `/to` texts as its times, and a start not after its end |
| Session.Peggy.SaveQuietly | src/main/java/peggy/Peggy.java:275-281 | the file holds the list when it can be written and is unchanged otherwise; the list stands either way |
| Session.Peggy.SetDone | src/main/java/peggy/Peggy.java:147-148 | the task object at the index is returned; its flag changes and no other task's state changes |
| Session.Peggy.SetDoneAndSave | src/main/java/peggy/Peggy.java:149-152 | the task's flag changes, no other task changes, and the list is saved |
| Session.Peggy.SetDoneAt | src/main/java/peggy/Peggy.java:143-179 | reply and new state are those of `SetDoneOutcome` |
| Session.Peggy.HandleMark | src/main/java/peggy/Peggy.java:143-160 | reply and new state are those of marking the parsed index |
| Session.Peggy.HandleUnmark | src/main/java/peggy/Peggy.java:162-179 | reply and new state are those of unmarking the parsed index |
| Session.Peggy.RemoveTask | src/main/java/peggy/Peggy.java:185-186 | returns the task at the index; the list loses exactly it, the others keeping their order; the file is untouched |
| Session.Peggy.RemoveAndSave | src/main/java/peggy/Peggy.java:185-188 | the task leaves the list and the list is saved |
| Session.Peggy.RemoveAt | src/main/java/peggy/Peggy.java:181-198 | reply and new state are those of `RemoveOutcome` |
| Session.Peggy.HandleDelete | src/main/java/peggy/Peggy.java:181-198 | reply and new state are those of deleting the parsed index |
| Session.Peggy.AddAndReport | src/main/java/peggy/Peggy.java:204-207 | the task is appended, the list saved, and the reply shows it and the new size |
| Session.Peggy.AddMade | src/main/java/peggy/Peggy.java:200-239 | a made task is added as `AddAndReport` does; a parse error is the reply and nothing changes |
| Session.Peggy.HandleTodo | src/main/java/peggy/Peggy.java:200-211 | reply and new state are those of adding `TodoTask(input)` |
| Session.Peggy.HandleDeadline | src/main/java/peggy/Peggy.java:213-225 | reply and new state are those of adding `DeadlineTask(input)` |
| Session.Peggy.HandleEvent | src/main/java/peggy/Peggy.java:227-239 | reply and new state are those of adding `EventTask(input)` |
| Session.Peggy.HandleFind | src/main/java/peggy/Peggy.java:241-261 | the reply is the matches of the parsed keyword, or its error; nothing changes |
| LegacyParser.ParseIndex | src/main/java/Parser.java:82-92 | an accepted index lies in [0, size) |
| LegacyParser.ParseIndexAgainstLater | src/main/java/Parser.java:82-92 | the same index and the same errors as the later revision, except that where the later one says "valid task number" a `NumberFormatException` on that word escapes |
| LegacyParser.ParseIndexRange | src/main/java/Parser.java:87-91 | for a list that fits in an `int`, task number n is accepted exactly when 1 <= n <= size, as n - 1 |
| LegacyParser.ParseIndexNotANumber | src/main/java/Parser.java:87 | a command word and a word that is not a number: the exception escapes with that word |
| LegacyParser.ParseIndexWordExample | src/main/java/Parser.java:87 | `mark two` lets the exception out with `two` |
| LegacyParser.ParseDeadline | src/main/java/Parser.java:102-121 | the outcome for the trimmed text after the eight letters of `deadline`: without ` /by ` the format error; otherwise a blank description gives the empty-description message, then a blank date text "The date of a deadline cannot be empty"; otherwise both trimmed texts come back, the date text never parsed |
| LegacyParser.DeadlineOfRest | src/main/java/Parser.java:104-121 | without ` /by ` the format error; otherwise a blank description gives the empty-description message, then a blank date text "The date of a deadline cannot be empty"; otherwise both trimmed texts come back, the date text never parsed |
| LegacyParser.DeadlineAgainstLater | src/main/java/Parser.java:102-121 | the later revision is this one plus the date check: same splits, same errors (but "date/time" for "date"), and an accepted deadline kept exactly when its due text parses |
| LegacyParser.ParseDeadlineOf | src/main/java/Parser.java:102-121 | `deadline <desc> /by <when>` gives back both texts whatever the due text says |
| LegacyParser.ParseEvent | src/main/java/Parser.java:123-152 | the outcome for the trimmed text after the five letters of `event`: without ` /from ` and then ` /to ` the format error; otherwise a blank description, a blank from text and a blank to text each give their own "a event" message in that order; otherwise the three trimmed texts come back, neither parsed nor ordered |
| LegacyParser.EventOfRest | src/main/java/Parser.java:125-152 | without ` /from ` and then ` /to ` the format error; otherwise a blank description, a blank from text and a blank to text each give their own "a event" message in that order; otherwise the three trimmed texts come back, neither parsed nor ordered |
| LegacyParser.EventOfParts | src/main/java/Parser.java:133-151 | without ` /to ` the format error; otherwise the blank checks of the description and the trimmed texts around the first ` /to `, each with its own message |
| LegacyParser.EventOfFields | src/main/java/Parser.java:141-151 | succeeds exactly when none of the three texts is blank, giving them unchanged; a blank description, from text and to text give their own messages in that order |
| LegacyParser.EventFieldsAgainstLater | src/main/java/Parser.java:141-151 | the blank checks agree with the later revision's, with "an event" for "a event" |
| LegacyParser.EventAgainstLater | src/main/java/Parser.java:123-152 | the later revision is this one plus parsing the two times and checking their order |
| LegacyParser.ParseEventOf | src/main/java/Parser.java:123-152 | `event <desc> /from <a> /to <b>` gives back the three texts even when a is after b or no date at all |
| LegacyTasks.NewToDo | src/main/java/ToDo.java:2-4 | the description goes to the base class unchanged; the task starts not done |
| LegacyTasks.NewDeadline | src/main/java/Deadline.java:6-9 | a deadline is made exactly when `parseDateTime` accepts the due text, holding the parsed value |
| LegacyTasks.NewDeadlineAgainstLater | src/main/java/Deadline.java:6-13 | both revisions make the same deadline from the same texts, and fail on the same ones |
| LegacyTasks.NewEvent | src/main/java/Event.java:5-16 | the two texts are kept exactly as given, and the getters return them |
| LegacyTasks.ToDoFileString | src/main/java/ToDo.java:7-9 | the earlier todo's `toFileString`; LegacyTasks.ToDoRenderingsAgainstLater proves it equals the later one |
| LegacyTasks.DeadlineFileString | src/main/java/Deadline.java:16-18 | the earlier deadline's `toFileString` with the ISO due time; LegacyTasks.DeadlineRenderingsAgainstLater proves it equals the later one |
| LegacyTasks.DisplayString | src/main/java/Event.java:18-20 | the earlier variants' `toString` (ToDo.java:11-13, Deadline.java:21-23): an event shows its raw texts; the AgainstLater lemmas relate it to the later rendering |
| LegacyTasks.ToDoRenderingsAgainstLater | src/main/java/ToDo.java:7-13 | a todo's `toFileString` and `toString` are the later revision's |
| LegacyTasks.DeadlineRenderingsAgainstLater | src/main/java/Deadline.java:16-23 | a deadline's `toFileString` (ISO due time) and `toString` are the later revision's |
| LegacyTasks.EventDisplayAgainstLater | src/main/java/Event.java:18-20 | an event shows its raw texts; when those texts are the `formatDateTime` texts of two times, it shows as the later event with those times |
| LegacyStorage.DecodeFields | src/main/java/Storage.java:34-62 | a `T` line is a todo; a `D` line of fewer than four fields and an `E` line of fewer than five are skipped; otherwise a `D` line throws exactly when field 3 does not parse and is else the deadline due then, and an `E` line is the event with fields 3 and 4 as its raw texts and never throws; description, done flag and ignored later fields as in the later revision; an unknown tag is skipped |
| LegacyStorage.EventTextsNotParsed | src/main/java/Storage.java:49-53 | an `E` line loads as an event with its two texts whatever they say, where the later revision throws on a text that is no date-time |
| LegacyStorage.DecodeFieldsAgainstLater | src/main/java/Storage.java:38-56 | a `T` or `D` line is skipped, loaded or thrown on exactly as in the later revision, with the same task |
| LegacyStorage.DecodeLine | src/main/java/Storage.java:23-31 | an empty or `#` line, and one of fewer than three fields, is skipped; any other line is decoded from its fields |
| LegacyStorage.DecodeLines | src/main/java/Storage.java:22-65 | the loop keeps at most one task per line and can only throw the date-time message |
| LegacyStorage.DecodeFile | src/main/java/Storage.java:18-20 | a missing file is an empty list |
| LegacyStorage.FormatIsJoin | src/main/java/Storage.java:83-99 | `format` joins the task's fields with the pipe separator; for a todo and a deadline it is their `toFileString` and the later revision's line |
| LegacyStorage.Format | src/main/java/Storage.java:83-99 | the earlier `format`: the `instanceof` chain, an event writing its two raw texts; LegacyStorage.FormatIsJoin proves it is the fields joined by the pipe separator |
| LegacyStorage.Encode | src/main/java/Storage.java:68-72 | one line per task, in order, each the task's formatted line |
| LegacyStorage.SaveThenLoad | src/main/java/Storage.java:68-99 | saving then loading tasks whose description and event texts are fields (non-empty, trimmed, no pipe character, no line break) gives them back exactly, in order |
| LegacyStorage.Storage.constructor | src/main/java/Storage.java:12-14 | a storage for the given file |
| LegacyStorage.Storage.Load | src/main/java/Storage.java:16-66 | the loaded list is that of the file, or the first error thrown |
| LegacyStorage.ReadTasks | src/main/java/Storage.java:22-65 | the loop over the lines, proved against `DecodeLines` |
| LegacyStorage.Storage.Save | src/main/java/Storage.java:68-81 | the file becomes the encoded list, replacing the old contents |
| LegacyStorage.FormatAll | src/main/java/Storage.java:69-72 | the loop builds exactly the encoded lines |

## Behaviour worth noting

- Command words are matched ignoring case, since `CommandType.from` lower-cases the word (`CommandTypes.FromIgnoresCase`).
- `deadline /by 2019-01-01` is the format error, not the empty-description error. The rest is trimmed before it is split at ` /by `, so the marker loses its leading space (`Parser.ParseDeadlineWithoutMarker`).
- In both revisions the `Event` constructor does not check the order of the two times. Only the later `parseEvent` does (`Tasks.NewEventIgnoresOrder`).

## Left out

- File system: the save file is its list of lines, or None when it does not exist. In the later revision, whether it can be written is a flag: a failed `save` is what `saveQuietly` swallows. `readAllLines` I/O errors, `createDirectories` and the earlier revision's failed writes are not modelled.
- `TaskList.find`: `handleFind` calls it, but `TaskList.java` defines no such method. The matcher is a parameter (`Finder`) of the session, so `Session.Peggy.HandleFind` states only that the reply holds its result and that nothing changes.
- Exceptions are `Err` results. The `catch` branches that cannot be reached are left out. One example is the `catch (Exception e)` of `saveQuietly` around anything but the write.
- Java's `null` is `None`, for `getResponse`, `isExitCommand` and `CommandType.from`. The other parameters are never null here.
- Dates: `java.time` is modelled for the shapes the parser accepts. This covers strict Gregorian validity and pattern years (`yyyy`, a year of era that excludes year 0) against ISO years. Left out are seconds in ISO text, years of more than four digits or with a sign, and locale data beyond English month abbreviations.
- Parsing dates: `DateTimeFormatter.ofPattern` resolves in SMART mode, which the model does not. SMART mode moves a day of 29 to 31 back to the end of a shorter month, so `31/2/2024` is 29 February 2024 in Java and an invalid date in the model. It also reads an `HHmm` of `2400` as 00:00 of the next day, which the model rejects. `Parser.ParseDate` and `Parser.ParseDateTime` therefore report an error for these inputs.
- Parser.ParseIndex, LegacyParser.ParseIndex: `Integer.parseInt` is modelled on ASCII digits only. Java also accepts other Unicode decimal digits, such as Arabic-Indic or fullwidth digits. A task number written in those digits is "not a number" in the model.
- The earlier `src/main/java/Parser.java` `parseCommandType` (lines 76-80) calls a default-package `CommandType` that is not part of this model. Only the later `peggy.CommandType` and its parser are modelled.
- `toLowerCase` is modelled on ASCII letters only. Unicode case mapping is left out.
- The response texts: the handlers return a `Reply` and `Session.Text` renders it. The text is the same string the source builds. It is built by `Session.Render` in the session object's `GetResponse`.
- `src/main/java/Task.java` (the earlier base class) is not part of this model. Its `toString` is a parameter of `LegacyTasks.DisplayString`, and a new task is taken to start not done, as `load` relies on. The earlier `Event` inherits `toFileString` from that class, so it has no file rendering here; its `Storage.format` line is modelled.
- `src/main/java/Peggy.java`, the console loop of the earlier revision, is not part of this model, and neither are the user interfaces.
- LegacyStorage.Storage.Save: does not model the `IOException` of a failed write.
- The earlier revision's tasks are values (`LegacyTasks.LegacyTask`) and its `Storage` loads and saves sequences of them. Its `Task` objects, and the `markAsDone` on a loaded task, are the value with the flag set (`LegacyStorage.Marked`).
- The final fallback of the earlier `Storage.format`, for a task of no known variant, is left out: the earlier revision's model has only the three variants. The later one keeps it (`Tasks.Plain`).
