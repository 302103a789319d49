# TaskManagement core in Dafny

This is a model of a small Kanban-style task manager. It has two parts: an Express/Mongoose server and a React client. The model covers the rules they both follow:

- **Server** (`server/index.js`): the todo store and its four handlers.
  - Create requires a title, defaults the status to "To Do" and checks it against the schema's three-value enum.
  - Update builds a patch from the fields that are present, and answers 404 for an unknown id.
  - Delete answers 204 for any well-formed id, whether or not it exists.
  - Get-all lists everything.
- **Board** (`KanbanBoard.jsx`):
  - the case-insensitive search;
  - the split into four status lists;
  - the match flags and the column-visibility rule;
  - the card defaulting.
- **Column** (`KanbanColumn.jsx`): the column title decides the status every card gets.
- **Card** (`TaskCard.jsx`):
  - the priority label;
  - the deadline text;
  - the edit form;
  - the bodies of the status-change and save requests.
- **Dashboard** (`TaskDashboard.jsx`): the statistics loop.
- **Calendar** (`Calendar.jsx`):
  - month lengths;
  - the previous-month wrap;
  - the 42-cell grid;
  - navigation;
  - the `year-MM-DD` string a click produces.
- **Add-task form** (`ToDoTask.jsx`): the normalisation done before a create request.

Modules:

- `Js` (js.dfy): the scalar JavaScript values (undefined, null, booleans, strings, integers) and their truthiness, `||`, number-to-string conversion, and Mongoose casting to String.
- `Text` (text.dfy): `toLowerCase`, `includes` and `trim`.
- `Wrappers` (wrappers.dfy): `Option`.
- `TaskStore` (task_store.dfy): the server.
  - The store is a class `Store` with a map `docs` from id to document and the insertion order `order`.
  - Each handler is a method that returns a `Reply`, and the `Reply` carries its HTTP status code.
- `ClientTask` (client_task.dfy): the task records the client receives.
- `KanbanBoard`, `KanbanColumn`, `TaskCard`, `TaskDashboard`, `Calendar`, `ToDoTask`: one module per component.

What the host environment supplies is modelled as parameters:

- fresh document ids;
- the current time;
- how `new Date(...)` parses a deadline;
- whether an ISO-shaped string is a valid date;
- `toLocaleDateString`;
- the weekday of the first of the month.

The client also calls a `/todos/check-timeout` route, shows a "Timeout" column and counts "Timeout" tasks. However, `server/index.js` defines no such route, and its status enum has no "Timeout". The model follows the server code: a "Timeout" status is rejected on create (`TaskStore.TimeoutIsRejectedOnCreate`). The client-side rules for "Timeout" are modelled as written.

## Model

| member | source | states |
|---|---|---|
| Js.Or | client/src/Components/ToDoTask.jsx:53-54 | `a \|\| b` is exactly `a` when `a` is truthy and exactly `b` otherwise; the result is truthy iff either operand is |
| Js.CastString | server/index.js:24-34 | a String path stores a number as its decimal text (what JavaScript writes for an integer of magnitude below 10^21) and a boolean as "true" or "false", keeps strings and `null`, and keeps truthiness; only `undefined` stays unset |
| Js.NatToString | client/src/Components/Calendar.jsx:47 | the decimal text of a number is non-empty, all digits, reads back as the number, and starts with '0' only for 0 |
| Js.NatToStringLength | client/src/Components/Calendar.jsx:47 | the decimal text has k digits iff the number lies in [10^(k-1), 10^k) (or below 10 for k = 1) |
| Js.FourDigitYears | client/src/Components/Calendar.jsx:41-47 | a year is written with four characters iff it is between 1000 and 9999 |
| Text.LowerChar | client/src/Components/KanbanBoard.jsx:68-69 | an upper-case letter A-Z becomes the lower-case letter at the same place of the alphabet; every other character is kept |
| Text.Lower | client/src/Components/KanbanBoard.jsx:68-69 | lowercasing keeps the length and lowers each character |
| Text.Contains | client/src/Components/KanbanBoard.jsx:68-69 | `includes` of the empty string always holds, and a contained needle is never longer than the string |
| Text.ContainsIff | client/src/Components/KanbanBoard.jsx:68-69 | `includes` holds iff the needle occurs at some index |
| Text.Trim | client/src/Components/ToDoTask.jsx:51-52 | `trim` leaves an infix bounded only by white space, and it neither starts nor ends with white space |
| Text.TrimEmptyIff | client/src/Components/ToDoTask.jsx:51 | trimming gives "" iff the string is all white space |
| Text.TrimIdempotent | client/src/Components/ToDoTask.jsx:51-52 | trimming twice equals trimming once |
| TaskStore.Reply.Code | server/index.js:52-140 | every reply has an HTTP status, and it is below 300 iff the reply is not an error |
| TaskStore.NewTodo | server/index.js:32-69 | a new document takes status "To Do" when none (or a falsy one) is given and a given string status otherwise; its title, description and deadline are the request's, cast to String, so a truthy title stays truthy |
| TaskStore.SchemaValid | server/index.js:23-37 | a document the schema accepts has a truthy title and status, and its status is never "Timeout" |
| TaskStore.CheckCreate | server/index.js:50-80 | the title check rejects exactly the falsy titles; otherwise acceptance is exactly schema validity of the new document, which is then the stored one |
| TaskStore.CreateStatusRule | server/index.js:32-72 | with a title: no status means stored "To Do"; the request is accepted iff the status is falsy or one of the three enum values; a given enum value is stored |
| TaskStore.NumberIsNoStatus | server/index.js:32-34 | a numeric status never casts to an enum value |
| TaskStore.TimeoutIsRejectedOnCreate | server/index.js:32-34 | a "Timeout" status fails schema validation |
| TaskStore.SetPath | server/index.js:115-120 | a path the patch names is set to the cast value, and any other path is kept |
| TaskStore.ApplyPatch | server/index.js:119 | every path the patch names takes the cast value, every other path keeps its value, and the empty patch changes nothing |
| TaskStore.ApplyUpdate | server/index.js:112-120 | update copies exactly those of the four fields that are not undefined, so `null` is copied, and keeps the others |
| TaskStore.UpdateIgnoresOtherFields | server/index.js:107-118 | a body with none of the four fields, such as one carrying only `duration`, changes nothing |
| TaskStore.UpdateIdempotent | server/index.js:112-120 | applying the same update twice equals applying it once |
| TaskStore.Remove | server/index.js:139 | removing an id keeps every other id and preserves distinctness |
| TaskStore.DistinctCardinality | server/index.js:87 | a duplicate-free id list has as many ids as the set of its ids |
| TaskStore.Store.constructor | server/index.js:40 | the store starts empty and valid |
| TaskStore.Store.Create | server/index.js:44-82 | 201 with the new document stored under a fresh id; 400 "Title is required" or 500, each with the store unchanged |
| TaskStore.Store.GetAll | server/index.js:85-97 | 200 with a list in which every stored document appears once, with its stored content |
| TaskStore.Store.Update | server/index.js:105-127 | 404 "Todo not found" with the store unchanged for an unknown id; otherwise the document becomes the patched one and 200 returns the post-update record |
| TaskStore.Store.Delete | server/index.js:135-140 | 204 whether or not the id existed, and the id is absent afterwards with every other document kept |
| KanbanBoard.Filter | client/src/Components/KanbanBoard.jsx:91-94 | `filter` keeps exactly the elements satisfying the test |
| KanbanBoard.FilterAppend | client/src/Components/KanbanBoard.jsx:91-94 | filtering distributes over concatenation, so order is preserved |
| KanbanBoard.FilterKeepsAll | client/src/Components/KanbanBoard.jsx:62-66 | filtering with a test that passes everywhere is the identity |
| KanbanBoard.MatchesQuery | client/src/Components/KanbanBoard.jsx:67-69 | every task matches the empty query, and a task whose lowercased title contains the lowercased query matches |
| KanbanBoard.MatchesQueryIff | client/src/Components/KanbanBoard.jsx:67-69 | a task matches iff the lowercased query occurs in the lowercased title, or in the lowercased (truthy) description |
| KanbanBoard.SearchTasks | client/src/Components/KanbanBoard.jsx:62-71 | an empty query keeps the list; otherwise exactly the matching tasks are kept |
| KanbanBoard.SearchKeepsOrder | client/src/Components/KanbanBoard.jsx:66-70 | the search distributes over concatenation, so the original order is kept |
| KanbanBoard.SplitByStatus | client/src/Components/KanbanBoard.jsx:91-94 | each status list holds exactly the filtered tasks with that status |
| KanbanBoard.SplitKeepsOrder | client/src/Components/KanbanBoard.jsx:91-94 | each status list keeps the order of the filtered list |
| KanbanBoard.SplitCounts | client/src/Components/KanbanBoard.jsx:91-94 | the four lists and the tasks of unknown status add up to the filtered list |
| KanbanBoard.AtMostOneList | client/src/Components/KanbanBoard.jsx:91-94 | a task is in at most one list, and in one iff its status is one of the four |
| KanbanBoard.SomeIffListNonEmpty | client/src/Components/KanbanBoard.jsx:76-94 | `some` with a status test holds iff the list filtered by that status is non-empty |
| KanbanBoard.ColumnsWithMatches | client/src/Components/KanbanBoard.jsx:76-86 | each match flag is true iff the corresponding status list is non-empty |
| KanbanBoard.ShowColumns | client/src/Components/KanbanBoard.jsx:112-122 | To Do shows only under "All" or "Low Priority", On Progress only under "All" or "High Priority", Done and Timeout only under "All"; with a query a column also needs a match, and under each of the three filters every allowed column with a match is shown |
| KanbanBoard.AllFilterShowsEverything | client/src/Components/KanbanBoard.jsx:112-130 | "All" with an empty query shows all four columns, so the no-match message is not shown |
| KanbanBoard.UnknownFilterHidesAll | client/src/Components/KanbanBoard.jsx:112-126 | an unrecognised filter value hides every column |
| KanbanBoard.ToCard | client/src/Components/KanbanBoard.jsx:195-203 | id, title, description and status are copied; a falsy deadline becomes "Not set", a falsy duration 0, and a falsy startedAt null |
| KanbanBoard.MapToCards | client/src/Components/KanbanBoard.jsx:193-205 | the card list has the task list's length, and card i is the mapped task i |
| KanbanBoard.ColumnOf | client/src/Components/KanbanBoard.jsx:143-146 | a column's count badge equals its number of cards |
| KanbanBoard.VisibleColumns | client/src/Components/KanbanBoard.jsx:142-184 | the rendered columns are exactly those whose visibility flag is set, each once and built from its own status list, left to right in the order To Do, On Progress, Done, Timeout; there are none iff no flag is set |
| KanbanBoard.RenderBoard | client/src/Components/KanbanBoard.jsx:125-184 | the "No matching tasks found" message appears iff no column is visible; otherwise the board shows the visible columns of the searched list, and at least one |
| KanbanBoard.AllFlagsShowAll | client/src/Components/KanbanBoard.jsx:142-184 | with every visibility flag set the board renders To Do, On Progress, Done and Timeout, in that order, each from its own list |
| KanbanBoard.FlaggedListsGiveCards | client/src/Components/KanbanBoard.jsx:142-184 | when each flagged column's status list is non-empty, every rendered column has at least one card and its badge counts its cards |
| KanbanBoard.BoardWithoutQuery | client/src/Components/KanbanBoard.jsx:112-184 | under "All" with no query the board shows To Do, On Progress, Done and Timeout in that order, and their counts plus the unknown-status tasks add up to all tasks |
| KanbanBoard.ShownColumnsMatchQuery | client/src/Components/KanbanBoard.jsx:76-122 | with a query every shown column has at least one card |
| KanbanBoard.ListsEmptyIff | client/src/Components/KanbanBoard.jsx:91-94 | the four status lists are all empty iff no task of the list has one of the four statuses |
| KanbanBoard.NoMatchesIff | client/src/Components/KanbanBoard.jsx:65-130 | under "All" with a query the no-match message appears iff no matching task has one of the four statuses |
| KanbanColumn.StatusFromTitle | client/src/Components/KanbanColumn.jsx:6-13 | the three schema statuses map to themselves, and any other title, "Timeout" included, maps to "" |
| KanbanColumn.ColumnCardProps | client/src/Components/KanbanColumn.jsx:35-44 | each card keeps its id, title, description and deadline, and gets the column's status instead of its own |
| KanbanColumn.ColumnPriority | client/src/Components/KanbanColumn.jsx:6-42 | every card of a column shows "Not Set" (client/src/Components/TaskCard.jsx:34-38) iff the column title is not a schema status |
| KanbanColumn.MissingDeadlineIsSavedAsNotSet | client/src/Components/KanbanBoard.jsx:195-203 | a task without a deadline reaches its card as "Not set" (client/src/Components/KanbanColumn.jsx:35-44); opening the edit form and saving sends that text (client/src/Components/TaskCard.jsx:69-105), so the server stores "Not set" as the deadline |
| KanbanColumn.TimeoutColumnShowsNotSet | client/src/Components/KanbanBoard.jsx:175-183 | cards in the Timeout column get status "" (client/src/Components/KanbanColumn.jsx:11) and so priority "Not Set" |
| TaskCard.GetPriority | client/src/Components/TaskCard.jsx:16-39 | "To Do" gives Low, "On Progress" High, "Done" Completed, and anything outside the enum "Not Set" |
| TaskCard.PriorityTextTellsStatus | client/src/Components/TaskCard.jsx:16-42 | for schema statuses, two cards show the same label iff they have the same status |
| TaskCard.IsIsoShape | client/src/Components/TaskCard.jsx:124 | the test holds iff the string is four digits, a dash, two digits, a dash and two digits |
| TaskCard.FormatDate | client/src/Components/TaskCard.jsx:120-134 | empty or "Not set" gives "Not set"; a valid ISO-shaped string gives its locale text; anything else is returned unchanged |
| TaskCard.PlainDeadlineIsFixed | client/src/Components/TaskCard.jsx:121-133 | a string that is not a valid ISO-shaped date is shown as it is, and formatting that text again changes nothing |
| TaskCard.CalendarDateShapeIff | client/src/Components/Calendar.jsx:41-47 | a date picked in the calendar passes the `dddd-dd-dd` test of client/src/Components/TaskCard.jsx:124 iff its year has four digits |
| TaskCard.SetField | client/src/Components/TaskCard.jsx:79-85 | `handleInputChange` sets the named field and leaves the other fields unchanged |
| TaskCard.SetDeadline | client/src/Components/TaskCard.jsx:91-97 | `handleDateSelect` sets the deadline and nothing else |
| TaskCard.EditClick | client/src/Components/TaskCard.jsx:69-77 | entering edit mode resets the form to the card's current props and closes the menu |
| TaskCard.SaveEditBody | client/src/Components/TaskCard.jsx:103-105 | the save request carries exactly the form's title, description and deadline, and no status and no other field |
| TaskCard.SaveEditKeepsStatus | client/src/Components/TaskCard.jsx:103-105 | saving an edit never changes the stored status under the update rule of server/index.js:112-120 |
| TaskCard.MenuStatuses | client/src/Components/TaskCard.jsx:268-283 | the menu offers exactly the three schema statuses, each once, and never "Timeout" |
| TaskCard.StatusChangeBody | client/src/Components/TaskCard.jsx:44-47 | a status-change request carries the chosen status and no other field |
| TaskCard.StatusChangeOnlySetsStatus | client/src/Components/TaskCard.jsx:44-47 | a status change sets the stored status to the chosen one and changes nothing else under server/index.js:112-120, and the chosen status has a real priority label |
| TaskDashboard.BucketOf | client/src/Components/TaskDashboard.jsx:35-40 | a task is completed iff its status is "Done", timed out iff it is "Timeout", and active otherwise |
| TaskDashboard.Expired | client/src/Components/TaskDashboard.jsx:39-46 | an expired task is neither Done nor Timeout, and has a truthy deadline that parses to a valid instant strictly before now |
| TaskDashboard.CountBucket | client/src/Components/TaskDashboard.jsx:34-48 | a bucket never holds more tasks than the list |
| TaskDashboard.CountExpired | client/src/Components/TaskDashboard.jsx:41-46 | the expired count never exceeds the list |
| TaskDashboard.StatsOf | client/src/Components/TaskDashboard.jsx:34-55 | the statistics of a list: completed + timedOut + active = total = the number of tasks, and expired ≤ active |
| TaskDashboard.EmptyListStats | client/src/Components/TaskDashboard.jsx:13-19 | the statistics of no tasks are the all-zero initial statistics |
| TaskDashboard.BucketsPartition | client/src/Components/TaskDashboard.jsx:34-55 | completed + timedOut + active equals the number of tasks |
| TaskDashboard.ExpiredAmongActive | client/src/Components/TaskDashboard.jsx:39-46 | expired ≤ active |
| TaskDashboard.NotExpired | client/src/Components/TaskDashboard.jsx:35-45 | a Done or Timeout task, a task without a deadline or with an invalid one, and a task whose deadline is at or after now are never expired; an active task whose truthy deadline parses to an instant before now is expired |
| TaskDashboard.NoneExpired | client/src/Components/TaskDashboard.jsx:41-46 | if no task is expired on its own, the expired count is 0 |
| TaskDashboard.UpdateTaskStats | client/src/Components/TaskDashboard.jsx:24-56 | the loop's counters are the bucket and expired counts of the list; completed + timedOut + active = total = number of tasks; expired ≤ active |
| Calendar.DayFromYearStep | client/src/Components/Calendar.jsx:11 | consecutive years start 365 or 366 days apart, by the Gregorian leap rule |
| Calendar.MonthSpan | client/src/Components/Calendar.jsx:11 | from day 1 of a month to day 0 of the next is the Gregorian length of the month, December included |
| Calendar.DaysInMonth | client/src/Components/Calendar.jsx:10-12 | day 0 of the following month is the Gregorian length of the month, between 28 and 31 |
| Calendar.GetDaysInMonthAsWritten | client/src/Components/Calendar.jsx:10-12 | `getDaysInMonth` as written gives the Gregorian month length for every year except 0, and for year 0 the length of that month in 1900 |
| Calendar.AsWrittenFebruaryOfYearZero | client/src/Components/Calendar.jsx:10-12 | for February of year 0 the as-written length is 28, where the Gregorian length is 29 |
| Calendar.PrevMonth | client/src/Components/Calendar.jsx:64-65 | the month before January is December of the previous year; otherwise it is month − 1 of the same year, always one month back |
| Calendar.ShiftMonth | client/src/Components/Calendar.jsx:18-34 | `setMonth(getMonth() ± 1)` moves the month index by one and normalises the month into 0..11 |
| Calendar.PrevMonthIsShiftBack | client/src/Components/Calendar.jsx:18-65 | the explicit January wrap and the carry of `setMonth` agree |
| Calendar.NavigateMonth | client/src/Components/Calendar.jsx:18-34 | month navigation moves one month back or forward and clears the selection |
| Calendar.Pad | client/src/Components/Calendar.jsx:43-44 | a month or day from 1 to 99 is written as exactly two digits that read back as the number; from 10 on it is the plain decimal text |
| Calendar.FormatSelectedDate | client/src/Components/Calendar.jsx:41-47 | the selected date starts with the year's text and a dash; for a month and a day of the month it ends with a dash, two digits reading back as month + 1, a dash and two digits reading back as the day |
| Calendar.FormatReadsBack | client/src/Components/Calendar.jsx:41-47 | for a four-digit year the selected date is `YYYY-MM-DD`, with the year, month + 1 and day reading back from their positions |
| Calendar.FormatLengthIff | client/src/Components/Calendar.jsx:41-47 | the selected-date string has ten characters iff the year has four digits or is between -999 and -100 |
| Calendar.HandleDayClick | client/src/Components/Calendar.jsx:36-53 | a click outside the shown month neither selects nor emits; a click inside selects the day and emits its formatted date iff there is a listener |
| Calendar.RenderCalendarDays | client/src/Components/Calendar.jsx:55-114 | the grid has the last firstDay days of the previous month in increasing order, then 1..daysInMonth, then 1, 2, ... up to 42 cells; it has exactly 42 cells when firstDay ≤ 6 |
| ToDoTask.SetInput | client/src/Components/ToDoTask.jsx:35-38 | `handleInputChange` sets the named field and leaves every other field unchanged |
| ToDoTask.SetDeadline | client/src/Components/ToDoTask.jsx:24-33 | `handleDateSelect` sets the deadline and nothing else |
| ToDoTask.Submit | client/src/Components/ToDoTask.jsx:41-55 | an empty title sends nothing; otherwise title and description are trimmed, an empty deadline becomes null, and an empty status becomes "To Do" |
| ToDoTask.InitialFormIsNotSent | client/src/Components/ToDoTask.jsx:9-47 | the untouched form has status "To Do" and is not submitted |
| ToDoTask.WhiteSpaceTitleRejectedByServer | client/src/Components/ToDoTask.jsx:44-51 | a white-space-only title passes the client check, is sent as "", and the server answers "Title is required" (server/index.js:51-53) |
| ToDoTask.SubmitAcceptedIff | client/src/Components/ToDoTask.jsx:44-59 | a sent form is stored iff its title has a non-space character and its status is empty or a schema status; the stored document (server/index.js:51-72) is then the normalised form |

## Left out

- The status-timeout engine is not modelled (`startedAt`, `duration`, the `checkTimeout` callback of client/src/Components/KanbanBoard.jsx:22-37, run every minute, and `checkTimeoutTasks` of client/src/services/api.js:106). No code in `server/index.js` implements it. The client call to it fails, and the client swallows that error.
- Mongoose and Express plumbing are not modelled: the connection, `listen`, ObjectId generation and the `timestamps` fields. Fresh ids are a parameter of `TaskStore.Store.Create`.
- Whether `findByIdAndUpdate` runs schema validators depends on Mongoose defaults the code does not set. `TaskStore.Store.Update` therefore does not check the status enum.
- `TaskStore.Store.GetAll`: the 500 answer of its `catch` branch (server/index.js:98-101) is not modelled, because database failures are not modelled; it always answers 200.
- `TaskStore.Store.Update`: the 500 answer of its `catch` branch (server/index.js:128-131) is not modelled. Ids are numbers here, so a malformed id whose ObjectId cast fails cannot be written, and database failures are not modelled.
- `TaskStore.Store.Delete`: the 500 answer of its `catch` branch (server/index.js:141-144) is not modelled, for the same two reasons; for every id it answers 204.
- `TaskStore.Store.Create`: an error from the database itself is not modelled. Answer 500 comes only from schema validation.
- `client/src/services/api.js` is `fetch` I/O only. Its results appear as inputs: the task list of `TaskDashboard.UpdateTaskStats` and `KanbanBoard.RenderBoard`.
- React rendering and effects are not modelled: JSX, the ordering of `useState`/`useEffect`, the polling interval, console logging, `alert`, and the loading and success screens.
- `TaskDashboard.UpdateTaskStats` takes the result of `new Date(deadline)` as a parameter (`None` for an invalid date), and the current time as an integer.
- `TaskCard.FormatDate` takes date validity and `toLocaleDateString` as parameters.
- `Calendar.RenderCalendarDays` takes the weekday of the first of the month as a parameter.
- `Calendar.NavigateMonth` does not model the day-of-month overflow of `setMonth` (31 January plus one month is 3 March). Only the month index is modelled.
- `Calendar.ShiftMonth`: the same overflow is left out here; it moves the month index by one, which is not always one calendar month of the shown date.
- Highlighting of today and of the selected day in the grid is not modelled (`isToday`).
- `Text.Lower` lowercases only A-Z. `toLowerCase` maps every Unicode letter.
- `KanbanBoard.MatchesQuery`: a task whose description is a truthy non-string value makes the source throw. The model treats such a description as not matching. A missing or `null` title makes the source throw too; it cannot be written in `ClientTask.Task`, whose title is a string.
- Arrays and objects are not modelled as `Js.JsValue`s. Sent as a title, description, deadline or status, the String cast of Mongoose fails for them, so create and update answer 500; the model cannot express such a request.
- Numbers are modelled only as integers, and only safe integers of magnitude below 10^21 are written faithfully. The server accepts any JSON number in a create or update body (server/index.js:50-120). Fractions, integers beyond 2^53 (which doubles round) and integers of 10^21 or more (which JavaScript writes in exponent form, "1e+21") are not modelled.
- CastString: writes every integer in plain decimal, which is the JavaScript text only for integers of magnitude below 10^21; larger numbers, which JavaScript writes in exponent form, and fractional numbers are not modelled.
- The UI-only components are not modelled: SearchHeader.jsx, DateInput.jsx, TaskStatistics.jsx, TaskStatCard.jsx, AddTaskSuccess.jsx, AddTaskButton.jsx and App.jsx.
- `Calendar.RenderCalendarDays` uses the corrected `Calendar.DaysInMonth`, which differs from the code only for year 0 (see Findings).

## Findings

| source | as written | input that shows it | evidently intended | confidence | as-written member | corrected member |
|---|---|---|---|---|---|---|
| client/src/Components/Calendar.jsx:10-12 | `new Date(year, month + 1, 0).getDate()` lets the `Date` constructor read years 0..99 as 1900..1999 | `getDaysInMonth(0, 1)` is 28, because it measures February 1900; February of year 0 has 29 days | the Gregorian length of the month in the given year | not executed | Calendar.AsWrittenFebruaryOfYearZero | Calendar.DaysInMonth |
