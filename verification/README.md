# Student Reminder App — a Dafny model of its task logic

The Student Reminder App (`backend.py`) keeps a list of tasks. Each task has a
name, a due date and a priority. The list is saved as JSON after each
accepted addition and each removal that completes, and loaded again at
start-up. Its window offers five operations:

- **Add a task.** The name and the due date are stripped of surrounding
  whitespace. The name must not be empty, the due date must be in the
  `YYYY-MM-DD HH:MM` format, and it must not be in the past. The priority is
  asked for afterwards; no answer means "Low".
- **Remove the selected rows.** The positions of the selected rows are popped
  from the list one after another. With two or more rows selected this does
  not remove exactly the selected tasks (see "## Findings").
- **Check reminders.** The tasks due within the next hour are listed in a
  message box.
- **Show the daily schedule.** There are seventeen hourly slots from 06:00 AM
  to 10:00 PM. The slots take the tasks' names in list order, and a slot with
  no task shows `[Empty]`.
- **Show a report** with one block per task.

This project models that logic with the window left out. Everything the
window would supply is an explicit input:
- the text typed into the two fields;
- the answer to the priority question;
- the positions of the selected rows;
- the current time.

What the window would display is returned as a value.

Modules, one file each:

- `wrappers.dfy` — `Option` and `Result`.
- `datetime.dfy` (`DateTime`) — naive date-times with Python's field ranges and
  proleptic Gregorian calendar. `Before` is the field-by-field comparison that
  `datetime`'s `<` performs. `Elapsed` is the microsecond difference that
  `datetime` subtraction yields, and the two are shown to agree.
- `dateformat.dfy` (`DateFormat`) — `%Y-%m-%d %H:%M` formatting and parsing,
  proved to round-trip. `%I:%M %p` labels for the schedule.
- `text.dfy` (`Text`) — Python's `str.strip()` over the characters
  `str.isspace` accepts. Also text built line by line and block by block, and
  text cut back into its lines.
- `tasks.dfy` (`Tasks`) — the task record and the checks a new task passes.
- `persistence.dfy` (`Persistence`) — the saved records and loading them back.
- `removal.dfy` (`Removal`) — `list.pop`, removal as the application performs
  it, and removal of a set of positions as intended.
- `views.dfy` (`Views`) — the reminder message, the schedule text and the
  report text, as functions of the list.
- `reminder_app.dfy` (`Reminder`) — the application object. It is a class whose
  `tasks` field its methods update. Its loops are proved against the functions
  above.

## Model

| member | source | states |
|---|---|---|
| DateTime.DaysInMonth | backend.py:124 | Months have 28 to 31 days. February has 29 exactly in leap years. This is the calendar `strptime` checks a day against. |
| DateTime.Truncated | backend.py:39 | Dropping seconds and microseconds keeps year, month, day, hour and minute, and gives a valid whole-minute date-time. |
| DateTime.Before | backend.py:125 | Defines `<` on date-times: compare year, month, day, hour, minute, second and microsecond, most significant first. |
| DateTime.Ordinal | backend.py:155 | Defines the day number of a date, counting 0001-01-01 as day 1, as `date.toordinal` does. |
| DateTime.MicrosOfDay | backend.py:155 | The time of day in microseconds lies within one day. This is what makes the difference of two date-times a well-defined count. |
| DateTime.Micros | backend.py:155 | Defines the microseconds since 0001-01-01 00:00: the day number's days plus the time of day. |
| DateTime.Elapsed | backend.py:155 | Defines `due - now` as the signed difference of the two microsecond counts. |
| DateTime.YearLength | backend.py:155 | The days before year y+1 are those before y plus the length of y: 365, or 366 in a leap year. |
| DateTime.LeapDivisors | backend.py:155 | Stepping from y-1 to y adds one multiple of 4, 100 or 400 exactly when y is one. |
| DateTime.DaysBeforeYearMonotone | backend.py:155 | Each year adds at least 365 days to the day count. |
| DateTime.MonthEnd | backend.py:155 | A month's days end before any later month of the same year begins. |
| DateTime.YearEnd | backend.py:155 | Every month ends within its year. |
| DateTime.OrdinalIncreasing | backend.py:155 | A calendar date earlier in year, month or day has a smaller day number. |
| DateTime.BeforeIffEarlier | backend.py:125 | `due_date < now` holds exactly when the microsecond count of `due_date` is smaller. Two date-times are equal exactly when their counts are. So the past-due check and the reminder window's subtraction order dates alike. |
| DateFormat.DigitValue | backend.py:124 | A digit character's value is below 10 and maps back to the same character. |
| DateFormat.Padded | backend.py:39 | A zero-padded field has exactly the requested width and holds only digits. |
| DateFormat.ValueOf | backend.py:124 | A field of n digits reads as a number below 10^n. |
| DateFormat.ValueOfPadded | backend.py:39 | Reading back a zero-padded field gives the number written, when it fits the width. |
| DateFormat.PaddedValueOf | backend.py:124 | Padding a field's value to the field's width gives back the field. |
| DateFormat.PaddedTwoDigits | backend.py:168 | A two-digit field is the tens digit then the units digit. |
| DateFormat.Format | backend.py:39 | `strftime("%Y-%m-%d %H:%M")` is always 16 characters. |
| DateFormat.FormatHasNoNewline | backend.py:157 | A formatted due date never contains a line break. |
| DateFormat.Parse | backend.py:124 | A string that parses has the `YYYY-MM-DD HH:MM` shape. The month, day, hour and minute ranges, year 0 and a day past the month's end are refused. A parsed date is valid and whole-minute. |
| DateFormat.FormatThenParse | backend.py:39 | Parsing a formatted date-time gives it back truncated to the minute. |
| DateFormat.DueDateRoundTrip | backend.py:34 | A due date survives saving and loading unchanged. |
| DateFormat.ParseThenFormat | backend.py:34 | Formatting a parsed date gives back the very string parsed. This holds for the canonical zero-padded form, the only one the model parses. |
| DateFormat.ClockLabel | backend.py:168 | `%I:%M %p` is 8 characters of the form `HH:MM AM` or `HH:MM PM`. It reads AM exactly before noon. |
| Text.StripStart | backend.py:118 | The result is a suffix of the input and everything removed is whitespace. It does not start with whitespace. |
| Text.StripEnd | backend.py:118 | The result is a prefix of the input and everything removed is whitespace. It does not end with whitespace. |
| Text.Strip | backend.py:118-120 | `strip()` is a slice of the input with only whitespace before and after it. It is empty exactly when the input is all whitespace. Otherwise it neither starts nor ends with whitespace. |
| Text.StripIdempotent | backend.py:118-119 | Stripping a stripped string changes nothing. |
| Text.Repeat | backend.py:182 | `c * n` is n copies of c. |
| Text.Concat | backend.py:183-184 | Defines the renderings of the items one after another, in order, as text built by `+=` in a loop. |
| Text.ConcatAppend | backend.py:183-184 | Rendering a list is rendering its two parts one after the other. |
| Text.ConcatOne | backend.py:184 | A one-item list renders as that item. |
| Text.ConcatPrefixStep | backend.py:183-184 | Each `+=` of the loop extends the rendering of the items before it. |
| Text.ConcatAt | backend.py:183-184 | Each item's rendering stands between those of the items before and after it. |
| Text.UnlinesPrefixStep | backend.py:171-173 | Each `+= line + "\n"` extends the text of the lines before it. |
| Text.Unlines | backend.py:171-173 | Defines the text of lines each followed by `\n`, built one line at a time. |
| Text.JoinLines | backend.py:157 | Defines `"\n".join(lines)`: no line break before the first line or after the last. |
| Text.JoinLinesCons | backend.py:157 | Joining a first line onto more lines puts one line break between it and the rest. |
| Text.SplitLines | backend.py:157 | Cutting a text at each `\n` gives one more piece than there are line breaks. |
| Text.SplitAppendLine | backend.py:157 | Text without `\n` appended to a text extends its last piece. |
| Text.SplitAppendBreak | backend.py:157 | A `\n` appended to a text starts a new, empty piece. |
| Text.JoinThenSplit | backend.py:157 | For a non-empty list of lines none of which holds a `\n`, cutting `"\n".join(lines)` at its line breaks gives back the lines. The empty list joins to `""`, which cuts into one empty piece. |
| Text.SplitUnderHeading | backend.py:157-158 | For a heading without `\n` and a non-empty list of lines without `\n`, the heading, a line break and the joined lines cut back into the heading followed by the lines. |
| Text.JoinLinesCountsBreaks | backend.py:157 | `"\n".join` of n single lines has n-1 line breaks. |
| Text.CountNewlinesAppend | backend.py:173 | Line breaks of a concatenation add up. |
| Text.UnlinesCountsLines | backend.py:171-173 | Text built of n single lines, each followed by `\n`, has n line breaks. |
| Text.NoNewlineCount | backend.py:173 | A string without `\n` counts no line breaks. |
| Tasks.AddError.Message | backend.py:121 | The error texts: "Task name cannot be empty." (line 121), "Due date cannot be in the past." (line 126) and "Invalid date format. Please use YYYY-MM-DD HH:MM." (line 135). |
| Tasks.PriorityOrDefault | backend.py:128 | The answer is used when it is a non-empty string. A cancelled or empty answer gives "Low". |
| Tasks.NewTask | backend.py:117-129 | The name is refused exactly when it is all whitespace. An invalid date is reported exactly when the name passes and the stripped date does not parse. Past-due is reported exactly when the date parses to something strictly earlier than now. An accepted task has the stripped name, a due date not before now, and the defaulted priority. Its due date formats back to the stripped input, which the model accepts only in the canonical zero-padded form. |
| Tasks.DueNowAccepted | backend.py:125 | A due date equal to now is accepted: the check is strict. |
| Tasks.AcceptedNotOverdue | backend.py:125 | An accepted task's due date is no earlier than now. |
| Persistence.ToRecord | backend.py:39 | A task's record keeps its name and priority, and its date text parses back to the task's due date. |
| Persistence.Serialize | backend.py:39 | One record per task, in order, with the same name and priority. Each date string parses back to the task's due date. |
| Persistence.DecodeWith | backend.py:31-34 | Loading succeeds exactly when every record's date parses. It then yields one task per record, in order, each with that record's fields. On failure it names the first record that does not parse and its error, and every record before it parses. |
| Persistence.Decode | backend.py:34 | Defines loading as decoding each record with `strptime(…, "%Y-%m-%d %H:%M")`. |
| Persistence.DecodeExtends | backend.py:33-34 | One more record whose date parses adds its task at the end. |
| Persistence.DecodeStopsAt | backend.py:33-34 | The first record whose date does not parse stops loading with that record's position and error. |
| Persistence.SaveThenLoad | backend.py:31-39 | Loading what was saved gives back the task list. |
| Persistence.LoadThenSave | backend.py:31-39 | Saving what was loaded writes back the same records, when every saved date is in the canonical zero-padded form. |
| Removal.Pop | backend.py:149 | `list.pop(i)` keeps the elements before i, shifts those after i down by one, and removes exactly one copy of element i. |
| Removal.PopEach | backend.py:147-149 | Popping a sequence of positions in turn never grows the list. When it completes it removes one element per position. An `IndexError` names a position that was at or past the end of the list at that moment. |
| Removal.PopEachSingle | backend.py:147-149 | With one row selected the loop is a single pop. |
| Removal.Keep | backend.py:142-151 | Defines the intended removal: the list without the elements at the selected positions, the others in order. |
| Removal.KeepStepDown | backend.py:147-149 | Working from the highest position down, popping position k when it is selected keeps exactly the unselected elements from k on. |
| Removal.KeepNothingSelected | backend.py:144-146 | With no position selected every element is kept. |
| Removal.KeepNothingAbove | backend.py:147-149 | Positions above all selected ones are kept as they are. |
| Removal.KeepIgnoresOutOfRange | backend.py:147-149 | Which elements are kept depends only on the selected positions inside the list. |
| Removal.KeepAfterPop | backend.py:147-149 | Popping position i when every other selected position is below i is the same as selecting i as well. |
| Removal.DescendingPopsKeepUnselected | backend.py:147-149 | Popping strictly decreasing in-range positions one at a time always completes. It leaves exactly the unselected elements, in order. |
| Removal.KeepOneIsPop | backend.py:147-149 | Removing one selected position is `list.pop` of it. |
| Removal.AscendingSelectionRemovesWrongTask | backend.py:147-149 | With three tasks and rows 0 and 1 selected, the loop as written keeps the second task. The intended removal keeps the third. |
| Removal.KeepThreeFirstTwo | backend.py:147-149 | Removing rows 0 and 1 of three keeps only the third. |
| Removal.AscendingSelectionOverruns | backend.py:147-149 | With two tasks and both rows selected, the loop as written raises `IndexError` at position 1 with the second task still listed. The intended removal empties the list. |
| Views.DueWithinHour | backend.py:155 | Defines due soon as `0 <= due - now <= 3600` seconds, both ends included. |
| Views.DueSoon | backend.py:155 | A task is listed exactly when it is due between now and one hour from now, both ends included. Nothing else is listed. |
| Views.DueSoonAppend | backend.py:155 | The filter keeps list order: filtering two parts is filtering the whole. |
| Views.DueSoonBounds | backend.py:155 | Due exactly now, or exactly one hour ahead, counts as due soon. One microsecond past the hour, or any time in the past, does not. |
| Views.DueSoonAppendOne | backend.py:155 | Appending a task that is not overdue adds it to the end of the due-soon list exactly when it is due within the hour. |
| Views.AddedTaskDueSoon | backend.py:125-129 | A task just accepted at `now` appears among the reminders exactly when it is due within the hour. |
| Views.ReminderLine | backend.py:157 | Defines one reminder line as `name (Due: YYYY-MM-DD HH:MM)`. |
| Views.ReminderLines | backend.py:157 | One reminder line per task, in order: `name (Due: YYYY-MM-DD HH:MM)`. |
| Views.ReminderNotice | backend.py:156-160 | The message is titled "Upcoming Reminders" exactly when some task is due soon. Its text is then the heading "Tasks due soon:" and a line break, followed by the reminder lines of the due-soon tasks joined with line breaks. Otherwise it is "No Reminders" with the fixed text. |
| Views.ReminderMessageLines | backend.py:156-158 | When some task is due soon and no task name contains a line break, the message text cut at its line breaks is the heading "Tasks due soon:" followed by one reminder line per due-soon task, in list order. |
| Views.ReminderLinePerTask | backend.py:156-160 | When no task name contains a line break, the message text has exactly as many line breaks as tasks due soon: one after the heading and one between each two tasks. A name loaded from the file may contain one. |
| Views.ReminderLinesAreSingle | backend.py:157 | When no task name contains a line break, every reminder line is a single line. A name loaded from the file may contain one. |
| Views.SlotName | backend.py:172 | Defines slot k's name: task k's name when the list has a task k, otherwise `[Empty]`. |
| Views.ScheduleLines | backend.py:171-173 | Seventeen lines. Line k is slot k's label, `": "`, and the name of task k or `[Empty]`. |
| Views.ScheduleText | backend.py:171-173 | Defines the schedule text as the seventeen slot lines, each followed by `\n`. |
| Views.SlotLabel | backend.py:168 | Defines slot k's label as the `%I:%M %p` label of 06:00 plus k hours. |
| Views.SlotLabels | backend.py:164-169 | The slots run from "06:00 AM" to "10:00 PM". "11:00 AM" is followed by "12:00 PM" and then "01:00 PM". |
| Views.SlotLabelIs | backend.py:167-168 | Slot k is labelled with the hour 6+k on the 12-hour clock, minute 00, AM before noon. |
| Views.ScheduleHasSeventeenLines | backend.py:167-173 | When none of the first seventeen task names contains a line break, the schedule text has exactly seventeen line breaks, however many tasks there are. A name loaded from the file may contain one. |
| Views.ScheduleIgnoresLaterTasks | backend.py:172 | Tasks after the seventeenth never appear in the schedule. |
| Views.EmptySchedule | backend.py:172 | With no tasks every slot shows `[Empty]`. |
| Views.ReportHeader | backend.py:182 | Defines the report heading: `Task Report`, then a rule of 50 `=`, each on its own line. |
| Views.TaskBlock | backend.py:184 | Defines one task's block: its name, due date and priority on three lines, then a rule of 50 `-`. |
| Views.ReportText | backend.py:179-184 | Defines the report: the fixed no-tasks message for an empty list, else the heading and one block per task in list order. |
| Views.Blocks | backend.py:183-184 | Defines the report's task blocks, one per task in list order, as the loop accumulates them. |
| Views.ReportEmptyIff | backend.py:179-181 | The report is the fixed no-tasks message exactly when the list is empty. |
| Views.ReportListsEachTask | backend.py:182-184 | Every task's block appears in the report, after the blocks of the tasks before it and before the blocks of those after it. |
| Views.ReportAfterAdd | backend.py:129 | Adding a task appends its block to the report. |
| Reminder.ReminderApp.constructor | backend.py:10 | A new application has no tasks. |
| Reminder.ReminderApp.LoadTasks | backend.py:28-34 | No file leaves the list as it is. Otherwise each record's date is parsed in turn. Success replaces the list with the decoded tasks. The first failure is reported with its position and error, and the list is left as it was. |
| Reminder.ReminderApp.AddTask | backend.py:117-135 | The new list is the old one with the accepted task at the end. A refused task leaves the list unchanged and reports the same error as `NewTask`. |
| Reminder.ReminderApp.RemoveTask | backend.py:142-151 | Nothing selected warns and changes nothing. Otherwise the list is what popping each selected position in turn leaves. The outcome is success when no pop overran; otherwise it is the `IndexError` at the position of the first pop that overran. |
| Reminder.ReminderApp.RemoveSelected | backend.py:142-151 | Popping selected positions from the highest down leaves exactly the unselected tasks, in order. |
| Reminder.ReminderApp.CreateDailySchedule | backend.py:162-173 | The text built by the two loops is the schedule text of the current list. |
| Reminder.ReminderApp.GenerateReport | backend.py:177-185 | The text built by the loop is the report of the current list. |

## Left out

- The tkinter window, its widgets, message boxes and dialogs. Their inputs are parameters and their displays are returned values.
- The tree view's refresh (`update_task_list`, backend.py:137-140). It shows each task's name, formatted due date and priority in list order. It runs after each successful add and each completed removal. A removal stopped by `IndexError` (backend.py:149) skips it, and so does a failing save. The rows can then lag behind the list. The model takes the selected positions as given and does not tie them to rows.
- Reading and writing the file, and JSON encoding. A record is one element of the saved array. `save_tasks` writes `Persistence.Serialize(tasks)` after each successful add and each completed removal. A removal stopped by `IndexError` skips the save at backend.py:150, so the pops before it stay in memory only. Its I/O errors are not modelled.
- A file whose JSON is malformed, or whose elements lack a key, is not modelled. Only the due-date parse failure is.
- The clock: `datetime.now()` is the parameter `now`. `date.today()` in the schedule is dropped, because the labels do not depend on the date.
- Reminder.ReminderApp.LoadTasks: a date that does not parse raises out of the constructor in the code, and the application does not start. The model returns the error and leaves the list as it was, which at start-up is empty.
- DateFormat.Parse: accepts only the canonical zero-padded 16-character form. `strptime` also accepts one-digit fields such as `2024-1-5 9:03`, and the model refuses them as not matching the format.
- DateFormat.ParseThenFormat: holds only because `Parse` accepts the canonical form alone. `strptime("2024-1-5 9:03", "%Y-%m-%d %H:%M")` succeeds, and `strftime` then gives `2024-01-05 09:03`, a different string.
- Persistence.LoadThenSave: a saved date in a lenient form such as `2024-1-5 9:03` would load, and save back zero-padded. The model refuses such a date when loading, so the round trip is stated for canonical dates only.
- Tasks.NewTask: the accepted due date formats back to the stripped input only for the canonical form. `strptime` also accepts `2024-1-5 9:03`, which would be stored as 2024-01-05 09:03.
- DateFormat.Format: always writes four year digits. What `%Y` writes for years below 1000 depends on the platform's C library. Where `%Y` does not zero-pad, a task loaded with year 0999 is saved as `999-…`, which the four-digit `%Y` of `strptime` refuses at the next start-up. So Persistence.SaveThenLoad holds for the code only where `%Y` pads. Such a task can only come from an edited file, because an added task is never in the past.
- Views.DueWithinHour compares exact microsecond differences. The code compares the float `total_seconds()` with 0 and 3600, which orders the same for differences of this size.

## Findings

| source | as written | input that shows it | evidently intended | confidence | as-written member | corrected member |
|---|---|---|---|---|---|---|
| backend.py:147-149 | each selected row's position is computed from the tree before any removal, and the positions are popped in selection order (tree order, ascending) from the shrinking list | three tasks a, b, c with rows 0 and 1 selected: the list ends as [b], not [c]; two tasks with both rows selected: `IndexError` at position 1 after removing the first | remove exactly the selected tasks, e.g. by popping the positions from the highest down | not executed; the tree returns its selection in tree order | Removal.AscendingSelectionRemovesWrongTask | Reminder.ReminderApp.RemoveSelected |
