/** What the application computes from the task list on request: the
    tasks due within the next hour, the hourly schedule, and the report. */
module Views {
  import opened DateTime
  import opened DateFormat
  import opened Text
  import opened Tasks

  /** One hour, in microseconds. */
  const OneHour: int := 3_600_000_000

  /** Due between `now` and one hour later, both ends included. The source
      compares the difference's `total_seconds()` with 0 and 3600; for
      differences of that size the float it computes orders the same as
      the exact microsecond count. */
  predicate DueWithinHour(due: ValidDateTime, now: ValidDateTime) {
    0 <= Elapsed(now, due) <= OneHour
  }

  /** The tasks due within the next hour, in list order. */
  function DueSoon(tasks: seq<Task>, now: ValidDateTime): (r: seq<Task>)
    ensures |r| <= |tasks|
    ensures forall t :: t in r ==> t in tasks && DueWithinHour(t.due, now)
    ensures forall i :: 0 <= i < |tasks| && DueWithinHour(tasks[i].due, now) ==> tasks[i] in r
  {
    if tasks == [] then []
    else
      var rest := DueSoon(tasks[1..], now);
      assert forall i :: 1 <= i < |tasks| ==> tasks[i] == tasks[1..][i - 1];
      if DueWithinHour(tasks[0].due, now) then [tasks[0]] + rest else rest
  }

  /** Filtering a list is filtering its two parts: the order of the list is kept. */
  lemma {:induction false} DueSoonAppend(a: seq<Task>, b: seq<Task>, now: ValidDateTime)
    ensures DueSoon(a + b, now) == DueSoon(a, now) + DueSoon(b, now)
  {
    if a != [] {
      assert (a + b)[1..] == a[1..] + b;
      DueSoonAppend(a[1..], b, now);
    } else {
      assert a + b == b;
    }
  }

  /** Due exactly now, and due exactly one hour from now, are both due soon;
      one microsecond later than an hour is not. */
  lemma DueSoonBounds(due: ValidDateTime, now: ValidDateTime)
    ensures due == now ==> DueWithinHour(due, now)
    ensures Micros(due) == Micros(now) + OneHour ==> DueWithinHour(due, now)
    ensures Micros(due) == Micros(now) + OneHour + 1 ==> !DueWithinHour(due, now)
    ensures Before(due, now) ==> !DueWithinHour(due, now)
  {
    BeforeIffEarlier(due, now);
  }

  /** Appending a task that is not overdue adds it to the tasks due soon
      exactly when it is due within the hour. */
  lemma DueSoonAppendOne(tasks: seq<Task>, t: Task, now: ValidDateTime)
    requires Elapsed(now, t.due) >= 0
    ensures DueSoon(tasks + [t], now)
            == DueSoon(tasks, now) + (if Elapsed(now, t.due) <= OneHour then [t] else [])
  {
    DueSoonAppend(tasks, [t], now);
    assert [t][1..] == [];
  }

  /** A task that was just added at `now` is due soon exactly when it is due within the hour. */
  lemma AddedTaskDueSoon(tasks: seq<Task>, nameInput: string, dueInput: string,
                         now: ValidDateTime, answer: Wrappers.Option<string>)
    requires NewTask(nameInput, dueInput, now, answer).Success?
    ensures var t := NewTask(nameInput, dueInput, now, answer).value;
            DueSoon(tasks + [t], now)
              == DueSoon(tasks, now) + (if Elapsed(now, t.due) <= OneHour then [t] else [])
  {
    AcceptedNotOverdue(nameInput, dueInput, now, answer);
    DueSoonAppendOne(tasks, NewTask(nameInput, dueInput, now, answer).value, now);
  }

  /** The message box the reminder check shows. */
  datatype Notice = Notice(title: string, text: string)

  /** One line of the reminder message: `name (Due: YYYY-MM-DD HH:MM)`. */
  function ReminderLine(t: Task): string {
    t.name + " (Due: " + Format(t.due) + ")"
  }

  function ReminderLines(tasks: seq<Task>): (lines: seq<string>)
    ensures |lines| == |tasks|
    ensures forall i :: 0 <= i < |tasks| ==> lines[i] == ReminderLine(tasks[i])
  {
    if tasks == [] then [] else [ReminderLine(tasks[0])] + ReminderLines(tasks[1..])
  }

  /** The reminder check's message: the tasks due soon, one per line, or a
      message that none is. */
  function ReminderNotice(tasks: seq<Task>, now: ValidDateTime): (n: Notice)
    ensures n.title == "Upcoming Reminders" <==> DueSoon(tasks, now) != []
    ensures DueSoon(tasks, now) != [] ==>
              n.text == "Tasks due soon:\n" + JoinLines(ReminderLines(DueSoon(tasks, now)))
    ensures DueSoon(tasks, now) == [] ==>
              n.text == "No tasks are due within the next hour." && n.title == "No Reminders"
  {
    var soon := DueSoon(tasks, now);
    if soon != [] then
      Notice("Upcoming Reminders", "Tasks due soon:\n" + JoinLines(ReminderLines(soon)))
    else
      Notice("No Reminders", "No tasks are due within the next hour.")
  }

  /** The lines of the reminder message are its heading and then the line of
      each task due soon, in list order (as long as no task name holds a
      line break; one pasted into the name field or loaded from the file
      may). */
  lemma ReminderMessageLines(tasks: seq<Task>, now: ValidDateTime)
    requires forall i :: 0 <= i < |tasks| ==> '\n' !in tasks[i].name
    requires DueSoon(tasks, now) != []
    ensures SplitLines(ReminderNotice(tasks, now).text)
            == ["Tasks due soon:"] + ReminderLines(DueSoon(tasks, now))
  {
    var soon := DueSoon(tasks, now);
    DueSoonNamesSingle(tasks, now);
    var lines := ReminderLines(soon);
    ReminderLinesAreSingle(soon);
    SplitUnderHeading("Tasks due soon:", lines);
    assert "Tasks due soon:" + "\n" == "Tasks due soon:\n";
  }

  /** The message has one line per task due soon after its first line, and
      the no-reminders message is a single line (as long as no task name
      holds a line break; one pasted into the name field or loaded from the
      file may). */
  lemma ReminderLinePerTask(tasks: seq<Task>, now: ValidDateTime)
    requires forall i :: 0 <= i < |tasks| ==> '\n' !in tasks[i].name
    ensures CountNewlines(ReminderNotice(tasks, now).text) == |DueSoon(tasks, now)|
  {
    var soon := DueSoon(tasks, now);
    if soon == [] {
      NoNewlineCount("No tasks are due within the next hour.");
    } else {
      DueSoonNamesSingle(tasks, now);
      var lines := ReminderLines(soon);
      ReminderLinesAreSingle(soon);
      JoinLinesCountsBreaks(lines);
      HeaderCount();
      CountNewlinesAppend("Tasks due soon:\n", JoinLines(lines));
    }
  }

  lemma DueSoonNamesSingle(tasks: seq<Task>, now: ValidDateTime)
    requires forall i :: 0 <= i < |tasks| ==> '\n' !in tasks[i].name
    ensures forall i :: 0 <= i < |DueSoon(tasks, now)| ==> '\n' !in DueSoon(tasks, now)[i].name
  {
    var soon := DueSoon(tasks, now);
    forall i | 0 <= i < |soon| ensures '\n' !in soon[i].name {
      assert soon[i] in soon;
    }
  }

  lemma ReminderLinesAreSingle(soon: seq<Task>)
    requires forall i :: 0 <= i < |soon| ==> '\n' !in soon[i].name
    ensures forall i :: 0 <= i < |soon| ==> '\n' !in ReminderLines(soon)[i]
  {
    forall i | 0 <= i < |soon| ensures '\n' !in ReminderLine(soon[i]) {
      FormatHasNoNewline(soon[i].due);
    }
  }

  lemma HeaderCount()
    ensures CountNewlines("Tasks due soon:\n") == 1
  {
    NoNewlineCount("Tasks due soon:");
    CountNewlinesAppend("Tasks due soon:", "\n");
    assert "Tasks due soon:" + "\n" == "Tasks due soon:\n";
    assert "\n"[..0] == [];
  }

  // ----- The daily schedule -----

  /** The schedule runs from 06:00 to 22:00 in one-hour steps. */
  const FirstSlot: int := 6 * 60
  const LastSlot: int := 22 * 60
  const SlotCount: int := 17

  const EmptySlot: string := "[Empty]"

  /** The label of slot `k` (from 0), the time `FirstSlot` plus `k` hours. */
  function SlotLabel(k: nat): string
    requires k < SlotCount
  {
    ClockLabel(FirstSlot + 60 * k)
  }

  /** Slot `k` (from 0) shows the name of the task at position `k` of the
      list, whatever its due date, or the placeholder when there is none. */
  function SlotName(tasks: seq<Task>, k: nat): string {
    if k < |tasks| then tasks[k].name else EmptySlot
  }

  /** The lines of the schedule, `label: name`, one per slot. */
  function ScheduleLines(tasks: seq<Task>): (lines: seq<string>)
    ensures |lines| == SlotCount
    ensures forall k :: 0 <= k < SlotCount ==> lines[k] == SlotLabel(k) + ": " + SlotName(tasks, k)
  {
    seq(SlotCount, k requires 0 <= k < SlotCount => SlotLabel(k) + ": " + SlotName(tasks, k))
  }

  /** The schedule text: its lines, each ended by a newline. */
  function ScheduleText(tasks: seq<Task>): string {
    Unlines(ScheduleLines(tasks))
  }

  /** The slots are labelled on the hour from 06:00 AM to 10:00 PM: the first
      six in the morning, the rest from 12:00 PM on. */
  lemma SlotLabels()
    ensures SlotLabel(0) == "06:00 AM" && SlotLabel(5) == "11:00 AM"
    ensures SlotLabel(6) == "12:00 PM" && SlotLabel(7) == "01:00 PM"
    ensures SlotLabel(SlotCount - 1) == "10:00 PM"
  {
    SlotLabelIs(0);
    SlotLabelIs(5);
    SlotLabelIs(6);
    SlotLabelIs(7);
    SlotLabelIs(SlotCount - 1);
  }

  /** Slot `k` is labelled with the hour `6 + k` on the 12-hour clock. */
  lemma SlotLabelIs(k: nat)
    requires k < SlotCount
    ensures SlotLabel(k) == HourLabel(if 6 + k > 12 then 6 + k - 12 else 6 + k, 6 + k < 12)
  {
    var hour := 6 + k;
    var hour12 := if hour % 12 == 0 then 12 else hour % 12;
    assert hour12 == if hour > 12 then hour - 12 else hour;
    assert (FirstSlot + 60 * k) / 60 == hour && (FirstSlot + 60 * k) % 60 == 0;
    PaddedTwoDigits(hour12);
    PaddedTwoDigits(0);
  }

  /** The label `HH:00 AM` or `HH:00 PM` for an hour of the 12-hour clock. */
  function HourLabel(hour12: nat, morning: bool): string
    requires hour12 < 100
  {
    [DigitChar(hour12 / 10), DigitChar(hour12 % 10), ':', '0', '0', ' ', if morning then 'A' else 'P', 'M']
  }

  /** Whatever the number of tasks, the schedule has seventeen lines (as
      long as the names it shows hold no line break). */
  lemma ScheduleHasSeventeenLines(tasks: seq<Task>)
    requires forall i :: 0 <= i < |tasks| && i < SlotCount ==> '\n' !in tasks[i].name
    ensures CountNewlines(ScheduleText(tasks)) == SlotCount
  {
    var lines := ScheduleLines(tasks);
    forall k | 0 <= k < SlotCount ensures '\n' !in lines[k] {
      var slot := SlotLabel(k);
      assert lines[k] == slot + ": " + SlotName(tasks, k);
      assert '\n' !in slot;
      assert '\n' !in EmptySlot;
    }
    UnlinesCountsLines(lines);
  }

  /** Tasks after the seventeenth never appear in the schedule. */
  lemma ScheduleIgnoresLaterTasks(tasks: seq<Task>)
    requires |tasks| > SlotCount
    ensures ScheduleText(tasks) == ScheduleText(tasks[..SlotCount])
  {
    assert ScheduleLines(tasks) == ScheduleLines(tasks[..SlotCount]);
  }

  /** With no tasks every slot holds the placeholder. */
  lemma EmptySchedule()
    ensures forall k :: 0 <= k < SlotCount ==> ScheduleLines([])[k] == SlotLabel(k) + ": [Empty]"
  {
  }

  // ----- The report -----

  const NoTasksReport: string := "No tasks available to generate a report."

  function ReportHeader(): string {
    "Task Report\n" + Repeat('=', 50) + "\n"
  }

  /** The report's block for one task. */
  function TaskBlock(t: Task): string {
    "Task: " + t.name + "\nDue Date: " + Format(t.due) + "\nPriority: " + t.priority + "\n"
      + Repeat('-', 50) + "\n"
  }

  /** The blocks of the tasks, in list order. */
  function Blocks(tasks: seq<Task>): string {
    Concat(tasks, TaskBlock)
  }

  /** The report: a fixed message for no tasks, else the header and one block per task. */
  function ReportText(tasks: seq<Task>): string {
    if tasks == [] then NoTasksReport else ReportHeader() + Blocks(tasks)
  }

  /** The report is the fixed message exactly when there are no tasks. */
  lemma ReportEmptyIff(tasks: seq<Task>)
    ensures ReportText(tasks) == NoTasksReport <==> tasks == []
  {
    if tasks != [] {
      assert ReportText(tasks)[0] == 'T' != NoTasksReport[0];
    }
  }

  /** Every task has its block in the report, between the blocks of the
      tasks before it and the blocks of the tasks after it. */
  lemma ReportListsEachTask(tasks: seq<Task>, i: nat)
    requires i < |tasks|
    ensures ReportText(tasks)
            == ReportHeader() + Blocks(tasks[..i]) + TaskBlock(tasks[i]) + Blocks(tasks[i + 1..])
  {
    var before, block, after := Blocks(tasks[..i]), TaskBlock(tasks[i]), Blocks(tasks[i + 1..]);
    ConcatAt(tasks, i, TaskBlock);
    AppendAssociates(ReportHeader(), before + block, after);
    AppendAssociates(ReportHeader(), before, block);
  }

  /** Adding a task adds its block at the end of the report. */
  lemma ReportAfterAdd(tasks: seq<Task>, t: Task)
    ensures ReportText(tasks + [t])
            == (if tasks == [] then ReportHeader() else ReportText(tasks)) + TaskBlock(t)
  {
    ConcatAppend(tasks, [t], TaskBlock);
    ConcatOne(t, TaskBlock);
    if tasks == [] {
      assert tasks + [t] == [t];
    }
  }
}
