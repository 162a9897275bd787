/** The application's task list and the operations its buttons run, with
    the window, the dialogs, the clock and the file left out: what the user
    typed, the answer to the priority question, the selected rows and the
    current time are parameters, and what would be displayed is returned. */
module Reminder {
  import opened Wrappers
  import opened DateTime
  import opened DateFormat
  import opened Text
  import opened Tasks
  import opened Persistence
  import opened Removal
  import opened Views

  /** What the remove button reports: a warning that nothing is selected,
      success, or the `IndexError` of a pop past the end of the list. */
  datatype RemoveOutcome = NoSelection | Removed | PopOutOfRange(index: nat)

  class ReminderApp {
    /** The tasks in the order they were added. The displayed list is
        redrawn from them after each add and each completed removal; a
        removal that stops at an `IndexError` skips the redraw, so the rows
        can then lag behind. The selected positions are taken as given. */
    var tasks: seq<Task>

    constructor ()
      ensures tasks == []
    {
      tasks := [];
    }

    /** Loading at start-up: nothing when there is no file; otherwise each
        record's due date is parsed in turn, and the first that does not
        parse stops the load with its error. */
    method LoadTasks(file: Option<seq<Record>>) returns (error: Option<LoadError>)
      modifies this
      ensures file.None? ==> error.None? && tasks == old(tasks)
      ensures file.Some? && Decode(file.value).Success? ==>
                error.None? && tasks == Decode(file.value).value
      ensures file.Some? && Decode(file.value).Failure? ==>
                error == Some(Decode(file.value).error) && tasks == old(tasks)
    {
      if file.None? {
        return None;
      }
      var records := file.value;
      var loaded: seq<Task> := [];
      for i := 0 to |records|
        invariant Decode(records[..i]) == Success(loaded)
        invariant tasks == old(tasks)
      {
        var record := records[i];
        var due := Parse(record.dueDate);
        if due.Failure? {
          DecodeStopsAt(records, i, Parse);
          return Some(BadDueDate(i, due.error));
        }
        DecodeExtends(records, i, Parse);
        loaded := loaded + [Task(record.task, due.value, record.priority)];
      }
      assert records[..|records|] == records;
      tasks := loaded;
      return None;
    }

    /** The add button: the name and due date are stripped and checked, the
        priority question is asked only once they pass, and the new task goes
        at the end of the list. A refused task leaves the list as it was. */
    method AddTask(nameInput: string, dueInput: string, now: ValidDateTime,
                   priorityAnswer: Option<string>) returns (error: Option<AddError>)
      modifies this
      ensures var r := NewTask(nameInput, dueInput, now, priorityAnswer);
              && (r.Success? ==> error.None? && tasks == old(tasks) + [r.value])
              && (r.Failure? ==> error == Some(r.error) && tasks == old(tasks))
    {
      var name := Strip(nameInput);
      var dueText := Strip(dueInput);
      if name == [] {
        return Some(EmptyName);
      }
      var due := Parse(dueText);
      if due.Failure? {
        return Some(InvalidDateFormat);
      }
      if Before(due.value, now) {
        return Some(PastDue);
      }
      var priority := PriorityOrDefault(priorityAnswer);
      tasks := tasks + [Task(name, due.value, priority)];
      return None;
    }

    /** The remove button as written: each selected row's position, taken
        from the list as it was displayed, is popped in turn from the list
        as it now is. A pop past the end stops the removal, after the
        earlier pops. */
    method RemoveTask(selection: seq<nat>) returns (outcome: RemoveOutcome)
      modifies this
      ensures selection == [] ==> outcome == NoSelection && tasks == old(tasks)
      ensures selection != [] ==>
                && tasks == PopEach(old(tasks), selection).remaining
                && (PopEach(old(tasks), selection).Completed? ==> outcome == Removed)
                && (PopEach(old(tasks), selection).IndexError? ==>
                      outcome == PopOutOfRange(PopEach(old(tasks), selection).index))
    {
      if selection == [] {
        return NoSelection;
      }
      var i := 0;
      while i < |selection|
        invariant 0 <= i <= |selection|
        invariant PopEach(old(tasks), selection) == PopEach(tasks, selection[i..])
      {
        var index := selection[i];
        if index >= |tasks| {
          return PopOutOfRange(index);
        }
        assert selection[i..][1..] == selection[i + 1..];
        tasks := Pop(tasks, index);
        i := i + 1;
      }
      return Removed;
    }

    /** Removing the selected rows as intended: the positions are popped
        from the highest down, so each still names the task it named when
        the rows were selected. */
    method RemoveSelected(selection: set<nat>)
      modifies this
      ensures tasks == Keep(old(tasks), selection)
    {
      ghost var original := tasks;
      var k := |tasks|;
      while k > 0
        invariant 0 <= k <= |original|
        invariant tasks == original[..k] + KeepFrom(original, selection, k)
      {
        k := k - 1;
        KeepStepDown(original, selection, k);
        if k in selection {
          tasks := Pop(tasks, k);
        }
      }
    }

    /** The schedule button: the slot labels from 06:00 to 22:00 an hour
        apart, then one line per slot with the task at the same position. */
    method CreateDailySchedule() returns (text: string)
      ensures text == ScheduleText(tasks)
    {
      var schedule: seq<string> := [];
      var current := FirstSlot;
      while current <= LastSlot
        invariant |schedule| <= SlotCount
        invariant current == FirstSlot + 60 * |schedule|
        invariant forall k :: 0 <= k < |schedule| ==> schedule[k] == SlotLabel(k)
      {
        schedule := schedule + [ClockLabel(current)];
        current := current + 60;
      }
      assert |schedule| == SlotCount;
      ghost var lines := ScheduleLines(tasks);
      text := "";
      var idx := 1;
      while idx <= |schedule|
        invariant 1 <= idx <= |schedule| + 1
        invariant text == Unlines(lines[..idx - 1])
      {
        var name := if idx <= |tasks| then tasks[idx - 1].name else EmptySlot;
        var line := schedule[idx - 1] + ": " + name;
        assert line == lines[idx - 1];
        UnlinesPrefixStep(lines, idx - 1);
        text := text + line + "\n";
        idx := idx + 1;
      }
      assert lines[..SlotCount] == lines;
    }

    /** The report button: the fixed message for an empty list, otherwise
        the header and one block per task. */
    method GenerateReport() returns (text: string)
      ensures text == ReportText(tasks)
    {
      if tasks == [] {
        return NoTasksReport;
      }
      text := ReportHeader();
      for i := 0 to |tasks|
        invariant text == ReportHeader() + Blocks(tasks[..i])
      {
        ConcatPrefixStep(tasks, i, TaskBlock);
        AppendAssociates(ReportHeader(), Blocks(tasks[..i]), TaskBlock(tasks[i]));
        text := text + TaskBlock(tasks[i]);
      }
      assert tasks[..|tasks|] == tasks;
    }
  }
}
