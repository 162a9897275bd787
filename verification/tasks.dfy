/** A task and the rules a new task must pass before it is stored. */
module Tasks {
  import opened Wrappers
  import opened DateTime
  import opened DateFormat
  import opened Text

  /** A stored task: its name, its due date (to the minute) and its
      priority, free text that is normally High, Medium or Low. */
  datatype Task = Task(name: string, due: DueDate, priority: string)

  const DefaultPriority: string := "Low"

  /** Why a new task is refused, each shown to the user as an error. */
  datatype AddError = EmptyName | InvalidDateFormat | PastDue {
    function Message(): string {
      match this
      case EmptyName => "Task name cannot be empty."
      case InvalidDateFormat => "Invalid date format. Please use YYYY-MM-DD HH:MM."
      case PastDue => "Due date cannot be in the past."
    }
  }

  /** The answer to the priority question, or "Low" when the question was
      cancelled (no answer) or answered with nothing. */
  function PriorityOrDefault(answer: Option<string>): (p: string)
    ensures p != []
    ensures answer.Some? && answer.value != [] ==> p == answer.value
    ensures answer.None? || answer.value == [] ==> p == DefaultPriority
  {
    if answer.Some? && answer.value != [] then answer.value else DefaultPriority
  }

  /** The task built from the entered name and due date, checked in the
      order the application checks them: the stripped name must not be
      empty, the stripped due date must be in the format, and it must not
      be earlier than `now`. */
  function NewTask(nameInput: string, dueInput: string, now: ValidDateTime,
                   priorityAnswer: Option<string>): (r: Result<Task, AddError>)
    ensures r == Failure(EmptyName) <==> AllSpace(nameInput)
    ensures r == Failure(InvalidDateFormat) <==>
              !AllSpace(nameInput) && Parse(Strip(dueInput)).Failure?
    ensures r == Failure(PastDue) <==>
              && !AllSpace(nameInput) && Parse(Strip(dueInput)).Success?
              && Before(Parse(Strip(dueInput)).value, now)
    ensures r.Success? ==>
              && r.value.name == Strip(nameInput) && r.value.name != []
              && Format(r.value.due) == Strip(dueInput)
              && !Before(r.value.due, now)
              && r.value.priority == PriorityOrDefault(priorityAnswer)
  {
    var name := Strip(nameInput);
    if name == [] then Failure(EmptyName)
    else
      var parsed := Parse(Strip(dueInput));
      if parsed.Failure? then Failure(InvalidDateFormat)
      else if Before(parsed.value, now) then Failure(PastDue)
      else
        ParseThenFormat(Strip(dueInput));
        Success(Task(name, parsed.value, PriorityOrDefault(priorityAnswer)))
  }

  /** A due date equal to `now` is accepted: only a strictly earlier one is refused. */
  lemma DueNowAccepted(nameInput: string, dueInput: string, now: DueDate, answer: Option<string>)
    requires !AllSpace(nameInput)
    requires Parse(Strip(dueInput)) == Success(now)
    ensures NewTask(nameInput, dueInput, now, answer).Success?
  {
  }

  /** An accepted task is due no earlier than the moment it was added. */
  lemma AcceptedNotOverdue(nameInput: string, dueInput: string, now: ValidDateTime, answer: Option<string>)
    requires NewTask(nameInput, dueInput, now, answer).Success?
    ensures Elapsed(now, NewTask(nameInput, dueInput, now, answer).value.due) >= 0
  {
    BeforeIffEarlier(NewTask(nameInput, dueInput, now, answer).value.due, now);
  }
}
