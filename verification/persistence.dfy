/** The saved form of the task list: one record per task, in list order,
    with the due date written as text in the `%Y-%m-%d %H:%M` format.
    Reading the file and decoding its JSON are not part of this model;
    a record is what one array element of the file holds. */
module Persistence {
  import opened Wrappers
  import opened DateTime
  import opened DateFormat
  import opened Tasks

  /** One saved task: the `task`, `due_date` and `priority` members. */
  datatype Record = Record(task: string, dueDate: string, priority: string)

  /** The record saved for one task: its name and priority as they are, its
      due date as text that parses back to it. */
  function ToRecord(t: Task): (r: Record)
    ensures r.task == t.name && r.priority == t.priority
    ensures Parse(r.dueDate) == Success(t.due)
  {
    DueDateRoundTrip(t.due);
    Record(t.name, Format(t.due), t.priority)
  }

  /** What saving writes: the records of the tasks, one for each, in order. */
  function Serialize(tasks: seq<Task>): (records: seq<Record>)
    ensures |records| == |tasks|
    ensures forall i :: 0 <= i < |tasks| ==>
              records[i].task == tasks[i].name && records[i].priority == tasks[i].priority
              && Parse(records[i].dueDate) == Success(tasks[i].due)
  {
    if tasks == [] then []
    else
      var first, rest := ToRecord(tasks[0]), Serialize(tasks[1..]);
      assert forall i :: 1 <= i < |tasks| ==> ([first] + rest)[i] == rest[i - 1] && tasks[i] == tasks[1..][i - 1];
      [first] + rest
  }

  /** Loading stops at the first record whose due date does not parse. */
  datatype LoadError = BadDueDate(index: nat, cause: ParseError)

  /** What loading yields when due dates are read by `parse`: the tasks of
      the records, in order, or the error of the first record whose due
      date `parse` refuses. */
  function DecodeWith(records: seq<Record>, parse: string -> Result<DueDate, ParseError>)
    : (r: Result<seq<Task>, LoadError>)
    ensures r.Success? <==> forall i :: 0 <= i < |records| ==> parse(records[i].dueDate).Success?
    ensures r.Success? ==>
              && |r.value| == |records|
              && forall i :: 0 <= i < |records| ==>
                   r.value[i] == Task(records[i].task, parse(records[i].dueDate).value, records[i].priority)
    ensures r.Failure? ==>
              && r.error.index < |records|
              && parse(records[r.error.index].dueDate) == Failure(r.error.cause)
              && forall j :: 0 <= j < r.error.index ==> parse(records[j].dueDate).Success?
  {
    if records == [] then Success([])
    else
      var head := records[0];
      match parse(head.dueDate)
      case Failure(e) => Failure(BadDueDate(0, e))
      case Success(due) =>
        match DecodeWith(records[1..], parse)
        case Failure(e) => Failure(BadDueDate(e.index + 1, e.cause))
        case Success(rest) => Success([Task(head.task, due, head.priority)] + rest)
  }

  /** Loading reads the records in order: one more record whose due date
      reads adds its task at the end. */
  lemma DecodeExtends(records: seq<Record>, i: nat, parse: string -> Result<DueDate, ParseError>)
    requires i < |records|
    requires DecodeWith(records[..i], parse).Success?
    requires parse(records[i].dueDate).Success?
    ensures DecodeWith(records[..i + 1], parse)
            == Success(DecodeWith(records[..i], parse).value
                       + [Task(records[i].task, parse(records[i].dueDate).value, records[i].priority)])
  {
    var prefix := records[..i + 1];
    assert forall j :: 0 <= j < i ==> prefix[j] == records[..i][j];
    var r := DecodeWith(prefix, parse);
    assert r.Success?;
    assert r.value == DecodeWith(records[..i], parse).value
                      + [Task(records[i].task, parse(records[i].dueDate).value, records[i].priority)];
  }

  /** Loading stops at the first record whose due date does not read, and
      reports its position. */
  lemma DecodeStopsAt(records: seq<Record>, i: nat, parse: string -> Result<DueDate, ParseError>)
    requires i < |records|
    requires DecodeWith(records[..i], parse).Success?
    requires parse(records[i].dueDate).Failure?
    ensures DecodeWith(records, parse) == Failure(BadDueDate(i, parse(records[i].dueDate).error))
  {
    assert forall j :: 0 <= j < i ==> records[..i][j] == records[j];
    var r := DecodeWith(records, parse);
    assert r.Failure?;
    assert r.error.index == i;
  }

  /** What loading yields: due dates are read in the `%Y-%m-%d %H:%M` format. */
  function Decode(records: seq<Record>): Result<seq<Task>, LoadError> {
    DecodeWith(records, Parse)
  }

  /** Saving and loading again gives back the same tasks. */
  lemma SaveThenLoad(tasks: seq<Task>)
    ensures Decode(Serialize(tasks)) == Success(tasks)
  {
    var r := Decode(Serialize(tasks));
    assert r.Success?;
    assert r.value == tasks;
  }

  /** Loading a file that loads and saving again writes the same records. */
  lemma LoadThenSave(records: seq<Record>)
    requires Decode(records).Success?
    ensures Serialize(Decode(records).value) == records
  {
    var tasks := Decode(records).value;
    var saved := Serialize(tasks);
    forall i | 0 <= i < |records|
      ensures saved[i] == records[i]
    {
      var due := Parse(records[i].dueDate);
      assert due.Success? && tasks[i] == Task(records[i].task, due.value, records[i].priority);
      ParseThenFormat(records[i].dueDate);
      ParseThenFormat(saved[i].dueDate);
    }
  }
}
