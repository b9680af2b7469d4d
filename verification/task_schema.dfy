/**
 * The Task document schema: required fields, the priority and status
 * enumerations with their defaults, and the default for tags, as Mongoose
 * applies them when a task document is built and validated before saving.
 */
module TaskSchema {
  import opened Wrappers

  /** A document identifier (a database ObjectId), kept abstract. */
  datatype ObjectId = ObjectId(value: nat)

  datatype Priority = Low | Medium | High

  datatype Status = ToDo | InProgress | Completed | Blocked

  /** The stored spelling of each priority. */
  function PriorityName(p: Priority): string {
    match p
    case Low => "Low"
    case Medium => "Medium"
    case High => "High"
  }

  /** The stored spelling of each status. */
  function StatusName(st: Status): string {
    match st
    case ToDo => "To Do"
    case InProgress => "In Progress"
    case Completed => "Completed"
    case Blocked => "Blocked"
  }

  /** The enumeration check for `priority`: the member spelled `s`, if any. */
  function ParsePriority(s: string): (r: Option<Priority>)
    ensures forall p :: r == Some(p) <==> PriorityName(p) == s
  {
    if s == "Low" then Some(Low)
    else if s == "Medium" then Some(Medium)
    else if s == "High" then Some(High)
    else None
  }

  /** The enumeration check for `status`: the member spelled `s`, if any. */
  function ParseStatus(s: string): (r: Option<Status>)
    ensures forall st :: r == Some(st) <==> StatusName(st) == s
  {
    if s == "To Do" then Some(ToDo)
    else if s == "In Progress" then Some(InProgress)
    else if s == "Completed" then Some(Completed)
    else if s == "Blocked" then Some(Blocked)
    else None
  }

  /** A validated task document (timestamps left out). */
  datatype Task = Task(
    name: string,
    project: ObjectId,
    team: ObjectId,
    owners: seq<ObjectId>,
    timeToComplete: real,
    priority: Priority,
    status: Status,
    tags: seq<string>)

  /**
   * A task document as a request body supplies it: every field may be
   * missing, and so may each element of `owners`.
   */
  datatype TaskInput = TaskInput(
    name: Option<string>,
    project: Option<ObjectId>,
    team: Option<ObjectId>,
    owners: Option<seq<Option<ObjectId>>>,
    timeToComplete: Option<real>,
    priority: Option<string>,
    status: Option<string>,
    tags: Option<seq<string>>)

  /** The schema path a validation error is reported against. */
  datatype Path = NamePath | ProjectPath | TeamPath | OwnerPath(index: nat) | TimePath | PriorityPath | StatusPath

  /** A required String path rejects a missing value and the empty string. */
  predicate RequiredStringFails(v: Option<string>) {
    v.None? || v.value == ""
  }

  /** An enumerated path accepts a missing value (the default fills it) or one of its members. */
  predicate PriorityFails(v: Option<string>) {
    v.Some? && ParsePriority(v.value).None?
  }

  predicate StatusFails(v: Option<string>) {
    v.Some? && ParseStatus(v.value).None?
  }

  /** The positions of `owners` elements that are missing. */
  function MissingOwners(owners: seq<Option<ObjectId>>): (r: set<Path>)
    ensures forall p :: p in r <==> p.OwnerPath? && p.index < |owners| && owners[p.index].None?
  {
    set i | 0 <= i < |owners| && owners[i].None? :: OwnerPath(i)
  }

  /** The paths other than `owners` elements whose validator fails. */
  function FieldErrors(input: TaskInput): (r: set<Path>)
    ensures NamePath in r <==> RequiredStringFails(input.name)
    ensures ProjectPath in r <==> input.project.None?
    ensures TeamPath in r <==> input.team.None?
    ensures TimePath in r <==> input.timeToComplete.None?
    ensures PriorityPath in r <==> PriorityFails(input.priority)
    ensures StatusPath in r <==> StatusFails(input.status)
    ensures forall p :: p in r ==> !p.OwnerPath?
  {
    (if RequiredStringFails(input.name) then {NamePath} else {})
    + (if input.project.None? then {ProjectPath} else {})
    + (if input.team.None? then {TeamPath} else {})
    + (if input.timeToComplete.None? then {TimePath} else {})
    + (if PriorityFails(input.priority) then {PriorityPath} else {})
    + (if StatusFails(input.status) then {StatusPath} else {})
  }

  /** Every path of `input` whose validator fails; validation reports them all at once. */
  function Errors(input: TaskInput): (r: set<Path>)
    ensures NamePath in r <==> RequiredStringFails(input.name)
    ensures ProjectPath in r <==> input.project.None?
    ensures TeamPath in r <==> input.team.None?
    ensures TimePath in r <==> input.timeToComplete.None?
    ensures PriorityPath in r <==> PriorityFails(input.priority)
    ensures StatusPath in r <==> StatusFails(input.status)
    ensures forall i: nat :: OwnerPath(i) in r <==>
      input.owners.Some? && i < |input.owners.value| && input.owners.value[i].None?
  {
    FieldErrors(input) + MissingOwners(input.owners.GetOr([]))
  }

  /** The `owners` list with every element present. */
  function Present(owners: seq<Option<ObjectId>>): (r: seq<ObjectId>)
    requires forall i :: 0 <= i < |owners| ==> owners[i].Some?
    ensures |r| == |owners|
    ensures forall i :: 0 <= i < |r| ==> owners[i] == Some(r[i])
  {
    seq(|owners|, i requires 0 <= i < |owners| => owners[i].value)
  }

  /** What a successful validation of `input` stores: the supplied values, with defaults for the rest. */
  predicate StoredFrom(t: Task, input: TaskInput) {
    && Some(t.name) == input.name
    && Some(t.project) == input.project
    && Some(t.team) == input.team
    && Some(t.timeToComplete) == input.timeToComplete
    && |t.owners| == |input.owners.GetOr([])|
    && (forall i :: 0 <= i < |t.owners| ==> input.owners.GetOr([])[i] == Some(t.owners[i]))
    && (input.priority.None? ==> t.priority == Medium)
    && (input.priority.Some? ==> PriorityName(t.priority) == input.priority.value)
    && (input.status.None? ==> t.status == ToDo)
    && (input.status.Some? ==> StatusName(t.status) == input.status.value)
    && t.tags == input.tags.GetOr([])
  }

  /**
   * Build a Task from a request body the way the schema does: apply the
   * defaults (`priority` Medium, `status` To Do, `tags` and `owners` empty)
   * to missing fields, then validate, rejecting with the set of failing
   * paths.
   */
  function Validate(input: TaskInput): (r: Result<Task, set<Path>>)
    ensures r.Failure? <==> Errors(input) != {}
    ensures r.Failure? ==> r.error == Errors(input)
    ensures r.Success? ==> StoredFrom(r.value, input)
  {
    var errors := Errors(input);
    if errors != {} then
      Failure(errors)
    else
      var owners := input.owners.GetOr([]);
      assert forall i :: 0 <= i < |owners| ==> OwnerPath(i) !in errors;
      Success(Task(
        input.name.value,
        input.project.value,
        input.team.value,
        Present(owners),
        input.timeToComplete.value,
        if input.priority.None? then Medium else ParsePriority(input.priority.value).value,
        if input.status.None? then ToDo else ParseStatus(input.status.value).value,
        input.tags.GetOr([])))
  }

  /** A body the schema accepts, stated field by field. */
  predicate Acceptable(input: TaskInput) {
    && input.name.Some? && input.name.value != ""
    && input.project.Some?
    && input.team.Some?
    && input.timeToComplete.Some?
    && (input.owners.Some? ==> forall i :: 0 <= i < |input.owners.value| ==> input.owners.value[i].Some?)
    && (input.priority.Some? ==> input.priority.value in {"Low", "Medium", "High"})
    && (input.status.Some? ==> input.status.value in {"To Do", "In Progress", "Completed", "Blocked"})
  }

  /** Validation succeeds exactly on the acceptable bodies. */
  lemma ValidateAcceptsIff(input: TaskInput)
    ensures Validate(input).Success? <==> Acceptable(input)
  {
    if !Acceptable(input) {
      if input.owners.Some? && exists i :: 0 <= i < |input.owners.value| && input.owners.value[i].None? {
        var i :| 0 <= i < |input.owners.value| && input.owners.value[i].None?;
        assert OwnerPath(i) in Errors(input);
      }
    } else {
      forall p | p in Errors(input) ensures false {
      }
    }
  }

  /** A body missing `name`, `project`, `team` or `timeToComplete` is rejected, naming each missing path. */
  lemma MissingRequiredFails(input: TaskInput)
    requires input.name.None? || input.project.None? || input.team.None? || input.timeToComplete.None?
    ensures Validate(input).Failure?
    ensures input.name.None? ==> NamePath in Validate(input).error
    ensures input.project.None? ==> ProjectPath in Validate(input).error
    ensures input.team.None? ==> TeamPath in Validate(input).error
    ensures input.timeToComplete.None? ==> TimePath in Validate(input).error
  {
  }

  /**
   * Omitted `priority`, `status`, `tags` and `owners` take their defaults:
   * Medium, To Do, and two empty lists; in particular an empty owner list
   * is accepted.
   */
  lemma OmittedFieldsDefault(name: string, project: ObjectId, team: ObjectId, time: real)
    requires name != ""
    ensures Validate(TaskInput(Some(name), Some(project), Some(team), None, Some(time), None, None, None))
      == Success(Task(name, project, team, [], time, Medium, ToDo, []))
    ensures Validate(TaskInput(Some(name), Some(project), Some(team), Some([]), Some(time), None, None, None))
      == Success(Task(name, project, team, [], time, Medium, ToDo, []))
  {
    ValidateAcceptsIff(TaskInput(Some(name), Some(project), Some(team), None, Some(time), None, None, None));
    ValidateAcceptsIff(TaskInput(Some(name), Some(project), Some(team), Some([]), Some(time), None, None, None));
  }

  /**
   * Every stored task's priority and status are spelled as members of their
   * enumerations, and a supplied spelling is parsed to the stored member.
   * The first two clauses hold for any `Task`, since `Priority` and `Status`
   * are datatypes with exactly the enumerated members; the last two tie
   * the stored members to the request.
   */
  lemma StoredTaskInEnumerations(input: TaskInput)
    requires Validate(input).Success?
    ensures PriorityName(Validate(input).value.priority) in {"Low", "Medium", "High"}
    ensures StatusName(Validate(input).value.status) in {"To Do", "In Progress", "Completed", "Blocked"}
    ensures input.priority.Some? ==> ParsePriority(input.priority.value) == Some(Validate(input).value.priority)
    ensures input.status.Some? ==> ParseStatus(input.status.value) == Some(Validate(input).value.status)
  {
  }
}
