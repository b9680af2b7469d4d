/**
 * `GET /tasks`: the query parameters are normalised, names are resolved
 * against the store, a filter document is assembled facet by facet, and
 * the tasks matching it are returned. Matching follows the database's
 * query semantics: facets are ANDed, `$in` on an array field asks for
 * some element in the given list, and a scalar facet is plain equality.
 */
module TaskQuery {
  import opened Wrappers
  import opened Strings
  import opened Names
  import opened TaskSchema
  import opened Store

  /** The query parameters the handler reads; each may be absent. */
  datatype Query = Query(team: Option<string>, owners: Option<string>, project: Option<string>,
                         status: Option<string>, tags: Option<string>)

  /** A parameter counts as given when it is present and not the empty string (JavaScript truthiness). */
  predicate Given(p: Option<string>) {
    p.Some? && p.value != ""
  }

  function DecompressAll(names: seq<string>): (r: seq<string>)
    ensures |r| == |names|
    ensures forall i :: 0 <= i < |r| ==> r[i] == Decompress(names[i])
  {
    seq(|names|, i requires 0 <= i < |names| => Decompress(names[i]))
  }

  /** The comma-separated names of a list parameter, each decompressed; none when it is not given. */
  function NameList(p: Option<string>): (r: seq<string>)
    ensures Given(p) ==> |r| == |Split(p.value, ',')| > 0
    ensures Given(p) ==> forall i :: 0 <= i < |r| ==> r[i] == Decompress(Split(p.value, ',')[i])
    ensures !Given(p) ==> r == []
  {
    if Given(p) then DecompressAll(Split(p.value, ',')) else []
  }

  /** A list parameter without a comma names one name. */
  lemma SingleName(p: string)
    requires p != "" && ',' !in p
    ensures NameList(Some(p)) == [Decompress(p)]
  {
    SplitWithoutSeparator(p, ',');
  }

  /** No user bears a listed name, so the lookup finds nobody. */
  lemma {:induction false} UsersNamedNone(users: seq<UserDoc>, names: seq<string>)
    requires forall u :: u in users ==> u.name !in names
    ensures UsersNamed(users, names) == []
    decreases |users|
  {
    if |users| > 0 {
      assert forall u :: u in users[1..] ==> u in users;
      UsersNamedNone(users[1..], names);
    }
  }

  /** `User.find({ name: { $in: names } })`: the users whose name is listed, in store order. */
  function UsersNamed(users: seq<UserDoc>, names: seq<string>): (r: seq<UserDoc>)
    ensures forall u :: u in r <==> u in users && u.name in names
    decreases |users|
  {
    if |users| == 0 then []
    else
      var rest := UsersNamed(users[1..], names);
      assert forall u :: u in users <==> u == users[0] || u in users[1..];
      if users[0].name in names then [users[0]] + rest else rest
  }

  function Ids(users: seq<UserDoc>): (r: seq<ObjectId>)
    ensures forall id :: id in r <==> exists u :: u in users && u.id == id
  {
    var r := seq(|users|, i requires 0 <= i < |users| => users[i].id);
    assert forall id :: id in r ==> exists i :: 0 <= i < |users| && users[i].id == id;
    assert forall i :: 0 <= i < |users| ==> r[i] == users[i].id;
    r
  }

  /** `findOne({ name })` on teams or projects: the first document with that name, if any. */
  function TeamNamed(teams: seq<TeamDoc>, name: string): (r: Option<TeamDoc>)
    ensures r.None? <==> !KeyTaken(teams, TeamName, name)
    ensures r.Some? ==>
      exists k :: 0 <= k < |teams| && teams[k] == r.value && teams[k].name == name
        && forall i :: 0 <= i < k ==> teams[i].name != name
  {
    match FindFirst(teams, (t: TeamDoc) => t.name == name)
    case None => None
    case Some(k) => Some(teams[k])
  }

  function ProjectNamed(projects: seq<ProjectDoc>, name: string): (r: Option<ProjectDoc>)
    ensures r.None? <==> !KeyTaken(projects, ProjectName, name)
    ensures r.Some? ==>
      exists k :: 0 <= k < |projects| && projects[k] == r.value && projects[k].name == name
        && forall i :: 0 <= i < k ==> projects[i].name != name
  {
    match FindFirst(projects, (p: ProjectDoc) => p.name == name)
    case None => None
    case Some(k) => Some(projects[k])
  }

  /** The filter document handed to `Task.find`; an absent facet constrains nothing. */
  datatype Filter = Filter(owners: Option<seq<ObjectId>>, tags: Option<seq<string>>,
                           project: Option<ObjectId>, team: Option<ObjectId>, status: Option<string>)

  const NoFilter := Filter(None, None, None, None, None)

  /** `{ field: { $in: values } }` on an array field: some element of the field is among the values. */
  predicate AnyIn<T(==)>(field: seq<T>, values: seq<T>) {
    exists i :: 0 <= i < |field| && field[i] in values
  }

  /** Whether a task document satisfies a filter. */
  predicate Matches(t: Task, f: Filter) {
    && (f.owners.Some? ==> AnyIn(t.owners, f.owners.value))
    && (f.tags.Some? ==> AnyIn(t.tags, f.tags.value))
    && (f.project.Some? ==> t.project == f.project.value)
    && (f.team.Some? ==> t.team == f.team.value)
    && (f.status.Some? ==> StatusName(t.status) == f.status.value)
  }

  /**
   * The handler's filter construction. The owners facet is set whenever
   * `owners` is given, even when no user is found; the team and project
   * facets are dropped when the name is not found; tags are matched by
   * name; the status is decompressed and matched exactly.
   */
  function BuildFilter(q: Query, s: Store): (f: Filter)
    ensures f.owners.Some? <==> Given(q.owners)
    ensures f.owners.Some? ==> forall id :: id in f.owners.value <==>
      exists u :: u in s.users && u.name in NameList(q.owners) && u.id == id
    ensures f.tags.Some? <==> Given(q.tags)
    ensures f.tags.Some? ==> f.tags.value == NameList(q.tags)
    ensures f.team.Some? <==> Given(q.team) && KeyTaken(s.teams, TeamName, q.team.value)
    ensures f.team.Some? ==> TeamNamed(s.teams, q.team.value).value.id == f.team.value
    ensures f.project.Some? <==> Given(q.project) && KeyTaken(s.projects, ProjectName, q.project.value)
    ensures f.project.Some? ==> ProjectNamed(s.projects, q.project.value).value.id == f.project.value
    ensures f.status.Some? <==> Given(q.status)
    ensures f.status.Some? ==> f.status.value == Decompress(q.status.value)
  {
    var ownerNames := NameList(q.owners);
    var tagNames := NameList(q.tags);
    var ownerDetail := if |ownerNames| > 0 then UsersNamed(s.users, ownerNames) else [];
    var teamDetail := if Given(q.team) then TeamNamed(s.teams, q.team.value) else None;
    var projectDetail := if Given(q.project) then ProjectNamed(s.projects, q.project.value) else None;
    Filter(
      owners := if Given(q.owners) then Some(Ids(ownerDetail)) else None,
      tags := if Given(q.tags) then Some(tagNames) else None,
      project := if Given(q.project) && projectDetail.Some? then Some(projectDetail.value.id) else None,
      team := if Given(q.team) && teamDetail.Some? then Some(teamDetail.value.id) else None,
      status := if Given(q.status) then Some(Decompress(q.status.value)) else None)
  }

  /** `Task.find(filter)`: the matching tasks, in store order. */
  function Select(tasks: seq<Task>, f: Filter): (r: seq<Task>)
    ensures forall t :: t in r <==> t in tasks && Matches(t, f)
    ensures |r| <= |tasks|
    ensures (forall i :: 0 <= i < |tasks| ==> Matches(tasks[i], f)) ==> r == tasks
    decreases |tasks|
  {
    if |tasks| == 0 then []
    else
      var rest := Select(tasks[1..], f);
      assert forall t :: t in tasks <==> t == tasks[0] || t in tasks[1..];
      assert (forall i :: 0 <= i < |tasks| ==> Matches(tasks[i], f)) ==>
        forall i :: 0 <= i < |tasks[1..]| ==> Matches(tasks[1..][i], f) by {
        assert forall i :: 0 <= i < |tasks[1..]| ==> tasks[1..][i] == tasks[i + 1];
      }
      assert tasks == [tasks[0]] + tasks[1..];
      if Matches(tasks[0], f) then [tasks[0]] + rest else rest
  }

  /** A matching task is selected as often as it is stored, any other not at all. */
  lemma {:induction false} SelectCounts(tasks: seq<Task>, f: Filter)
    ensures forall t :: multiset(Select(tasks, f))[t] == if Matches(t, f) then multiset(tasks)[t] else 0
    decreases |tasks|
  {
    if |tasks| > 0 {
      SelectCounts(tasks[1..], f);
      assert tasks == [tasks[0]] + tasks[1..];
      assert multiset(tasks) == multiset{tasks[0]} + multiset(tasks[1..]);
    }
  }

  /** A one-task store lists its task exactly when the task matches. */
  lemma SelectOne(t: Task, f: Filter)
    ensures Select([t], f) == if Matches(t, f) then [t] else []
  {
    assert [t][1..] == [];
  }

  /**
   * Selecting from two stretches of the store one after the other selects
   * from the whole: the answer keeps the store's order.
   */
  lemma {:induction false} SelectConcat(a: seq<Task>, b: seq<Task>, f: Filter)
    ensures Select(a + b, f) == Select(a, f) + Select(b, f)
    decreases |a|
  {
    if |a| > 0 {
      assert (a + b)[0] == a[0];
      assert (a + b)[1..] == a[1..] + b;
      SelectConcat(a[1..], b, f);
    } else {
      assert a + b == b;
    }
  }

  /**
   * The tasks `GET /tasks` answers for query `q` over store `s`: a stored
   * task satisfying the query is listed as often as it is stored, any
   * other task not at all.
   */
  function ListTasks(s: Store, q: Query): (r: seq<Task>)
    ensures forall t :: t in r <==> t in s.tasks && Satisfies(t, q, s)
    ensures forall t :: multiset(r)[t] == if Satisfies(t, q, s) then multiset(s.tasks)[t] else 0
  {
    MatchesIff(s, q);
    SelectCounts(s.tasks, BuildFilter(q, s));
    Select(s.tasks, BuildFilter(q, s))
  }

  /** Some owner of `t` is a user bearing one of `names`. */
  predicate OwnedByNamed(t: Task, users: seq<UserDoc>, names: seq<string>) {
    exists i, u :: 0 <= i < |t.owners| && u in users && u.name in names && u.id == t.owners[i]
  }

  /**
   * The meaning of a query, read off the handler facet by facet: the task
   * has an owner among the users bearing a requested name; has a requested
   * tag; belongs to the first project and team of the requested names
   * when those exist; and has the decompressed status.
   */
  predicate Satisfies(t: Task, q: Query, s: Store) {
    && (Given(q.owners) ==> OwnedByNamed(t, s.users, NameList(q.owners)))
    && (Given(q.tags) ==> exists i :: 0 <= i < |t.tags| && t.tags[i] in NameList(q.tags))
    && (Given(q.project) && KeyTaken(s.projects, ProjectName, q.project.value) ==>
          t.project == ProjectNamed(s.projects, q.project.value).value.id)
    && (Given(q.team) && KeyTaken(s.teams, TeamName, q.team.value) ==>
          t.team == TeamNamed(s.teams, q.team.value).value.id)
    && (Given(q.status) ==> StatusName(t.status) == Decompress(q.status.value))
  }

  /** `$in` over the resolved owner ids means an owner bearing a requested name. */
  lemma OwnersFacetMeaning(t: Task, users: seq<UserDoc>, names: seq<string>, ids: seq<ObjectId>)
    requires forall id :: id in ids <==> exists u :: u in users && u.name in names && u.id == id
    ensures AnyIn(t.owners, ids) <==> OwnedByNamed(t, users, names)
  {
    if AnyIn(t.owners, ids) {
      var i :| 0 <= i < |t.owners| && t.owners[i] in ids;
      var u :| u in users && u.name in names && u.id == t.owners[i];
    }
    if OwnedByNamed(t, users, names) {
      var i, u :| 0 <= i < |t.owners| && u in users && u.name in names && u.id == t.owners[i];
      assert t.owners[i] in ids;
    }
  }

  /**
   * The filter the handler builds matches a task exactly when the task
   * satisfies the query. `Satisfies` reads the tags, project, team and
   * status facets with the same lookups and decompression the filter is
   * built from, so those facets agree by definition; the owners facet is
   * where `$in` over resolved ids is related to owners bearing a name.
   */
  lemma MatchesIff(s: Store, q: Query)
    ensures forall t :: Matches(t, BuildFilter(q, s)) <==> Satisfies(t, q, s)
  {
    var f := BuildFilter(q, s);
    forall t ensures Matches(t, f) <==> Satisfies(t, q, s) {
      if Given(q.owners) {
        OwnersFacetMeaning(t, s.users, NameList(q.owners), f.owners.value);
      }
    }
  }

  lemma {:induction false} NothingMatchesSelectsNone(tasks: seq<Task>, f: Filter)
    requires forall i :: 0 <= i < |tasks| ==> !Matches(tasks[i], f)
    ensures Select(tasks, f) == []
    decreases |tasks|
  {
    if |tasks| > 0 {
      assert forall i :: 0 <= i < |tasks[1..]| ==> tasks[1..][i] == tasks[i + 1];
      NothingMatchesSelectsNone(tasks[1..], f);
    }
  }

  /**
   * When `owners` is given but no user bears any of the names, the owners
   * facet is an empty `$in` list and no task is listed.
   */
  lemma UnresolvedOwnersMatchNothing(s: Store, q: Query)
    requires Given(q.owners)
    requires forall u :: u in s.users ==> u.name !in NameList(q.owners)
    ensures BuildFilter(q, s).owners == Some([])
    ensures ListTasks(s, q) == []
  {
    var f := BuildFilter(q, s);
    UsersNamedNone(s.users, NameList(q.owners));
    assert Ids([]) == [];
    NothingMatchesSelectsNone(s.tasks, f);
  }

  /** A team name that resolves to nothing is dropped: the answer is as if `team` were absent. */
  lemma UnresolvedTeamIsDropped(s: Store, q: Query)
    requires Given(q.team) && !KeyTaken(s.teams, TeamName, q.team.value)
    ensures BuildFilter(q, s) == BuildFilter(q.(team := None), s)
    ensures ListTasks(s, q) == ListTasks(s, q.(team := None))
  {
  }

  /** A project name that resolves to nothing is dropped: the answer is as if `project` were absent. */
  lemma UnresolvedProjectIsDropped(s: Store, q: Query)
    requires Given(q.project) && !KeyTaken(s.projects, ProjectName, q.project.value)
    ensures BuildFilter(q, s) == BuildFilter(q.(project := None), s)
    ensures ListTasks(s, q) == ListTasks(s, q.(project := None))
  {
  }

  /** With no parameter given, the filter is empty and every task is listed, in store order. */
  lemma NoParametersListsAll(s: Store, q: Query)
    requires !Given(q.team) && !Given(q.owners) && !Given(q.project) && !Given(q.status) && !Given(q.tags)
    ensures BuildFilter(q, s) == NoFilter
    ensures ListTasks(s, q) == s.tasks
  {
  }

  /** `f2` constrains at least the facets `f1` constrains, to the same values. */
  predicate Refines(f2: Filter, f1: Filter) {
    && (f1.owners.Some? ==> f2.owners == f1.owners)
    && (f1.tags.Some? ==> f2.tags == f1.tags)
    && (f1.project.Some? ==> f2.project == f1.project)
    && (f1.team.Some? ==> f2.team == f1.team)
    && (f1.status.Some? ==> f2.status == f1.status)
  }

  /** Facets are ANDed, so a refined filter selects a subset. */
  lemma {:induction false} RefinedSelectsSubset(tasks: seq<Task>, f1: Filter, f2: Filter)
    requires Refines(f2, f1)
    ensures forall t :: t in Select(tasks, f2) ==> t in Select(tasks, f1)
    ensures |Select(tasks, f2)| <= |Select(tasks, f1)|
    decreases |tasks|
  {
    if |tasks| > 0 {
      RefinedSelectsSubset(tasks[1..], f1, f2);
    }
  }

  /** `q2` gives every parameter `q1` gives, with the same value, and possibly more. */
  predicate Extends(q2: Query, q1: Query) {
    && (Given(q1.team) ==> q2.team == q1.team)
    && (Given(q1.owners) ==> q2.owners == q1.owners)
    && (Given(q1.project) ==> q2.project == q1.project)
    && (Given(q1.status) ==> q2.status == q1.status)
    && (Given(q1.tags) ==> q2.tags == q1.tags)
  }

  /** Giving more parameters never lists more tasks. */
  lemma MoreParametersListFewer(s: Store, q1: Query, q2: Query)
    requires Extends(q2, q1)
    ensures forall t :: t in ListTasks(s, q2) ==> t in ListTasks(s, q1)
    ensures |ListTasks(s, q2)| <= |ListTasks(s, q1)|
  {
    var f1, f2 := BuildFilter(q1, s), BuildFilter(q2, s);
    if f1.owners.Some? {
      assert f2.owners.Some?;
      forall id ensures id in f2.owners.value <==> id in f1.owners.value {
      }
    }
    assert Refines(f2, f1);
    RefinedSelectsSubset(s.tasks, f1, f2);
  }
}
