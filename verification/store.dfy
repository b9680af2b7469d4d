/**
 * The document store as the handlers see it, and the handlers that change
 * it: signup, team creation and project creation (each guarded by a
 * uniqueness lookup), adding a team member, and task creation. Each
 * collection is a sequence of documents in insertion order, which is the
 * order a `findOne` scan meets them in. The handlers give the replies the
 * code evidently intends; the `AsWritten` variants give the replies the
 * code sends when the `populate` after a save throws.
 */
module Store {
  import opened Wrappers
  import opened TaskSchema

  datatype UserDoc = UserDoc(id: ObjectId, name: string, email: string)

  datatype TeamDoc = TeamDoc(id: ObjectId, name: string, description: Option<string>, members: seq<ObjectId>)

  datatype ProjectDoc = ProjectDoc(id: ObjectId, name: string, description: Option<string>)

  datatype Store = Store(users: seq<UserDoc>, teams: seq<TeamDoc>, projects: seq<ProjectDoc>, tasks: seq<Task>)

  /** What a handler sends back (status code and message) and the store it leaves behind. */
  datatype Reply = Reply(code: int, message: string, store: Store)

  /**
   * Some document of `docs` has key `k`: what `findOne({ key: k })` (or
   * `findById(k)` with the `_id` as key) finding a document means.
   */
  predicate KeyTaken<D, K(==)>(docs: seq<D>, key: D -> K, k: K) {
    exists i :: 0 <= i < |docs| && key(docs[i]) == k
  }

  /** No two documents of `docs` share a key: the invariant a `unique` index keeps. */
  predicate KeysUnique<D, K(==)>(docs: seq<D>, key: D -> K) {
    forall i, j :: 0 <= i < j < |docs| ==> key(docs[i]) != key(docs[j])
  }

  /** The outcome of inserting a document whose key must be new. */
  datatype Insertion<D> = Duplicate | IdClash | Inserted(docs: seq<D>)

  /**
   * Look the key up first and refuse when it is taken; otherwise save the
   * document, which fails only if its `_id` is already in use.
   */
  function GuardedInsert<D>(docs: seq<D>, key: D -> string, id: D -> ObjectId, doc: D): (r: Insertion<D>)
    ensures r.Duplicate? <==> KeyTaken(docs, key, key(doc))
    ensures r.IdClash? <==> !KeyTaken(docs, key, key(doc)) && KeyTaken(docs, id, id(doc))
    ensures r.Inserted? ==>
      && |r.docs| == |docs| + 1
      && r.docs[..|docs|] == docs
      && r.docs[|docs|] == doc
      && (forall i :: 0 <= i < |r.docs| ==> (key(r.docs[i]) == key(doc) <==> i == |docs|))
  {
    if KeyTaken(docs, key, key(doc)) then Duplicate
    else if KeyTaken(docs, id, id(doc)) then IdClash
    else
      assert (docs + [doc])[..|docs|] == docs;
      Inserted(docs + [doc])
  }

  /**
   * A guarded insert keeps both the keys and the `_id`s of a collection
   * unique: the lookup refuses a taken key, the save a taken `_id`.
   */
  lemma GuardedInsertKeepsKeysUnique<D>(docs: seq<D>, key: D -> string, id: D -> ObjectId, doc: D)
    requires KeysUnique(docs, key) && KeysUnique(docs, id)
    ensures GuardedInsert(docs, key, id, doc).Inserted? ==>
      var after := GuardedInsert(docs, key, id, doc).docs;
      KeysUnique(after, key) && KeysUnique(after, id)
  {
    var r := GuardedInsert(docs, key, id, doc);
    if r.Inserted? {
      forall i, j | 0 <= i < j < |r.docs| ensures key(r.docs[i]) != key(r.docs[j]) && id(r.docs[i]) != id(r.docs[j]) {
        assert r.docs[i] == docs[i];
        if j < |docs| {
          assert r.docs[j] == docs[j];
        }
      }
    }
  }

  function UserEmail(u: UserDoc): string { u.email }
  function UserId(u: UserDoc): ObjectId { u.id }
  function TeamName(t: TeamDoc): string { t.name }
  function TeamId(t: TeamDoc): ObjectId { t.id }
  function ProjectName(p: ProjectDoc): string { p.name }
  function ProjectId(p: ProjectDoc): ObjectId { p.id }

  /**
   * The uniqueness the handlers maintain: user e-mails, team names and
   * project names, and the `_id`s of each collection.
   */
  predicate Consistent(s: Store) {
    && KeysUnique(s.users, UserEmail) && KeysUnique(s.users, UserId)
    && KeysUnique(s.teams, TeamName) && KeysUnique(s.teams, TeamId)
    && KeysUnique(s.projects, ProjectName) && KeysUnique(s.projects, ProjectId)
  }

  /**
   * `POST /auth/signup`: refuse with 400 when a user already has the
   * e-mail; otherwise save the new user, answering 200.
   */
  function Signup(s: Store, newId: ObjectId, name: string, email: string): (r: Reply)
    ensures KeyTaken(s.users, UserEmail, email) ==>
      r == Reply(400, "Email already exists, please Login", s)
    ensures r.code == 200 ==>
      && r.store == s.(users := s.users + [UserDoc(newId, name, email)])
      && (forall i :: 0 <= i < |r.store.users| ==> (r.store.users[i].email == email <==> i == |s.users|))
    ensures r.code != 200 ==> r.store == s
    ensures r.code == 200 || r.code == 400 || r.code == 500
    ensures !KeyTaken(s.users, UserEmail, email) && !KeyTaken(s.users, UserId, newId) ==> r.code == 200
  {
    match GuardedInsert(s.users, UserEmail, UserId, UserDoc(newId, name, email))
    case Duplicate => Reply(400, "Email already exists, please Login", s)
    case IdClash => Reply(500, "Adding user Failed.", s)
    case Inserted(users) => Reply(200, "User added successfully .", s.(users := users))
  }

  /**
   * `POST /teams`: refuse with 400 when a team already has the name;
   * otherwise save the new team, answering 201.
   */
  function CreateTeam(s: Store, newId: ObjectId, name: string, description: Option<string>, members: seq<ObjectId>): (r: Reply)
    ensures KeyTaken(s.teams, TeamName, name) ==> r == Reply(400, "Team already exists", s)
    ensures r.code == 201 ==>
      && r.store == s.(teams := s.teams + [TeamDoc(newId, name, description, members)])
      && (forall i :: 0 <= i < |r.store.teams| ==> (r.store.teams[i].name == name <==> i == |s.teams|))
    ensures r.code != 201 ==> r.store == s
    ensures r.code == 201 || r.code == 400 || r.code == 500
    ensures !KeyTaken(s.teams, TeamName, name) && !KeyTaken(s.teams, TeamId, newId) ==> r.code == 201
  {
    match GuardedInsert(s.teams, TeamName, TeamId, TeamDoc(newId, name, description, members))
    case Duplicate => Reply(400, "Team already exists", s)
    case IdClash => Reply(500, "Team creation failed", s)
    case Inserted(teams) => Reply(201, "New team created successfully", s.(teams := teams))
  }

  /**
   * `POST /projects`: refuse with 400 when a project already has the name;
   * otherwise save the new project, answering 201.
   */
  function CreateProject(s: Store, newId: ObjectId, name: string, description: Option<string>): (r: Reply)
    ensures KeyTaken(s.projects, ProjectName, name) ==> r == Reply(400, "project already exists", s)
    ensures r.code == 201 ==>
      && r.store == s.(projects := s.projects + [ProjectDoc(newId, name, description)])
      && (forall i :: 0 <= i < |r.store.projects| ==> (r.store.projects[i].name == name <==> i == |s.projects|))
    ensures r.code != 201 ==> r.store == s
    ensures r.code == 201 || r.code == 400 || r.code == 500
    ensures !KeyTaken(s.projects, ProjectName, name) && !KeyTaken(s.projects, ProjectId, newId) ==> r.code == 201
  {
    match GuardedInsert(s.projects, ProjectName, ProjectId, ProjectDoc(newId, name, description))
    case Duplicate => Reply(400, "project already exists", s)
    case IdClash => Reply(500, "project creation failed", s)
    case Inserted(projects) => Reply(201, "New prohect added successfully", s.(projects := projects))
  }

  /** The position of the first document satisfying `p`: the one a `findOne` or `findById` scan returns. */
  function FindFirst<D>(docs: seq<D>, p: D -> bool): (r: Option<nat>)
    ensures r.None? <==> forall i :: 0 <= i < |docs| ==> !p(docs[i])
    ensures r.Some? ==> r.value < |docs| && p(docs[r.value])
    ensures r.Some? ==> forall i :: 0 <= i < r.value ==> !p(docs[i])
    decreases |docs|
  {
    if |docs| == 0 then None
    else if p(docs[0]) then Some(0)
    else
      match FindFirst(docs[1..], p)
      case None =>
        assert forall i :: 1 <= i < |docs| ==> docs[i] == docs[1..][i - 1];
        None
      case Some(k) =>
        assert docs[k + 1] == docs[1..][k];
        assert forall i :: 1 <= i < k + 1 ==> docs[i] == docs[1..][i - 1];
        Some(k + 1)
  }

  /** The position of the team `findById(teamId)` returns. */
  function FindTeam(teams: seq<TeamDoc>, teamId: ObjectId): (r: Option<nat>)
    ensures r.None? <==> !KeyTaken(teams, TeamId, teamId)
    ensures r.Some? ==> r.value < |teams| && teams[r.value].id == teamId
    ensures r.Some? ==> forall i :: 0 <= i < r.value ==> teams[i].id != teamId
  {
    FindFirst(teams, (t: TeamDoc) => t.id == teamId)
  }

  /**
   * `POST /team/:team_id/member`: append `member` to the end of the team's
   * member list (a member already present is appended again) and answer
   * 201; an unknown team makes the handler fail with 500, changing nothing.
   */
  function AddMember(s: Store, teamId: ObjectId, member: ObjectId): (r: Reply)
    ensures !KeyTaken(s.teams, TeamId, teamId) ==> r == Reply(500, "failed to add member", s)
    ensures KeyTaken(s.teams, TeamId, teamId) ==>
      && r.code == 201
      && r.store.users == s.users && r.store.projects == s.projects && r.store.tasks == s.tasks
      && |r.store.teams| == |s.teams|
      && var k := FindTeam(s.teams, teamId).value;
         && r.store.teams[k] == s.teams[k].(members := s.teams[k].members + [member])
         && forall j :: 0 <= j < |s.teams| && j != k ==> r.store.teams[j] == s.teams[j]
  {
    match FindTeam(s.teams, teamId)
    case None => Reply(500, "failed to add member", s)
    case Some(k) =>
      var team := s.teams[k];
      Reply(201, "New team member added successfully",
            s.(teams := s.teams[k := team.(members := team.members + [member])]))
  }

  /**
   * `POST /tasks`: build and validate the task document; a valid one is
   * saved and answered with 201, an invalid one fails with 500 and is not
   * saved.
   */
  function CreateTask(s: Store, input: TaskInput): (r: Reply)
    ensures Validate(input).Failure? ==> r == Reply(500, "task creation failed", s)
    ensures Validate(input).Success? ==>
      && r.code == 201
      && r.store == s.(tasks := s.tasks + [Validate(input).value])
      && StoredFrom(r.store.tasks[|s.tasks|], input)
  {
    match Validate(input)
    case Failure(_) => Reply(500, "task creation failed", s)
    case Success(task) => Reply(201, "New task created successfully.", s.(tasks := s.tasks + [task]))
  }

  /**
   * The reply a handler sends when the `populate` it runs on the document
   * it has just saved throws: the handler's `catch` answers 500 with its
   * failure message, and the saved document stays saved.
   */
  function PopulateThrows(r: Reply, success: int, failure: string): (w: Reply)
    ensures w.store == r.store
    ensures r.code == success ==> w.code == 500 && w.message == failure
    ensures r.code != success ==> w == r
  {
    if r.code == success then Reply(500, failure, r.store) else r
  }

  /**
   * `POST /tasks` as written: the saved task is re-read with
   * `populate("tag", ...)`, but the schema has no `tag` path, and a
   * strict-populate Mongoose throws on that. So every request is answered
   * 500 "task creation failed", although a valid task has been saved.
   */
  function CreateTaskAsWritten(s: Store, input: TaskInput): (r: Reply)
    ensures r.code == 500 && r.message == "task creation failed"
    ensures Validate(input).Failure? ==> r.store == s
    ensures Validate(input).Success? ==> r.store.tasks == s.tasks + [Validate(input).value]
  {
    PopulateThrows(CreateTask(s, input), 201, "task creation failed")
  }

  /**
   * `POST /teams` as written: the saved team is re-read with
   * `populate("members")`, whose `ref` is the `Member` model, which the
   * server never registers. So a new team is answered 500 "Team creation
   * failed" although it has been saved; a taken name still gets 400.
   */
  function CreateTeamAsWritten(s: Store, newId: ObjectId, name: string, description: Option<string>, members: seq<ObjectId>): (r: Reply)
    ensures KeyTaken(s.teams, TeamName, name) ==> r == Reply(400, "Team already exists", s)
    ensures !KeyTaken(s.teams, TeamName, name) ==> r.code == 500 && r.message == "Team creation failed"
    ensures !KeyTaken(s.teams, TeamName, name) && !KeyTaken(s.teams, TeamId, newId) ==>
      r.store == s.(teams := s.teams + [TeamDoc(newId, name, description, members)])
  {
    PopulateThrows(CreateTeam(s, newId, name, description, members), 201, "Team creation failed")
  }

  /**
   * `POST /team/:team_id/member` as written: after the member is saved the
   * team is re-read with `populate("members")`, which throws for the same
   * unregistered `Member` model. So every request is answered 500 "failed
   * to add member", although for a known team the member has been added.
   */
  function AddMemberAsWritten(s: Store, teamId: ObjectId, member: ObjectId): (r: Reply)
    ensures r.code == 500 && r.message == "failed to add member"
    ensures !KeyTaken(s.teams, TeamId, teamId) ==> r.store == s
    ensures KeyTaken(s.teams, TeamId, teamId) ==>
      var k := FindTeam(s.teams, teamId).value;
      k < |r.store.teams| && r.store.teams[k].members == s.teams[k].members + [member]
  {
    PopulateThrows(AddMember(s, teamId, member), 201, "failed to add member")
  }

  /** Signup keeps e-mails unique, team creation team names, project creation project names. */
  lemma CreatesKeepConsistent(s: Store, newId: ObjectId, name: string, email: string, description: Option<string>, members: seq<ObjectId>)
    requires Consistent(s)
    ensures Consistent(Signup(s, newId, name, email).store)
    ensures Consistent(CreateTeam(s, newId, name, description, members).store)
    ensures Consistent(CreateProject(s, newId, name, description).store)
  {
    GuardedInsertKeepsKeysUnique(s.users, UserEmail, UserId, UserDoc(newId, name, email));
    GuardedInsertKeepsKeysUnique(s.teams, TeamName, TeamId, TeamDoc(newId, name, description, members));
    GuardedInsertKeepsKeysUnique(s.projects, ProjectName, ProjectId, ProjectDoc(newId, name, description));
  }

  /** Adding a member renames and re-keys no team, so team names and `_id`s stay unique. */
  lemma AddMemberKeepsConsistent(s: Store, teamId: ObjectId, member: ObjectId)
    requires Consistent(s)
    ensures Consistent(AddMember(s, teamId, member).store)
  {
    var r := AddMember(s, teamId, member);
    assert forall j :: 0 <= j < |s.teams| ==> r.store.teams[j].name == s.teams[j].name && r.store.teams[j].id == s.teams[j].id;
  }

  /**
   * In a consistent store the team `AddMember` extends is the only team
   * with that `_id`.
   */
  lemma AddMemberExtendsTheTeam(s: Store, teamId: ObjectId, member: ObjectId, k: nat)
    requires Consistent(s)
    requires k < |s.teams| && s.teams[k].id == teamId
    ensures AddMember(s, teamId, member).store.teams[k].members == s.teams[k].members + [member]
  {
  }

  /** Creating a task touches no user, team or project, so the store stays consistent. */
  lemma CreateTaskKeepsConsistent(s: Store, input: TaskInput)
    requires Consistent(s)
    ensures Consistent(CreateTask(s, input).store)
  {
  }

  /** Duplicates are not rejected: adding the same member twice lists it twice more. */
  lemma AddMemberTwice(s: Store, teamId: ObjectId, member: ObjectId)
    requires KeyTaken(s.teams, TeamId, teamId)
    ensures
      var once := AddMember(s, teamId, member).store;
      var twice := AddMember(once, teamId, member).store;
      exists k :: 0 <= k < |s.teams| && s.teams[k].id == teamId
        && twice.teams[k].members == s.teams[k].members + [member, member]
  {
    var once := AddMember(s, teamId, member).store;
    var k := FindTeam(s.teams, teamId).value;
    assert once.teams[k].id == teamId;
    assert KeyTaken(once.teams, TeamId, teamId);
    assert FindTeam(once.teams, teamId) == Some(k) by {
      assert forall i :: 0 <= i < k ==> once.teams[i] == s.teams[i];
    }
    assert s.teams[k].members + [member] + [member] == s.teams[k].members + [member, member];
  }
}
