# Workviyo task backend — a Dafny model of its core

Workviyo is a task and project management REST backend (Express over a
MongoDB document store through Mongoose). Most handlers hand their work to
the database. This model covers the parts that have logic of their own:

- **Display-name decompression** in `GET /tasks`. Compact names such as
  `RaniKawale` or `InProgress` are rewritten by the global regular
  expression replacement `([a-z])([A-Z])` → `"$1 $2"`, then trimmed
  (modules `Strings`, `Names`, `NameExamples`).
- **The `GET /tasks` filter**. The `owners`, `tags`, `team`, `project` and
  `status` query parameters are normalised, resolved against the store and
  assembled into a filter document. The filter is matched with MongoDB's
  query semantics: facets are ANDed, `$in` on an array field means "some
  element is listed", and scalar facets use equality (modules `TaskQuery`,
  `QueryExamples`).
- **The Task schema**. It defines the required fields, the `priority` and
  `status` enumerations with their defaults `Medium` and `To Do`, and the
  empty default for `tags` and `owners` (module `TaskSchema`).
- **The store-changing handlers**. Signup, team creation and project
  creation each look up their unique key first and refuse a duplicate
  with 400. Adding a team member appends to the member list. Task creation
  validates before saving (module `Store`).

Each collection is a sequence of documents in insertion order. A
`findOne` / `findById` returns the first match in that order, and
`find` answers in that order. Database
lookups are functions of this store value. Handlers are pure functions
from a store and a request to a reply: status code, message and the new
store. The identifier of a document about to be saved is a parameter.

Two behaviours of the handlers worth stating:

- A `team` or `project` name that resolves to nothing drops that facet,
  so the answer is as if the parameter were absent (index.js:186-196).
  It does not produce an empty answer.
- A task's `owners` list may be empty. `required` applies to each element
  only (models/model.task.js:19-25).

## Model

| member | source | states |
|---|---|---|
| Strings.Trim | index.js:164 | `trim` result has no white space at either end and is the infix of the input left after dropping only white space from both ends |
| Strings.TrimBothEnds | index.js:164 | the leading and the trailing pass together split the input into white space, the trimmed result and white space |
| Strings.TrimIdempotent | index.js:164 | trimming twice is trimming once |
| Strings.Split | index.js:163 | `split(",")` returns at least one piece and no piece contains the separator |
| Strings.JoinSplit | index.js:163 | joining the pieces of a split with the separator gives back the original string |
| Strings.SplitJoin | index.js:163 | splitting a join of separator-free pieces gives back the pieces |
| Strings.SplitWithoutSeparator | index.js:161-165 | a parameter without a comma splits into itself alone |
| Names.ReplaceIsInsert | index.js:164 | the left-to-right regex scan equals inserting one space after every lower-case letter followed by an upper-case letter, and nowhere else: matches never overlap and none is lost |
| Names.InsertSpacesNoBoundary | index.js:164 | after the insertion, no lower-case letter is directly followed by an upper-case letter |
| Names.InsertSpacesOfNoBoundary | index.js:164 | a string with no lower/upper boundary is left unchanged by the insertion |
| Names.InsertConcat | index.js:164 | the insertion acts piecewise on a concatenation and adds one space at the seam exactly when the seam is a boundary |
| Names.Decompress | index.js:164 | a decompressed name has no surrounding white space and no lower-case letter directly before an upper-case letter |
| Names.DecompressInsertsAtBoundaries | index.js:164 | decompression is space insertion at every boundary followed by trim |
| Names.DecompressOfNoBoundary | index.js:164 | a name with no boundary is only trimmed |
| Names.DecompressIdempotent | index.js:164 | decompressing an already decompressed name changes nothing |
| Names.DecompressOfSpaced | index.js:164 | a trimmed, boundary-free name, such as an already spaced one, is its own decompression |
| Names.DecompressSplitsSeam | index.js:164 | two boundary-free words meeting at a lower/upper seam are separated by exactly one space |
| NameExamples.DecompressCompactPersonName | index.js:164 | `RaniKawale` decompresses to `Rani Kawale` |
| NameExamples.DecompressSpacedPersonName | index.js:164 | `Rani Kawale` decompresses to itself |
| NameExamples.DecompressToDo | index.js:199 | `ToDo` decompresses to `To Do` |
| NameExamples.DecompressInProgress | index.js:199 | `InProgress` decompresses to `In Progress` |
| NameExamples.DecompressStoredStatus | index.js:199 | each stored status spelling is its own decompression |
| NameExamples.StatusQueryInEnumeration | index.js:199 | the compact spelling of every status decompresses to its stored spelling, which the status enumeration accepts |
| TaskSchema.ParsePriority | models/model.task.js:32-36 | the priority enumeration accepts exactly `Low`, `Medium`, `High`, each naming its member |
| TaskSchema.ParseStatus | models/model.task.js:38-42 | the status enumeration accepts exactly `To Do`, `In Progress`, `Completed`, `Blocked`, each naming its member |
| TaskSchema.MissingOwners | models/model.task.js:19-25 | the failing owner paths are exactly the positions of missing `owners` elements |
| TaskSchema.FieldErrors | models/model.task.js:5-42 | each non-owner path is reported exactly when its validator fails, and no owner path is reported |
| TaskSchema.Errors | models/model.task.js:5-42 | each path is reported exactly when its validator fails: required name (missing or empty), project, team, timeToComplete, each owner element, and priority or status outside its enumeration |
| TaskSchema.Validate | models/model.task.js:3-51 | validation fails exactly when some path fails, reporting all failing paths; on success the stored task carries the supplied values, with defaults Medium, To Do and empty lists for omitted priority, status, tags and owners |
| TaskSchema.ValidateAcceptsIff | models/model.task.js:5-48 | validation succeeds if and only if the body meets every field rule |
| TaskSchema.MissingRequiredFails | models/model.task.js:5-30 | a body missing name, project, team or timeToComplete is rejected, naming each missing path |
| TaskSchema.OmittedFieldsDefault | models/model.task.js:19-48 | omitted priority, status, tags and owners become Medium, To Do, [] and [], and an empty owner list is accepted |
| TaskSchema.StoredTaskInEnumerations | models/model.task.js:32-42 | a supplied priority or status spelling is parsed to the stored member; that stored members lie in the enumerations holds by the datatypes |
| Store.GuardedInsert | index.js:34-44 | the insert is refused exactly when the key is taken; otherwise the store gains one document at the end, the only one with that key |
| Store.GuardedInsertKeepsKeysUnique | index.js:34-44 | a guarded insert keeps a collection's keys unique |
| Store.FindFirst | index.js:268 | the lookup finds the first document satisfying the condition, or nothing when none does |
| Store.FindTeam | index.js:268 | `findById` finds the first team with the identifier, and nothing exactly when no team has it |
| Store.Signup | index.js:32-53 | a taken e-mail gives 400 "Email already exists, please Login" with the store unchanged; otherwise 200 with exactly one new user carrying that e-mail, appended |
| Store.CreateTeam | index.js:240-262 | a taken team name gives 400 "Team already exists" with the store unchanged; otherwise 201 with exactly one new team of that name, appended |
| Store.CreateProject | index.js:296-316 | a taken project name gives 400 "project already exists" with the store unchanged; otherwise 201 with exactly one new project of that name, appended |
| Store.AddMember | index.js:265-282 | the member is appended to the end of the member list of the first team with the identifier; no other field, team or collection changes; an unknown team gives 500 with nothing changed |
| Store.CreateTask | index.js:127-152 | the intended reply: an invalid body gives 500 and saves nothing; a valid one gives 201 and appends the validated task |
| Store.PopulateThrows | index.js:145-147 | a `populate` that throws after the save turns the success reply into 500 with the handler's failure message, keeping the saved store |
| Store.CreateTaskAsWritten | index.js:127-148 | as written, every request is answered 500 "task creation failed"; an invalid body saves nothing, a valid one is saved all the same |
| Store.CreateTeamAsWritten | index.js:240-262 | as written, a taken name gives 400; any other request is answered 500 "Team creation failed", although a new team with a free name and identifier is saved |
| Store.AddMemberAsWritten | index.js:265-282 | as written, every request is answered 500 "failed to add member"; for a known team the member has been appended all the same |
| Store.CreatesKeepConsistent | index.js:34-44 | signup, team creation and project creation keep e-mails, team names, project names and each collection's identifiers unique |
| Store.AddMemberKeepsConsistent | index.js:265-270 | adding a member keeps team names and identifiers unique |
| Store.AddMemberExtendsTheTeam | index.js:268-270 | in a consistent store, the team with the identifier is the one whose member list grows |
| Store.CreateTaskKeepsConsistent | index.js:127-132 | creating a task keeps the store's uniqueness invariant |
| Store.AddMemberTwice | index.js:268-270 | duplicate members are not rejected: adding the same member twice appends it twice |
| TaskQuery.DecompressAll | index.js:161-168 | each listed name is replaced by its decompression, position by position |
| TaskQuery.NameList | index.js:161-168 | a given list parameter yields one decompressed name per comma-separated piece; an absent or empty one yields none |
| TaskQuery.SingleName | index.js:161-165 | a comma-free parameter names exactly its own decompression |
| TaskQuery.UsersNamedNone | index.js:171 | when no user bears a requested name the user lookup finds nobody |
| TaskQuery.UsersNamed | index.js:171 | the user lookup returns exactly the users whose name is among the requested names |
| TaskQuery.Ids | index.js:178 | the id list holds exactly the ids of the given users |
| TaskQuery.TeamNamed | index.js:172 | the team lookup finds the first team with the name, and nothing exactly when no team has it |
| TaskQuery.ProjectNamed | index.js:173 | the project lookup finds the first project with the name, and nothing exactly when no project has it |
| TaskQuery.BuildFilter | index.js:155-200 | owners facet present iff `owners` given, holding exactly the ids of users bearing a requested name; tags facet present iff `tags` given, holding the decompressed names; team and project facets present iff given and resolved, holding the first match's id; status facet present iff given, holding the decompressed status |
| TaskQuery.Select | index.js:202 | the selected tasks are exactly the stored tasks that match the filter; when all match, all are returned in order |
| TaskQuery.SelectCounts | index.js:202 | a matching task is selected as many times as it is stored, a non-matching one never |
| TaskQuery.SelectOne | index.js:202 | a single task is selected exactly when it matches |
| TaskQuery.SelectConcat | index.js:202 | selecting from two stretches of the store gives the two selections one after the other, so store order is kept |
| TaskQuery.OwnersFacetMeaning | index.js:176-180 | `$in` over the resolved owner ids matches a task exactly when one of its owners is a user bearing a requested name |
| TaskQuery.MatchesIff | index.js:159-202 | the built filter matches a task if and only if the task satisfies every given facet of the query; only the owners facet differs in form, resolved ids against owners bearing a requested name |
| TaskQuery.ListTasks | index.js:155-206 | a task is listed if and only if it is stored and satisfies the query, and then as many times as it is stored |
| TaskQuery.NothingMatchesSelectsNone | index.js:202 | when no task matches, nothing is selected |
| TaskQuery.UnresolvedOwnersMatchNothing | index.js:176-180 | given owners none of whose names resolves yields an empty owners facet and an empty answer |
| TaskQuery.UnresolvedTeamIsDropped | index.js:192-196 | an unresolved team name gives the same filter and answer as omitting `team` |
| TaskQuery.UnresolvedProjectIsDropped | index.js:186-190 | an unresolved project name gives the same filter and answer as omitting `project` |
| TaskQuery.NoParametersListsAll | index.js:159-202 | with no parameter given the filter is empty and every task is listed, in store order |
| TaskQuery.RefinedSelectsSubset | index.js:202 | a filter constraining more facets to the same values selects a subset |
| TaskQuery.MoreParametersListFewer | index.js:159-202 | giving additional parameters never lists more tasks |
| QueryExamples.OwnerNames | index.js:161-165 | `owners=RaniKawale` requests the single name `Rani Kawale` |
| QueryExamples.OwnerFacet | index.js:170-180 | in the example store that request resolves to exactly Rani Kawale's id |
| QueryExamples.SelectFirstOfTwo | index.js:202 | of a matching and a non-matching task, only the first is selected |
| QueryExamples.FilterByCompactOwnerName | index.js:155-206 | with one task per owner, `owners=RaniKawale` lists only the task Rani Kawale owns |

## Findings

| source | as written | input that shows it | evidently intended | confidence | as-written member | corrected member |
|---|---|---|---|---|---|---|
| index.js:136 | the saved task is re-read with `populate("tag", "name")`, but the Task schema has no `tag` path (the field is `tags`); strict populate, the Mongoose default since version 6, throws on that, and the `catch` answers 500 | any valid body, say name, project, team and timeToComplete present: the task is saved, the client is told "task creation failed" | 201 "New task created successfully." with the saved task | not executed; assumes Mongoose 6 or later, where strict populate is on by default; neither index.js nor the model files pin the version | Store.CreateTaskAsWritten | Store.CreateTask |
| index.js:252 | the saved team is re-read with `populate("members")`, whose `ref` is the `Member` model (models/model.team.js:10); only models/model.member.js registers that model, and nothing loads it, so the populate throws and the `catch` answers 500 | a team name not yet taken: the team is saved, the client is told "Team creation failed" | 201 "New team created successfully" with the saved team | not executed; assumes no module other than index.js and the model files requires models/model.member.js | Store.CreateTeamAsWritten | Store.CreateTeam |
| index.js:271-273 | the team is re-read with `populate("members")` after the member is saved, which throws for the same unregistered `Member` model | the identifier of an existing team: the member is appended, the client is told "failed to add member" | 201 "New team member added successfully" with the team | not executed; assumes no module other than index.js and the model files requires models/model.member.js | Store.AddMemberAsWritten | Store.AddMember |

The rest of the model uses the corrected handlers.

## Left out

- HTTP plumbing: Express routing, CORS, JSON parsing, response serialisation and the listening port (index.js:12-29, 336-339). Replies are modelled as a status code, message and store.
- The database connection lifecycle and its readiness flag (db/db.connect.js). This is I/O with process-global state. The model assumes a connected store, although index.js:7 and index.js:23 import and call `initialiseDatabase` while db/db.connect.js:42 exports `initializeDatabase`.
- Database internals: query execution, `populate` expansion of references to `{id, name}`, and the 500 replies a connectivity or query error would cause in every handler. Lookups are functions of the store value. The one populate failure that follows from the code alone, an unknown path or an unregistered model, is under "## Findings".
- Storage order. MongoDB does not promise that a query without a sort returns documents in insertion order. Storing each collection in insertion order is a modelling choice. It fixes which document a `findOne` on a duplicated value returns, and the order of the `GET /tasks` answer.
- Login, JWT signing and verification, and password hashing in the user pre-save hook (index.js:56-102, models/model.user.js:13-25). These are foreign cryptographic calls. Users are stored without a password.
- `GET /users`, `GET /tags`, `GET /teams`, `GET /projects`, `POST /tasks/:id` and `DELETE /tasks/:id`. They pass straight through to the database. The update runs without schema validators, so it could store a status outside the enumeration, and the model's tasks never hold one.
- Save-time validation of User, Team and Project documents. Those schema files are not part of this model. The creates assume the document passes its own required-field checks.
- The uniqueness lookup for a request body with no key at all. How an undefined key in a `findOne` filter is treated depends on the driver, so the key is always a string.
- Concurrency. The three lookups run in parallel through `Promise.all`, and the `findOne` check races with `save`. Each request is treated as one sequential step.
- Timestamps (`createdAt`, `updatedAt`). They come from the system clock.
- Type casting by Mongoose: string to number, string to ObjectId, and the cast errors it raises. Fields arrive already typed. `null` and a missing field are not distinguished, and `timeToComplete` is a `real` rather than a floating-point number.
- Repeated query parameters. Express parses a repeated parameter into an array. For `owners`, `tags` and `status` the array has no `split` or `replace`, so the handler throws and answers 500. For `team` and `project` the array reaches `findOne({ name: [...] })`, which Mongoose casts to `$in`, so the first team or project bearing any of the names sets the facet. The model takes each parameter as a single string.
- Priority/date sorting and the report endpoints. They do not exist in this revision of index.js.
- Store.FindTeam: identifiers are compared as values. A malformed `team_id` makes `findById` throw a cast error (500), which the model does not show; the reply is the same 500 as for an unknown team.
- Names.Decompress: the letter classes are ASCII `a-z` and `A-Z`, as in the regular expression. `trim` uses the full ECMAScript white-space and line-terminator set.
