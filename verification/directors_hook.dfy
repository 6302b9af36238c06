/** The backend-facing directors hook (`src/hooks/useDirectors.tsx`): a list
    of director rows with a loading flag, a fetch that replaces the list, and
    create, update and delete operations that talk to the backend step by step.
    The backend is a parameter: each operation receives the outcome of every
    request it may make and returns the requests it actually made. */
module DirectorsHook {
  import opened Records
  import opened Text

  /** A backend error (returned or thrown; the hook treats both alike). */
  datatype Error = Error(message: string)

  datatype StepOutcome<T> = Ok(value: T) | Err(error: Error)

  /** The joined profile and school of a director row. */
  datatype Profile = Profile(firstName: string, lastName: string, phoneNumber: Option<string>)

  datatype DirectorRow = DirectorRow(
    id: string,
    userId: Option<string>,
    schoolId: string,
    createdBy: Option<string>,
    isActive: bool,
    createdAt: string,
    updatedAt: string,
    profile: Option<Profile>,
    schoolName: Option<string>)

  /** The hook's state: `directors` and `loading`. */
  datatype HookState = HookState(directors: seq<DirectorRow>, loading: bool)

  /** What the select query answered: rows (possibly `null`) or an error. */
  datatype FetchResult = Fetched(data: Option<seq<DirectorRow>>) | FetchFailed(error: Error)

  /** A value of the `updates` object handed to `updateDirector`. */
  datatype Cell = Flag(flag: bool) | Str(str: string)

  type Updates = map<string, Cell>

  /** The user metadata the auth user is created with. */
  datatype Metadata = Metadata(firstName: string, lastName: string, phoneNumber: string, schoolId: string, role: string)

  /** The requests the hook sends to the backend. */
  datatype Call =
    | CreateAuthUser(email: string, password: string, metadata: Metadata)
    | UpsertSchool(schoolId: string, schoolName: string, directorId: Option<string>)
    | InsertDirector(userId: Option<string>, schoolId: string, createdBy: Option<string>)
    | UpdateRow(rowId: string, updates: Updates)
    | DeleteRow(rowId: string)
    | SelectDirectors

  /** `{ error }` as the operations return it, with the requests made and the
      state afterwards. */
  datatype Reply = Reply(error: Option<Error>, calls: seq<Call>, state: HookState)

  /*** fetchDirectors ***/

  /** `fetchDirectors`: a successful query replaces the list (`data || []`), a
      failed one leaves it as it was; either way loading ends. */
  function Fetch(s: HookState, res: FetchResult): (r: HookState)
    ensures !r.loading
    ensures res.FetchFailed? ==> r.directors == s.directors
    ensures res.Fetched? && res.data.Some? ==> r.directors == res.data.value
    ensures res.Fetched? && res.data.None? ==> r.directors == []
  {
    match res
    case Fetched(data) => HookState(if data.Some? then data.value else [], false)
    case FetchFailed(_) => s.(loading := false)
  }

  /** Fetching the same answer again changes nothing, and a successful fetch
      forgets whatever list was there before. */
  lemma FetchIdempotent(s: HookState, t: HookState, res: FetchResult)
    ensures Fetch(Fetch(s, res), res) == Fetch(s, res)
    ensures res.Fetched? ==> Fetch(s, res) == Fetch(t, res)
  {
  }

  /** The mount-time effect: the list is fetched only once a user is signed in;
      without one nothing is requested and loading stays on. */
  function Mount(s: HookState, user: Option<string>, res: FetchResult): (r: (seq<Call>, HookState))
    ensures user.None? ==> r.0 == [] && r.1 == s
    ensures user.Some? ==> r.0 == [SelectDirectors] && r.1 == Fetch(s, res)
  {
    if user.Some? then ([SelectDirectors], Fetch(s, res)) else ([], s)
  }

  /*** createDirector ***/

  /** The auth e-mail: lower-cased first name, a dot, lower-cased last name,
      `@`, lower-cased school id and `.edu`. */
  function Email(firstName: string, lastName: string, schoolId: string): (e: string)
    ensures |e| == |firstName| + |lastName| + |schoolId| + 6
    ensures e[|e| - 4..] == ".edu" && e[|firstName|] == '.' && e[|firstName| + 1 + |lastName|] == '@'
  {
    Lower(firstName) + "." + Lower(lastName) + "@" + Lower(schoolId) + ".edu"
  }

  /** When none of the three inputs contains `@`, the e-mail splits at `@` into
      exactly the name part and the domain part. */
  lemma EmailParts(firstName: string, lastName: string, schoolId: string)
    requires '@' !in firstName && '@' !in lastName && '@' !in schoolId
    ensures Split(Email(firstName, lastName, schoolId), '@')
            == [Lower(firstName) + "." + Lower(lastName), Lower(schoolId) + ".edu"]
  {
    LowerKeepsOther(firstName, '@');
    LowerKeepsOther(lastName, '@');
    LowerKeepsOther(schoolId, '@');
    var local := Lower(firstName) + "." + Lower(lastName);
    var domain := Lower(schoolId) + ".edu";
    assert '@' !in local;
    assert '@' !in domain;
    assert Join([local, domain], '@') == Email(firstName, lastName, schoolId);
    SplitJoin([local, domain], '@');
  }

  /** The e-mail does not depend on the letter case of its inputs. */
  lemma EmailIgnoresCase(firstName: string, lastName: string, schoolId: string)
    ensures Email(Lower(firstName), Lower(lastName), Lower(schoolId)) == Email(firstName, lastName, schoolId)
  {
    LowerIdempotent(firstName);
    LowerIdempotent(lastName);
    LowerIdempotent(schoolId);
  }

  /** The answers the backend gives to the requests of one create, in order. */
  datatype CreateBackend = CreateBackend(
    auth: StepOutcome<Option<string>>,   // the new auth user's id, if the answer carries one
    upsert: Option<Error>,
    insert: Option<Error>,
    fetch: FetchResult)

  function AuthId(b: CreateBackend): Option<string> {
    if b.auth.Ok? then b.auth.value else None
  }

  /** The requests of a create that goes through: auth user, school upsert,
      director insert, refetch. */
  function CreateCalls(form: DirectorForm, authId: Option<string>, me: Option<string>): seq<Call> {
    [ CreateAuthUser(Email(form.firstName, form.lastName, form.schoolId), form.password,
                     Metadata(form.firstName, form.lastName, form.phoneNumber, form.schoolId, "director")),
      UpsertSchool(form.schoolId, form.schoolName, authId),
      InsertDirector(authId, form.schoolId, me),
      SelectDirectors ]
  }

  /** All three writes of a create succeeded. */
  predicate CreateSucceeds(b: CreateBackend) {
    b.auth.Ok? && b.upsert.None? && b.insert.None?
  }

  /** `createDirector`: the three writes run in order and the first failure
      ends the operation with its error; nothing already written is undone.
      Only a create whose writes all succeed refetches and reports no error. */
  function Create(s: HookState, me: Option<string>, form: DirectorForm, b: CreateBackend): (r: Reply)
    ensures 1 <= |r.calls| <= 4
    ensures r.calls == CreateCalls(form, AuthId(b), me)[..|r.calls|]
    ensures r.error.None? <==> CreateSucceeds(b)
    ensures r.error.None? <==> |r.calls| == 4
    ensures r.error.None? ==> r.state == Fetch(s, b.fetch)
    ensures r.error.Some? ==> r.state == s
    ensures b.auth.Err? ==> r.error == Some(b.auth.error)
    ensures b.auth.Ok? && b.upsert.Some? ==> r.error == b.upsert
    ensures b.auth.Ok? && b.upsert.None? && b.insert.Some? ==> r.error == b.insert
    ensures (exists i :: 0 <= i < |r.calls| && r.calls[i].UpsertSchool?) <==> b.auth.Ok?
    ensures (exists i :: 0 <= i < |r.calls| && r.calls[i].InsertDirector?) <==> b.auth.Ok? && b.upsert.None?
  {
    var all := CreateCalls(form, AuthId(b), me);
    assert all[1].UpsertSchool? && all[2].InsertDirector?;
    if b.auth.Err? then Reply(Some(b.auth.error), all[..1], s)
    else if b.upsert.Some? then Reply(b.upsert, all[..2], s)
    else if b.insert.Some? then Reply(b.insert, all[..3], s)
    else Reply(None, all, Fetch(s, b.fetch))
  }

  /** The list is refreshed exactly when the create reports no error; the auth
      user request is always made, and a failed create leaves what it wrote
      behind: the requests made never include a deletion. */
  lemma CreateRefetchOnlyOnSuccess(s: HookState, me: Option<string>, form: DirectorForm, b: CreateBackend)
    ensures SelectDirectors in Create(s, me, form, b).calls <==> Create(s, me, form, b).error.None?
    ensures forall c :: c in Create(s, me, form, b).calls ==> !c.DeleteRow? && !c.UpdateRow?
    ensures CreateCalls(form, AuthId(b), me)[0] in Create(s, me, form, b).calls
  {
    var r := Create(s, me, form, b);
    var all := CreateCalls(form, AuthId(b), me);
    assert r.calls == all[..|r.calls|];
    assert forall i :: 0 <= i < 3 ==> all[i] != SelectDirectors;
    if r.error.Some? {
      assert forall i :: 0 <= i < |r.calls| ==> r.calls[i] == all[i];
    }
  }

  /** The auth user is asked for with the derived e-mail, the form's password
      and the director role, whatever the backend answers. */
  lemma CreateAsksForDirectorAccount(s: HookState, me: Option<string>, form: DirectorForm, b: CreateBackend)
    ensures Create(s, me, form, b).calls[0].CreateAuthUser?
    ensures Create(s, me, form, b).calls[0].email == Email(form.firstName, form.lastName, form.schoolId)
    ensures Create(s, me, form, b).calls[0].password == form.password
    ensures Create(s, me, form, b).calls[0].metadata.role == "director"
  {
  }

  /*** updateDirector and deleteDirector ***/

  /** One write followed, when it succeeds, by a refetch. */
  function WriteThenRefetch(s: HookState, write: Call, writeError: Option<Error>, fetch: FetchResult): (r: Reply)
    ensures r.calls == (if writeError.None? then [write, SelectDirectors] else [write])
    ensures r.error == writeError
    ensures r.error.None? ==> r.state == Fetch(s, fetch)
    ensures r.error.Some? ==> r.state == s
  {
    if writeError.Some? then Reply(writeError, [write], s)
    else Reply(None, [write, SelectDirectors], Fetch(s, fetch))
  }

  /** `updateDirector`: updates the row with that id, refetching on success. */
  function Update(s: HookState, rowId: string, updates: Updates, writeError: Option<Error>, fetch: FetchResult): (r: Reply)
    ensures r.calls == (if writeError.None? then [UpdateRow(rowId, updates), SelectDirectors] else [UpdateRow(rowId, updates)])
    ensures r.error == writeError
    ensures SelectDirectors in r.calls <==> r.error.None?
    ensures r.error.None? ==> r.state == Fetch(s, fetch)
    ensures r.error.Some? ==> r.state == s
  {
    WriteThenRefetch(s, UpdateRow(rowId, updates), writeError, fetch)
  }

  /** `deleteDirector`: deletes the row with that id, refetching on success. */
  function Delete(s: HookState, rowId: string, writeError: Option<Error>, fetch: FetchResult): (r: Reply)
    ensures r.calls == (if writeError.None? then [DeleteRow(rowId), SelectDirectors] else [DeleteRow(rowId)])
    ensures r.error == writeError
    ensures SelectDirectors in r.calls <==> r.error.None?
    ensures r.error.None? ==> r.state == Fetch(s, fetch)
    ensures r.error.Some? ==> r.state == s
  {
    WriteThenRefetch(s, DeleteRow(rowId), writeError, fetch)
  }

  /** A successful update or delete leaves the list exactly as the refetch
      found it: the hook never edits its list locally. */
  lemma WritesTrustTheRefetch(s: HookState, rowId: string, updates: Updates, fetch: FetchResult)
    ensures Update(s, rowId, updates, None, fetch).state == Fetch(s, fetch)
    ensures Delete(s, rowId, None, fetch).state == Fetch(s, fetch)
    ensures fetch.Fetched? ==> Delete(s, rowId, None, fetch).state == Update(s, rowId, updates, None, fetch).state
  {
  }
}
