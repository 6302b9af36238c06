/** The local-storage admin console (`src/pages/Admin.tsx`): a list of directors
    kept in the page state and mirrored under the directors key. */
module Admin {
  import opened Records
  import opened Storage
  import opened Text
  import Seqs

  /*** Single-list operations ***/

  /** Selects the records carrying `id`. */
  function HasId(id: string): Director -> bool {
    (d: Director) => d.id == id
  }

  /** `toggleDirectorStatus`: flips `isActive` on every record whose id matches;
      every other field, every other record, the length and the order stay. */
  function ToggleStatus(ds: seq<Director>, id: string): (r: seq<Director>)
    ensures |r| == |ds|
    ensures forall i :: 0 <= i < |ds| ==> r[i].isActive == (ds[i].isActive != (ds[i].id == id))
    ensures forall i :: 0 <= i < |ds| ==> r[i].(isActive := ds[i].isActive) == ds[i]
  {
    Seqs.MapWhere(HasId(id), (d: Director) => d.(isActive := !d.isActive), ds)
  }

  /** Toggling the same id twice restores the list. */
  lemma ToggleTwice(ds: seq<Director>, id: string)
    ensures ToggleStatus(ToggleStatus(ds, id), id) == ds
  {
    var r := ToggleStatus(ToggleStatus(ds, id), id);
    forall i | 0 <= i < |ds| ensures r[i] == ds[i] {
      assert r[i].(isActive := ds[i].isActive) == ds[i];
    }
  }

  /** `handleDelete`: exactly the records whose id differs, each as often as
      before, in their original relative order. */
  function Delete(ds: seq<Director>, id: string): (r: seq<Director>)
    ensures Seqs.IsSubsequence(r, ds)
    ensures forall i :: 0 <= i < |r| ==> r[i].id != id
    ensures forall d :: multiset(r)[d] == if d.id == id then 0 else multiset(ds)[d]
  {
    var keep := (d: Director) => d.id != id;
    assert forall d :: multiset(Seqs.Filter(keep, ds))[d] == if keep(d) then multiset(ds)[d] else 0 by {
      forall d ensures multiset(Seqs.Filter(keep, ds))[d] == if keep(d) then multiset(ds)[d] else 0 {
        Seqs.FilterMultiset(keep, ds, d);
      }
    }
    Seqs.Filter(keep, ds)
  }

  /** The record `handleSubmit` creates from the form when nothing is being edited. */
  function NewDirector(form: DirectorForm, id: string, createdAt: string): Director {
    Director(id, form.firstName, form.lastName, form.schoolName, form.schoolId,
             form.phoneNumber, form.password, true, createdAt)
  }

  /** Add branch of `handleSubmit`: one active record carrying the six form
      fields is appended; the existing prefix is untouched. `id` and
      `createdAt` stand for `Date.now()` and the current ISO time. */
  function Add(ds: seq<Director>, form: DirectorForm, id: string, createdAt: string): (r: seq<Director>)
    ensures |r| == |ds| + 1 && r[..|ds|] == ds
    ensures FormOf(r[|ds|]) == form && r[|ds|].isActive
    ensures r[|ds|].id == id && r[|ds|].createdAt == createdAt
  {
    ds + [NewDirector(form, id, createdAt)]
  }

  /** Deleting the id of a freshly added record undoes the add. */
  lemma DeleteUndoesAdd(ds: seq<Director>, form: DirectorForm, id: string, createdAt: string)
    requires forall i :: 0 <= i < |ds| ==> ds[i].id != id
    ensures Delete(Add(ds, form, id, createdAt), id) == ds
  {
    var keep := (d: Director) => d.id != id;
    Seqs.FilterConcat(keep, ds, [NewDirector(form, id, createdAt)]);
    Seqs.FilterAll(keep, ds);
    assert Seqs.Filter(keep, [NewDirector(form, id, createdAt)]) == [];
  }

  /** `{ ...director, ...formData }`: the six form fields overwrite the record's. */
  function Merge(d: Director, form: DirectorForm): Director {
    d.(firstName := form.firstName, lastName := form.lastName, schoolName := form.schoolName,
       schoolId := form.schoolId, phoneNumber := form.phoneNumber, password := form.password)
  }

  /** Edit branch of `handleSubmit`: records whose id matches take the six form
      fields and keep their id, status and creation time; other records and the
      length are unchanged. */
  function Edit(ds: seq<Director>, id: string, form: DirectorForm): (r: seq<Director>)
    ensures |r| == |ds|
    ensures forall i :: 0 <= i < |ds| ==>
              r[i].id == ds[i].id && r[i].isActive == ds[i].isActive && r[i].createdAt == ds[i].createdAt
    ensures forall i :: 0 <= i < |ds| && ds[i].id == id ==> FormOf(r[i]) == form
    ensures forall i :: 0 <= i < |ds| && ds[i].id != id ==> r[i] == ds[i]
  {
    Seqs.MapWhere(HasId(id), (d: Director) => Merge(d, form), ds)
  }

  /** Submitting the form the edit button filled in, unchanged, leaves the list
      as it was, provided the records sharing that id agree on those fields. */
  lemma EditUnchangedForm(ds: seq<Director>, d: Director)
    requires forall i :: 0 <= i < |ds| && ds[i].id == d.id ==> FormOf(ds[i]) == FormOf(d)
    ensures Edit(ds, d.id, FormOf(d)) == ds
  {
    var r := Edit(ds, d.id, FormOf(d));
    forall i | 0 <= i < |ds| ensures r[i] == ds[i] {
      if ds[i].id == d.id {
        assert FormOf(r[i]) == FormOf(ds[i]);
      }
    }
  }

  /** Submitting the same edit twice is submitting it once. */
  lemma EditIdempotent(ds: seq<Director>, id: string, form: DirectorForm)
    ensures Edit(Edit(ds, id, form), id, form) == Edit(ds, id, form)
  {
    var once := Edit(ds, id, form);
    var twice := Edit(once, id, form);
    forall i | 0 <= i < |ds| ensures twice[i] == once[i] {
      if ds[i].id == id {
        assert FormOf(twice[i]) == FormOf(once[i]);
      }
    }
  }

  /** `handleSubmit`: edits the record being edited, if any, or adds a new one. */
  function Submit(ds: seq<Director>, editing: Option<Director>, form: DirectorForm,
                  newId: string, createdAt: string): (r: seq<Director>)
    ensures editing.Some? ==> |r| == |ds|
    ensures editing.Some? ==> forall i :: 0 <= i < |ds| && ds[i].id == editing.value.id ==>
              FormOf(r[i]) == form && r[i].isActive == ds[i].isActive
    ensures editing.Some? ==> forall i :: 0 <= i < |ds| ==> r[i].id == ds[i].id && r[i].createdAt == ds[i].createdAt
    ensures editing.Some? ==> forall i :: 0 <= i < |ds| && ds[i].id != editing.value.id ==> r[i] == ds[i]
    ensures editing.None? ==> |r| == |ds| + 1 && r[..|ds|] == ds && FormOf(r[|ds|]) == form && r[|ds|].isActive
    ensures editing.None? ==> r[|ds|].id == newId && r[|ds|].createdAt == createdAt
  {
    match editing
    case Some(e) => Edit(ds, e.id, form)
    case None => Add(ds, form, newId, createdAt)
  }

  /*** Search ***/

  /** The search predicate: the lowercased term occurs in the lowercased first
      name, last name, school name or school id. The phone number is not searched. */
  predicate Matches(d: Director, term: string)
    ensures term == "" ==> Matches(d, term)
    ensures Matches(d, term) ==>
              |term| <= |d.firstName| || |term| <= |d.lastName| || |term| <= |d.schoolName| || |term| <= |d.schoolId|
  {
    ContainsEmpty(Lower(d.firstName));
    var t := Lower(term);
    || Contains(Lower(d.firstName), t)
    || Contains(Lower(d.lastName), t)
    || Contains(Lower(d.schoolName), t)
    || Contains(Lower(d.schoolId), t)
  }

  /** `filteredDirectors`: the records the term matches, in list order, each as
      often as in the list. */
  function Search(ds: seq<Director>, term: string): (r: seq<Director>)
    ensures Seqs.IsSubsequence(r, ds)
    ensures forall d :: d in r <==> d in ds && Matches(d, term)
    ensures forall d :: multiset(r)[d] == if Matches(d, term) then multiset(ds)[d] else 0
  {
    var p := (d: Director) => Matches(d, term);
    assert forall d :: multiset(Seqs.Filter(p, ds))[d] == if p(d) then multiset(ds)[d] else 0 by {
      forall d ensures multiset(Seqs.Filter(p, ds))[d] == if p(d) then multiset(ds)[d] else 0 {
        Seqs.FilterMultiset(p, ds, d);
      }
    }
    assert forall d :: d in Seqs.Filter(p, ds) <==> multiset(Seqs.Filter(p, ds))[d] > 0;
    Seqs.Filter(p, ds)
  }

  /** An empty search box shows the whole list. */
  lemma SearchEmptyTerm(ds: seq<Director>)
    ensures Search(ds, "") == ds
  {
    forall i | 0 <= i < |ds| ensures Matches(ds[i], "") {
      ContainsEmpty(Lower(ds[i].firstName));
    }
    Seqs.FilterAll((d: Director) => Matches(d, ""), ds);
  }

  /** The search is case-insensitive: lowering the term changes nothing. */
  lemma SearchIgnoresCase(ds: seq<Director>, term: string)
    ensures Search(ds, Lower(term)) == Search(ds, term)
  {
    LowerIdempotent(term);
    Seqs.FilterAgree((d: Director) => Matches(d, Lower(term)), (d: Director) => Matches(d, term), ds);
  }

  /** Only names, school name and school id are searched: editing a phone
      number never changes whether a record matches. */
  lemma MatchIgnoresPhone(d: Director, phone: string, term: string)
    ensures Matches(d.(phoneNumber := phone), term) == Matches(d, term)
  {
  }

  /** Toggling a concatenation toggles each part. */
  lemma ToggleConcat(a: seq<Director>, b: seq<Director>, id: string)
    ensures ToggleStatus(a + b, id) == ToggleStatus(a, id) + ToggleStatus(b, id)
  {
    var l := ToggleStatus(a + b, id);
    var r := ToggleStatus(a, id) + ToggleStatus(b, id);
    forall i | 0 <= i < |l| ensures l[i] == r[i] {
      if i < |a| {
        assert r[i] == ToggleStatus(a, id)[i];
      } else {
        assert r[i] == ToggleStatus(b, id)[i - |a|];
      }
    }
  }

  /** The search result of a list with a given first record. */
  lemma SearchCons(d: Director, ds: seq<Director>, term: string)
    ensures Search([d] + ds, term) == (if Matches(d, term) then [d] else []) + Search(ds, term)
  {
    var s := [d] + ds;
    assert s[0] == d && s[1..] == ds;
  }

  /** Searching a list that has just been toggled gives the toggled search result:
      the status is not part of the search. */
  lemma {:induction false} SearchAfterToggle(ds: seq<Director>, id: string, term: string)
    ensures Search(ToggleStatus(ds, id), term) == ToggleStatus(Search(ds, term), id)
    decreases |ds|
  {
    if |ds| > 0 {
      var d, rest := ds[0], ds[1..];
      assert ds == [d] + rest;
      SearchAfterToggle(rest, id, term);
      var fd := ToggleStatus([d], id)[0];
      assert ToggleStatus([d], id) == [fd];
      assert fd.(isActive := d.isActive) == d;
      assert Matches(fd, term) == Matches(d, term);
      ToggleConcat([d], rest, id);
      SearchCons(fd, ToggleStatus(rest, id), term);
      SearchCons(d, rest, term);
      ToggleConcat(if Matches(d, term) then [d] else [], Search(rest, term), id);
      assert ToggleStatus([], id) == [];
    } else {
      assert Search(ds, term) == [];
    }
  }

  /*** Persistence and the mount-time gate ***/

  /** The two demonstration directors `loadDirectors` seeds; both are active. */
  function DefaultDirectors(now: string): (r: seq<Director>)
    ensures |r| == 2 && r[0].isActive && r[1].isActive
  {
    [ Director("1", "Marie", "Dupont", "École Primaire Les Roses", "EDU001",
               "0123456789", "director2024", true, now),
      Director("2", "Jean", "Martin", "Collège Saint-Antoine", "EDU002",
               "0123456788", "director2024", true, now) ]
  }

  /** Searching the seed list for "EDU002" yields only Jean Martin's record. */
  lemma SeedSearchForSchool(now: string)
    ensures Search(DefaultDirectors(now), "EDU002") == [DefaultDirectors(now)[1]]
  {
    var ds := DefaultDirectors(now);
    SeedFirstNoMatch(now);
    SeedSecondMatches(now);
    assert ds == [ds[0], ds[1]];
    SearchKeepsSecond(ds[0], ds[1], "EDU002");
  }

  lemma SearchKeepsSecond(a: Director, b: Director, term: string)
    requires !Matches(a, term) && Matches(b, term)
    ensures Search([a, b], term) == [b]
  {
    var p := (d: Director) => Matches(d, term);
    assert [a, b] == [a] + [b];
    Seqs.FilterConcat(p, [a], [b]);
    assert Seqs.Filter(p, [a]) == [];
    assert Seqs.Filter(p, [b]) == [b];
  }

  /** Marie Dupont's seeded record does not match "EDU002"... */
  lemma SeedFirstNoMatch(now: string)
    ensures !Matches(DefaultDirectors(now)[0], "EDU002")
  {
    var ds := DefaultDirectors(now);
    assert '2' !in ds[0].firstName && '2' !in ds[0].lastName;
    assert '2' !in ds[0].schoolName && '2' !in ds[0].schoolId;
    NoTwoNoMatch(ds[0]);
  }

  /** ...while Jean Martin's does. */
  lemma SeedSecondMatches(now: string)
    ensures Matches(DefaultDirectors(now)[1], "EDU002")
  {
    SchoolIdMatch(DefaultDirectors(now)[1]);
  }

  /** A record none of whose searched fields holds the digit '2' does not match "EDU002". */
  lemma NoTwoNoMatch(d: Director)
    requires '2' !in d.firstName && '2' !in d.lastName && '2' !in d.schoolName && '2' !in d.schoolId
    ensures !Matches(d, "EDU002")
  {
    var t := Lower("EDU002");
    LowerEdu002();
    assert t[5] == '2';
    LowerKeepsOther(d.firstName, '2');
    LowerKeepsOther(d.lastName, '2');
    LowerKeepsOther(d.schoolName, '2');
    LowerKeepsOther(d.schoolId, '2');
    NoDigitTwo(Lower(d.firstName), t);
    NoDigitTwo(Lower(d.lastName), t);
    NoDigitTwo(Lower(d.schoolName), t);
    NoDigitTwo(Lower(d.schoolId), t);
  }

  /** A record whose school id is "EDU002" matches "EDU002". */
  lemma SchoolIdMatch(d: Director)
    requires d.schoolId == "EDU002"
    ensures Matches(d, "EDU002")
  {
    assert StartsWith(Lower(d.schoolId), Lower("EDU002"));
  }

  lemma LowerEdu002()
    ensures Lower("EDU002") == "edu002"
  {
    assert Lower("EDU002") == [LowerChar('E')] + Lower("DU002");
  }

  /** A lowered string without the digit '2' includes no term containing it. */
  lemma NoDigitTwo(hay: string, t: string)
    requires '2' in t && '2' !in hay
    ensures !Contains(hay, t)
  {
    if Contains(hay, t) {
      ContainsChars(hay, t, '2');
    }
  }

  /** What `loadDirectors` ends up with. */
  datatype Loaded =
    | Loaded(directors: seq<Director>, store: Store)
    | Unreadable   // a truthy value under the key that is not a director list

  /** `loadDirectors`: a saved list is used as it is; with nothing saved the
      two demonstration directors are seeded and written back. */
  function LoadDirectors(store: Store, now: string): (r: Loaded)
    ensures DirectorsKey in store && store[DirectorsKey].DirectorList? ==>
              r == Loaded(store[DirectorsKey].directors, store)
    ensures !Present(store, DirectorsKey) ==>
              r.Loaded? && r.directors == DefaultDirectors(now)
              && r.store == store[DirectorsKey := DirectorList(DefaultDirectors(now))]
    ensures r.Unreadable? <==> Present(store, DirectorsKey) && !store[DirectorsKey].DirectorList?
  {
    if !Present(store, DirectorsKey) then
      var seed := DefaultDirectors(now);
      Loaded(seed, store[DirectorsKey := DirectorList(seed)])
    else if store[DirectorsKey].DirectorList? then
      Loaded(store[DirectorsKey].directors, store)
    else
      Unreadable
  }

  /** The signed-in user is an admin. */
  predicate IsAdmin(store: Store) {
    StoredUser(store).Some? && StoredUser(store).value.role == "admin"
  }

  /** What the console shows after its mount-time effect. */
  datatype AdminView =
    | Redirect(path: string)
    | Console(directors: seq<Director>, store: Store)
    | BrokenList

  /** The mount-time effect: a missing login flag or user record sends to the
      login page, a non-admin user to the dashboard; only an admin gets the list. */
  function Mount(store: Store, now: string): (r: AdminView)
    ensures r == Redirect("/login") <==> !Present(store, LoggedInKey) || !Present(store, UserKey)
    ensures r == Redirect("/dashboard") <==>
              Present(store, LoggedInKey) && Present(store, UserKey) && !IsAdmin(store)
    ensures !r.Redirect? ==> Present(store, LoggedInKey) && IsAdmin(store)
    ensures r.Console? ==> LoadDirectors(store, now) == Loaded(r.directors, r.store)
    ensures r.Redirect? ==> r.path in {"/login", "/dashboard"}
    ensures Present(store, LoggedInKey) && Present(store, UserKey) && IsAdmin(store) ==>
              (r.Console? <==> LoadDirectors(store, now).Loaded?)
  {
    if !Present(store, LoggedInKey) || !Present(store, UserKey) then Redirect("/login")
    else if !IsAdmin(store) then Redirect("/dashboard")
    else
      match LoadDirectors(store, now)
      case Loaded(ds, st) => Console(ds, st)
      case Unreadable => BrokenList
  }

  /*** Persistence: the list is saved under the directors key ***/

  /** The in-page list and the saved list agree. */
  predicate Synced(ds: seq<Director>, store: Store) {
    DirectorsKey in store && store[DirectorsKey] == DirectorList(ds)
  }

  /** `saveDirectors`: writes the list under the directors key and nothing else. */
  function Save(store: Store, ds: seq<Director>): (r: Store)
    ensures Synced(ds, r)
    ensures forall k :: k != DirectorsKey ==> (k in r <==> k in store)
    ensures forall k :: k in store && k != DirectorsKey ==> r[k] == store[k]
  {
    store[DirectorsKey := DirectorList(ds)]
  }

  /** Whatever was saved is what the next mount loads. */
  lemma ReloadAfterSave(store: Store, ds: seq<Director>, now: string)
    ensures LoadDirectors(Save(store, ds), now) == Loaded(ds, Save(store, ds))
  {
  }

  /** A list the console loaded is saved: the page and the store agree from the start. */
  lemma LoadedIsSynced(store: Store, now: string)
    requires LoadDirectors(store, now).Loaded?
    ensures Synced(LoadDirectors(store, now).directors, LoadDirectors(store, now).store)
  {
  }
}
