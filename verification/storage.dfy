/** The browser's local storage as the pages share it: four keys, each holding
    either plain text or a JSON-serialised record (kept here as the record itself). */
module Storage {
  import opened Records

  const LoggedInKey := "edumanage_isLoggedIn"
  const UserKey := "edumanage_user"
  const ThemeKey := "edumanage_theme"
  const DirectorsKey := "edumanage_directors"

  /** What `localStorage.getItem` hands back, once parsed. */
  datatype Value =
    | Text(text: string)
    | UserRecord(user: SessionUser)
    | DirectorList(directors: seq<Director>)

  type Store = map<string, Value>

  /** `localStorage.getItem(key)` is truthy: the key is set and does not hold
      the empty string (a serialised record is never empty). */
  predicate Present(store: Store, key: string) {
    key in store && store[key] != Text("")
  }

  /** The session user stored under the user key, when that key holds one. */
  function StoredUser(store: Store): (u: Option<SessionUser>)
    ensures u.Some? <==> UserKey in store && store[UserKey].UserRecord?
    ensures u.Some? ==> store[UserKey] == UserRecord(u.value)
  {
    if UserKey in store && store[UserKey].UserRecord? then Some(store[UserKey].user) else None
  }

  /** `handleLogout`: removes the login flag and the user record and nothing else. */
  function Logout(store: Store): (r: Store)
    ensures LoggedInKey !in r && UserKey !in r
    ensures forall k :: k != LoggedInKey && k != UserKey ==> (k in r <==> k in store)
    ensures forall k :: k in r ==> r[k] == store[k]
  {
    store - {LoggedInKey, UserKey}
  }
}
