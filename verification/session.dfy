/** How the pages hand the session to each other through local storage: what
    the login page writes is what the dashboard and the admin console read at
    mount time, and what both pages' logout removes. */
module Session {
  import opened Records
  import opened Storage
  import Login
  import Admin
  import Dashboard

  /** After a successful login the dashboard opens on that very user, with the
      theme that was already stored. */
  lemma LoginOpensDashboard(role: string, form: Login.LoginForm, store: Store, loginTime: string)
    requires Login.CredentialsValid(role, form)
    ensures Dashboard.Mount(Login.HandleLogin(role, form, store, loginTime).store)
            == Dashboard.Shown(Some(Login.HandleLogin(role, form, store, loginTime).user),
                               ThemeKey in store && store[ThemeKey] == Text("dark"))
  {
    var r := Login.HandleLogin(role, form, store, loginTime);
    assert r.store[LoggedInKey] == Text("true");
    assert r.store[UserKey] == UserRecord(r.user);
    assert r.store[ThemeKey] == store[ThemeKey] <== ThemeKey in store;
  }

  /** The admin console admits exactly the sessions the login page sends to
      "/admin"; every other signed-in role is turned back to the dashboard. */
  lemma LoginGatesAdmin(role: string, form: Login.LoginForm, store: Store, loginTime: string, now: string)
    requires Login.CredentialsValid(role, form)
    ensures var r := Login.HandleLogin(role, form, store, loginTime);
            !Admin.Mount(r.store, now).Redirect? <==> r.redirect == "/admin"
    ensures var r := Login.HandleLogin(role, form, store, loginTime);
            Admin.Mount(r.store, now) == Admin.Redirect("/dashboard") <==> r.redirect == "/dashboard"
  {
    var r := Login.HandleLogin(role, form, store, loginTime);
    assert Present(r.store, LoggedInKey) && Present(r.store, UserKey);
    assert StoredUser(r.store) == Some(r.user);
    assert Admin.IsAdmin(r.store) <==> role == Login.AdminRole;
  }

  /** After either page's logout both gates send to the login page, while the
      theme and the saved director list survive. */
  lemma LogoutLocksBothPages(store: Store, now: string)
    ensures Dashboard.Mount(Logout(store)) == Dashboard.ToLogin
    ensures Admin.Mount(Logout(store), now) == Admin.Redirect("/login")
    ensures ThemeKey in Logout(store) <==> ThemeKey in store
    ensures DirectorsKey in store ==> Logout(store)[DirectorsKey] == store[DirectorsKey]
  {
    assert ThemeKey != LoggedInKey && ThemeKey != UserKey;
    assert DirectorsKey != LoggedInKey && DirectorsKey != UserKey;
  }

  /** Logging out and back in as the same role leads to the same page and the
      same stored user as the first login. */
  lemma LoginAfterLogout(role: string, form: Login.LoginForm, store: Store, loginTime: string)
    requires Login.CredentialsValid(role, form)
    ensures var first := Login.HandleLogin(role, form, store, loginTime);
            var again := Login.HandleLogin(role, form, Logout(first.store), loginTime);
            again.SignedIn? && again.user == first.user && again.redirect == first.redirect
            && StoredUser(again.store) == StoredUser(first.store)
  {
  }

  /** The statistics the dashboard opens with follow the role that signed in:
      director and teacher figures for those roles, the base figures otherwise. */
  lemma LoginPicksStatistics(role: string, form: Login.LoginForm, store: Store, loginTime: string)
    requires Login.CredentialsValid(role, form)
    ensures var view := Dashboard.Mount(Login.HandleLogin(role, form, store, loginTime).store);
            view.Shown?
            && (Dashboard.GetDashboardData(view.user).stats == Dashboard.DirectorStats <==> role == "director")
            && (Dashboard.GetDashboardData(view.user).stats == Dashboard.TeacherStats <==> role == "teacher")
  {
    LoginOpensDashboard(role, form, store, loginTime);
  }

  /** A director whose names are single non-empty words is shown the first
      letters of the first and last name. */
  lemma DirectorAvatar(form: Login.LoginForm)
    requires |form.firstName| > 0 && ' ' !in form.firstName
    requires |form.lastName| > 0 && ' ' !in form.lastName
    ensures Dashboard.Initials(Login.SessionName(Login.DirectorRole, form)) == [form.firstName[0], form.lastName[0]]
  {
    Dashboard.InitialsOfWords([form.firstName, form.lastName]);
  }
}
