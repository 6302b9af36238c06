/** The role-aware dashboard shell (`src/pages/Dashboard.tsx`): mocked
    statistics per role, the avatar initials, the theme switch and the
    header title of the selected view. */
module Dashboard {
  import opened Records
  import opened Storage
  import opened Text
  import Seqs

  /*** getDashboardData ***/

  datatype Stat = Stat(title: string, value: string, change: string, trend: string, description: string)

  datatype Activity = Activity(kind: string, subject: string, description: string, time: string, status: string)

  datatype DashboardData = DashboardData(stats: seq<Stat>, recentActivities: seq<Activity>)

  const BaseStats: seq<Stat> := [
    Stat("Notes Récentes", "15.2", "+2.1", "up", "Moyenne générale"),
    Stat("Présences", "94%", "+1.2%", "up", "Ce mois"),
    Stat("Devoirs", "12", "-3", "down", "En attente")
  ]

  const TeacherStats: seq<Stat> := [
    Stat("Étudiants", "127", "+5", "up", "Total inscrit"),
    Stat("Cours", "24", "0", "neutral", "Cette semaine"),
    Stat("Devoirs", "18", "+6", "up", "À corriger")
  ]

  const DirectorStats: seq<Stat> := [
    Stat("Étudiants", "1,247", "+47", "up", "Total inscrit"),
    Stat("Enseignants", "89", "+2", "up", "Actifs"),
    Stat("Taux Réussite", "87%", "+3%", "up", "Ce trimestre")
  ]

  const RecentActivities: seq<Activity> := [
    Activity("grade", "Mathématiques", "Note ajoutée: 16/20", "Il y a 2 heures", "success"),
    Activity("attendance", "Présence", "Présent en cours de Français", "Il y a 3 heures", "success"),
    Activity("assignment", "Histoire", "Devoir à rendre demain", "Il y a 1 jour", "warning"),
    Activity("grade", "Sciences", "Note ajoutée: 14/20", "Il y a 2 jours", "success")
  ]

  /** The role of the loaded user, if there is one and it equals `role`. */
  predicate HasRole(user: Option<SessionUser>, role: string) {
    user.Some? && user.value.role == role
  }

  /** `getDashboardData`: teacher and director users get their own three
      statistics, everybody else (and a page with no user yet) the base ones;
      the four recent activities never depend on the role. */
  function GetDashboardData(user: Option<SessionUser>): (r: DashboardData)
    ensures |r.stats| == 3
    ensures r.recentActivities == RecentActivities && |r.recentActivities| == 4
    ensures r.stats == TeacherStats <==> HasRole(user, "teacher")
    ensures r.stats == DirectorStats <==> HasRole(user, "director")
    ensures r.stats == BaseStats <==> !HasRole(user, "teacher") && !HasRole(user, "director")
  {
    var stats :=
      if HasRole(user, "teacher") then TeacherStats
      else if HasRole(user, "director") then DirectorStats
      else BaseStats;
    assert BaseStats[0] != TeacherStats[0] && BaseStats[0] != DirectorStats[0];
    assert TeacherStats[1] != DirectorStats[1];
    DashboardData(stats, RecentActivities)
  }

  /*** Initials: `name.split(' ').map(n => n[0]).join('')` ***/

  predicate NonEmpty(piece: string) {
    |piece| > 0
  }

  /** First characters of the pieces, in order; an empty piece gives
      `undefined`, which `join` renders as nothing. */
  function InitialsOf(pieces: seq<string>): (r: string)
    ensures var words := Seqs.Filter(NonEmpty, pieces);
            |r| == |words| && forall j :: 0 <= j < |r| ==> r[j] == words[j][0]
  {
    if |pieces| == 0 then ""
    else
      var rest := InitialsOf(pieces[1..]);
      var head := if |pieces[0]| > 0 then [pieces[0][0]] else "";
      var words := Seqs.Filter(NonEmpty, pieces);
      var later := Seqs.Filter(NonEmpty, pieces[1..]);
      assert words == (if NonEmpty(pieces[0]) then [pieces[0]] else []) + later;
      assert forall j :: 0 <= j < |rest| ==> words[|head| + j] == later[j];
      assert forall j :: 0 <= j < |rest| ==> (head + rest)[|head| + j] == rest[j];
      head + rest
  }

  /** Every initial is the first character of some non-empty piece. */
  lemma {:induction false} InitialsOrigin(pieces: seq<string>, r: string)
    requires r == InitialsOf(pieces)
    ensures forall j :: 0 <= j < |r| ==> exists i :: 0 <= i < |pieces| && |pieces[i]| > 0 && r[j] == pieces[i][0]
  {
    if |pieces| > 0 {
      var rest := InitialsOf(pieces[1..]);
      InitialsOrigin(pieces[1..], rest);
      var k := if |pieces[0]| > 0 then 1 else 0;
      assert r == (if k == 1 then [pieces[0][0]] else "") + rest;
      forall j | 0 <= j < |r|
        ensures exists i :: 0 <= i < |pieces| && |pieces[i]| > 0 && r[j] == pieces[i][0]
      {
        if j < k {
          assert r[j] == pieces[0][0];
        } else {
          assert r[j] == rest[j - k];
          var i :| 0 <= i < |pieces[1..]| && |pieces[1..][i]| > 0 && rest[j - k] == pieces[1..][i][0];
          assert pieces[i + 1] == pieces[1..][i];
        }
      }
    }
  }

  /** The avatar initials: every initial is a character of the name, and never a space. */
  function Initials(name: string): (r: string)
    ensures forall j :: 0 <= j < |r| ==> r[j] in name && r[j] != ' '
  {
    var r := InitialsOf(Split(name, ' '));
    InitialsComeFromName(name, r);
    r
  }

  /** The first characters of the space-separated pieces of a name are
      characters of the name other than the space. */
  lemma InitialsComeFromName(name: string, r: string)
    requires r == InitialsOf(Split(name, ' '))
    ensures forall j :: 0 <= j < |r| ==> r[j] in name && r[j] != ' '
  {
    var pieces := Split(name, ' ');
    InitialsOrigin(pieces, r);
    JoinSplit(name, ' ');
    forall j | 0 <= j < |r| ensures r[j] in name && r[j] != ' ' {
      var i :| 0 <= i < |pieces| && |pieces[i]| > 0 && r[j] == pieces[i][0];
      InJoin(pieces, ' ', i, r[j]);
    }
  }

  /** For a name made of non-empty, space-free words joined by single spaces,
      the initials are the words' first letters in order. */
  lemma InitialsOfWords(words: seq<string>)
    requires |words| >= 1
    requires forall i :: 0 <= i < |words| ==> |words[i]| > 0 && ' ' !in words[i]
    ensures Initials(Join(words, ' ')) == seq(|words|, i requires 0 <= i < |words| => words[i][0])
  {
    SplitJoin(words, ' ');
    FirstLetters(words);
  }

  lemma {:induction false} FirstLetters(words: seq<string>)
    requires forall i :: 0 <= i < |words| ==> |words[i]| > 0
    ensures InitialsOf(words) == seq(|words|, i requires 0 <= i < |words| => words[i][0])
  {
    if |words| > 0 {
      FirstLetters(words[1..]);
    }
  }

  /** A director signed in as "Marie Dupont" is shown "MD". */
  lemma InitialsOfDemoDirector()
    ensures Initials("Marie Dupont") == "MD"
  {
    assert Join(["Marie", "Dupont"], ' ') == "Marie Dupont";
    InitialsOfWords(["Marie", "Dupont"]);
  }

  /*** Theme ***/

  function ThemeName(dark: bool): string {
    if dark then "dark" else "light"
  }

  datatype ThemeState = ThemeState(darkMode: bool, store: Store)

  /** `toggleTheme`: negates the mode and stores "dark" exactly when the new
      mode is dark, "light" otherwise; no other key changes. */
  function ToggleTheme(s: ThemeState): (r: ThemeState)
    ensures r.darkMode == !s.darkMode
    ensures ThemeKey in r.store && (r.store[ThemeKey] == Text("dark") <==> r.darkMode)
    ensures r.store[ThemeKey] in {Text("dark"), Text("light")}
    ensures forall k :: k != ThemeKey ==> (k in r.store <==> k in s.store)
    ensures forall k :: k != ThemeKey && k in s.store ==> r.store[k] == s.store[k]
  {
    var dark := !s.darkMode;
    ThemeState(dark, s.store[ThemeKey := Text(ThemeName(dark))])
  }

  /** The stored theme agrees with the mode. */
  predicate ThemeSynced(s: ThemeState) {
    ThemeKey in s.store && s.store[ThemeKey] == Text(ThemeName(s.darkMode))
  }

  /** Toggling twice restores the mode, leaves the stored theme in step with
      it, and restores the whole store when it was in step before. */
  lemma ToggleThemeTwice(s: ThemeState)
    ensures ToggleTheme(ToggleTheme(s)).darkMode == s.darkMode
    ensures ThemeSynced(ToggleTheme(ToggleTheme(s)))
    ensures ThemeSynced(s) ==> ToggleTheme(ToggleTheme(s)) == s
  {
    var r := ToggleTheme(ToggleTheme(s));
    if ThemeSynced(s) {
      assert r.store == s.store;
    }
  }

  /*** Mount-time effect, header title and content ***/

  datatype DashboardView =
    | ToLogin
    | Shown(user: Option<SessionUser>, darkMode: bool)   // None: "Chargement..." is shown

  /** The mount-time effect: a missing login flag or user record sends to the
      login page; otherwise the stored user is loaded and a stored "dark"
      theme switches dark mode on (anything else leaves it off). */
  function Mount(store: Store): (r: DashboardView)
    ensures r.ToLogin? <==> !Present(store, LoggedInKey) || !Present(store, UserKey)
    ensures r.Shown? ==> r.user == StoredUser(store)
    ensures r.Shown? ==> (r.darkMode <==> ThemeKey in store && store[ThemeKey] == Text("dark"))
  {
    if !Present(store, LoggedInKey) || !Present(store, UserKey) then ToLogin
    else Shown(StoredUser(store), ThemeKey in store && store[ThemeKey] == Text("dark"))
  }

  /** The theme a toggle persists is the one the next mount restores. */
  lemma ThemeSurvivesReload(s: ThemeState)
    requires Present(s.store, LoggedInKey) && Present(s.store, UserKey)
    ensures Mount(ToggleTheme(s).store) == Shown(StoredUser(s.store), !s.darkMode)
  {
    var r := ToggleTheme(s);
    assert Present(r.store, LoggedInKey) && Present(r.store, UserKey);
    assert StoredUser(r.store) == StoredUser(s.store);
  }

  datatype NavItem = NavItem(id: string, name: string)

  const NavigationItems: seq<NavItem> := [
    NavItem("dashboard", "Tableau de Bord"),
    NavItem("grades", "Notes"),
    NavItem("attendance", "Présences"),
    NavItem("profile", "Profil")
  ]

  /** `items.find(item => item.id === view)?.label`: the label of the first item
      with that id, if any. */
  function FindLabel(items: seq<NavItem>, view: string): (r: Option<string>)
    ensures r.None? <==> forall i :: 0 <= i < |items| ==> items[i].id != view
    ensures r.Some? ==> exists i :: 0 <= i < |items| && items[i].id == view && items[i].name == r.value
                           && forall j :: 0 <= j < i ==> items[j].id != view
  {
    if |items| == 0 then None
    else if items[0].id == view then Some(items[0].name)
    else
      var r := FindLabel(items[1..], view);
      assert forall i :: 0 < i < |items| ==> items[i] == items[1..][i - 1];
      r
  }

  /** The header title: "Tableau de Bord" for the overview, otherwise the
      label of the matching navigation item (nothing for an unknown view). */
  function HeaderTitle(view: string): (r: Option<string>)
    ensures r == FindLabel(NavigationItems, view)
  {
    assert NavigationItems[0].id == "dashboard";
    if view == "dashboard" then Some("Tableau de Bord") else FindLabel(NavigationItems, view)
  }

  datatype Content = Overview | Grades | Attendance | Profile | NotFound

  /** `renderDashboardContent`: the switch on the current view. */
  function ContentFor(view: string): (c: Content)
    ensures c == NotFound <==> FindLabel(NavigationItems, view).None?
  {
    KnownViews(view);
    if view == "dashboard" then Overview
    else if view == "grades" then Grades
    else if view == "attendance" then Attendance
    else if view == "profile" then Profile
    else NotFound
  }

  /** The views with a navigation item are exactly the four the switch knows. */
  lemma KnownViews(view: string)
    ensures FindLabel(NavigationItems, view).None? <==>
            view != "dashboard" && view != "grades" && view != "attendance" && view != "profile"
  {
    if view != "dashboard" && view != "grades" && view != "attendance" && view != "profile" {
      assert forall i :: 0 <= i < |NavigationItems| ==> NavigationItems[i].id != view;
    } else {
      var i := if view == "dashboard" then 0 else if view == "grades" then 1
               else if view == "attendance" then 2 else 3;
      assert NavigationItems[i].id == view;
    }
  }

  /** The overview's special-cased title is its navigation label, so the header
      always shows the label of the selected item; it shows nothing exactly
      when the content is the not-found placeholder. */
  lemma HeaderMatchesNavigation(view: string)
    ensures HeaderTitle(view) == FindLabel(NavigationItems, view)
    ensures HeaderTitle(view).None? <==> ContentFor(view) == NotFound
  {
  }
}
