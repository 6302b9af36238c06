# EduManage session, admin console and directors hook — a Dafny model

This project models the logic of four parts of the EduManage school-management
front end:

- **The login page** (`src/pages/Login.tsx`):
  - role-dependent validation, where a required field that is blank after `trim()` gets a French error message;
  - clearing a field's error when the field is edited;
  - the demo-credential check for the four roles (admin, director, teacher, student);
  - the session record written to local storage, and the redirect to `/admin` or `/dashboard`;
  - the "fill demo credentials" helper.
- **The admin console** (`src/pages/Admin.tsx`), which keeps the director list in local storage:
  - add, edit, delete and activate/deactivate;
  - case-insensitive search over first name, last name, school name and school id;
  - seeding of the two demonstration directors when nothing is saved;
  - the mount-time gate that admits only a signed-in admin.
- **The dashboard** (`src/pages/Dashboard.tsx`):
  - the mount-time gate and theme restore;
  - the theme toggle and logout;
  - the role-dependent mocked statistics;
  - the avatar initials;
  - the header title of the selected view.
- **The directors hook** (`src/hooks/useDirectors.tsx`):
  - the fetch, which replaces the list on success and keeps it on failure, and always ends loading;
  - the three-step create (auth user, then school upsert, then director insert). It stops at the first failure and undoes nothing;
  - update and delete, which refetch only on success.

Local storage is a map from the four keys (`edumanage_isLoggedIn`,
`edumanage_user`, `edumanage_theme`, `edumanage_directors`) to parsed values
(module `Storage`). The remote backend is a parameter. Each hook operation
receives the answers to the requests it may send. It returns:

- the requests it actually sent;
- its `{ error }` result;
- the new hook state.

The admin console works on local storage alone and does not use the hook. The
hook is modelled on its own, and the two lists are separate.

Modules:

- `Text`: JavaScript `trim`, ASCII `toLowerCase`, `includes`, `split` and `join`.
- `Seqs`: order-keeping filter and map.
- `Records`, `Storage`: the shared records and storage.
- `Admin`, `Login`, `Dashboard`, `DirectorsHook`: one module per source file.
- `Session`: facts that link the pages through storage.

## Model

| member | source | states |
|---|---|---|
| Text.BlankIffAllWhiteSpace | src/pages/Login.tsx:75-84 | `!s.trim()` holds exactly when every character of `s` is JavaScript white space or a line terminator |
| Text.ContainsIff | src/pages/Admin.tsx:210-215 | `includes` holds exactly when the needle occurs at some position of the haystack |
| Text.SplitJoin | src/pages/Dashboard.tsx:553 | splitting at a separator that no piece contains gives back the pieces that were joined |
| Seqs.FilterMultiset | src/pages/Admin.tsx:176-178 | `filter` keeps every element the predicate accepts exactly as often as it occurs, and drops the others |
| Admin.ToggleStatus | src/pages/Admin.tsx:185-191 | same length; `isActive` flips exactly on the records whose id matches; no other field changes |
| Admin.ToggleTwice | src/pages/Admin.tsx:185-191 | toggling the same id twice restores the list |
| Admin.Delete | src/pages/Admin.tsx:176-178 | the result keeps list order, holds no record with the id, and keeps every other record with its multiplicity |
| Admin.Add | src/pages/Admin.tsx:133-140 | the old list is kept as a prefix, and one active record is appended that carries the six form fields, the new id and the creation time |
| Admin.DeleteUndoesAdd | src/pages/Admin.tsx:133-178 | deleting the fresh id of a record just added restores the list |
| Admin.Edit | src/pages/Admin.tsx:120-127 | records with the edited id take the six form fields and keep id, status and creation time; all other records are unchanged |
| Admin.EditUnchangedForm | src/pages/Admin.tsx:162-174 | saving the form the edit button filled in, without changes, leaves the list as it was |
| Admin.EditIdempotent | src/pages/Admin.tsx:120-127 | submitting the same edit twice equals submitting it once |
| Admin.Submit | src/pages/Admin.tsx:117-149 | with a director being edited, records with that id take the form and keep their id, status and creation time, and all others are unchanged; otherwise one new active record carrying the form, the new id and the creation time is appended |
| Admin.Matches | src/pages/Admin.tsx:210-215 | an empty term matches every record, and a record matches only a term no longer than one of its four searched fields |
| Admin.Search | src/pages/Admin.tsx:210-215 | the shown records are, in list order and with multiplicity, exactly those whose lowered first name, last name, school name or school id includes the lowered term |
| Admin.SearchEmptyTerm | src/pages/Admin.tsx:210-215 | an empty term shows the whole list |
| Admin.SearchIgnoresCase | src/pages/Admin.tsx:210-215 | lower-casing the term does not change the result |
| Admin.MatchIgnoresPhone | src/pages/Admin.tsx:210-215 | the phone number is not searched |
| Admin.ToggleConcat | src/pages/Admin.tsx:185-191 | toggling a concatenated list toggles each part separately |
| Admin.SearchCons | src/pages/Admin.tsx:210-215 | the search keeps a list's first record exactly when it matches, followed by the search of the rest |
| Admin.SearchAfterToggle | src/pages/Admin.tsx:185-215 | toggling status and then searching gives the same result as searching and then toggling |
| Admin.DefaultDirectors | src/pages/Admin.tsx:83-106 | two seed records, both active |
| Admin.SeedSearchForSchool | src/pages/Admin.tsx:83-106 | searching the seed for "EDU002" shows only Jean Martin's record |
| Admin.LoadDirectors | src/pages/Admin.tsx:77-109 | a saved list is used unchanged; with nothing saved, the two demonstration directors are used and written back; a saved value that is not a list cannot be read |
| Admin.Mount | src/pages/Admin.tsx:57-75 | sends to `/login` exactly when the login flag or the user record is missing; sends to `/dashboard` exactly when a signed-in user is not an admin; never redirects anywhere else; a signed-in admin gets the console exactly when the list can be loaded |
| Admin.Save | src/pages/Admin.tsx:112-115 | writes the list under the directors key and touches no other key |
| Admin.ReloadAfterSave | src/pages/Admin.tsx:77-115 | whatever was saved is exactly what the next load returns |
| Admin.LoadedIsSynced | src/pages/Admin.tsx:77-109 | the list the console loads is the list the store holds afterwards |
| Storage.StoredUser | src/pages/Dashboard.tsx:53-64 | a user is read back exactly when the user key holds a session record |
| Storage.Logout | src/pages/Admin.tsx:200-208 | removes the login flag and the user record, and keeps every other key with its value (the dashboard's `handleLogout` at src/pages/Dashboard.tsx:86-94 is the same) |
| Login.Set | src/pages/Login.tsx:65 | sets one field and leaves the others |
| Login.ValidationErrorsSpec | src/pages/Login.tsx:71-87 | the error map has a field exactly when the role requires it and it is blank after trim, and holds that field's message |
| Login.Validate | src/pages/Login.tsx:71-87 | the same error map, with `ok` exactly when the map is empty |
| Login.ValidationErrors | src/pages/Login.tsx:71-86 | every reported field is required by the role and carries its own message |
| Login.ValidIffRequiredFilled | src/pages/Login.tsx:71-87 | the form is accepted exactly when no required field is blank |
| Login.WhiteSpaceOnlyIsMissing | src/pages/Login.tsx:75-84 | a required value made only of white space is reported missing |
| Login.ValidateReadsRequired | src/pages/Login.tsx:71-87 | two forms that agree on the role's required fields get the same validation |
| Login.ValidateIgnoresUnrequired | src/pages/Login.tsx:74-84 | changing a field the role does not require never changes the validation |
| Login.InputChange | src/pages/Login.tsx:64-69 | sets the field; a field that had a non-empty error gets an empty one; no error is added and no other error changes |
| Login.CredentialsValid | src/pages/Login.tsx:101-126 | only the four roles can pass, and every passing form names school EDU001 |
| Login.CredentialsIffDemoValues | src/pages/Login.tsx:101-126 | credentials are valid exactly when the role is one of the four and every required field equals that role's demo value |
| Login.DemoValueNotBlank | src/pages/Login.tsx:39-62 | every demo value that a role requires is non-blank |
| Login.CredentialsPassValidation | src/pages/Login.tsx:39-62 | every demo value is non-blank, so valid credentials always pass validation |
| Login.SessionName | src/pages/Login.tsx:132-134 | a director's stored name is the first and last name joined by one space; any other role's name is "Utilisateur " followed by the role |
| Login.RedirectFor | src/pages/Login.tsx:147-152 | the redirect is `/admin` exactly for the admin role and `/dashboard` for every other role |
| Login.HandleLogin | src/pages/Login.tsx:89-169 | a form that fails validation is rejected with its errors; otherwise the user is signed in exactly when the credentials are valid. Signing in stores the session record and the login flag, and redirects by role |
| Login.FillDemo | src/pages/Login.tsx:171-195 | for one of the four roles, every required field gets the role's demo value and every other field is cleared; an unknown role gives nothing |
| Login.FillDemoSignsIn | src/pages/Login.tsx:171-195 | the filled demo credentials always validate and sign in |
| Dashboard.GetDashboardData | src/pages/Dashboard.tsx:104-212 | teacher and director users get their own statistics and everybody else the base ones; the four recent activities do not depend on the role |
| Dashboard.InitialsOf | src/pages/Dashboard.tsx:405 | the initials are the first characters of the non-empty pieces, in order; empty pieces contribute nothing |
| Dashboard.InitialsOrigin | src/pages/Dashboard.tsx:553 | every initial is the first character of some non-empty piece |
| Dashboard.Initials | src/pages/Dashboard.tsx:553 | the avatar initials of a name are characters of the name, and never a space |
| Dashboard.InitialsComeFromName | src/pages/Dashboard.tsx:553 | the first characters of the space-separated pieces of a name are characters of the name and never a space |
| Dashboard.InitialsOfWords | src/pages/Dashboard.tsx:553 | for words joined by single spaces, the initials are the words' first letters in order |
| Dashboard.InitialsOfDemoDirector | src/pages/Dashboard.tsx:553 | "Marie Dupont" is shown as "MD" |
| Dashboard.ToggleTheme | src/pages/Dashboard.tsx:73-84 | negates dark mode and stores "dark" exactly when the new mode is dark ("light" otherwise); no other key changes |
| Dashboard.ToggleThemeTwice | src/pages/Dashboard.tsx:73-84 | toggling twice restores the mode, and restores the store when the stored theme was in step |
| Dashboard.Mount | src/pages/Dashboard.tsx:53-71 | sends to `/login` exactly when the flag or the user record is missing; otherwise shows the stored user, in dark mode exactly when "dark" is stored |
| Dashboard.ThemeSurvivesReload | src/pages/Dashboard.tsx:53-84 | the theme a toggle stores is the one the next mount restores |
| Dashboard.FindLabel | src/pages/Dashboard.tsx:535 | nothing exactly when no item has the id; otherwise the label of the first item with it |
| Dashboard.HeaderTitle | src/pages/Dashboard.tsx:534-535 | the special-cased overview title equals the overview's navigation label, so the header is always the `find` result |
| Dashboard.KnownViews | src/pages/Dashboard.tsx:96-101 | a view has a navigation item exactly when it is one of the four ids |
| Dashboard.ContentFor | src/pages/Dashboard.tsx:216-466 | the content switch falls to "not found" exactly for a view without a navigation item |
| Dashboard.HeaderMatchesNavigation | src/pages/Dashboard.tsx:534-535 | the header shows the selected item's navigation label, and shows nothing exactly when the content switch falls to "not found" |
| DirectorsHook.Fetch | src/hooks/useDirectors.tsx:35-63 | a successful query replaces the list (`null` becomes empty); a failed one keeps it; loading ends either way |
| DirectorsHook.FetchIdempotent | src/hooks/useDirectors.tsx:35-63 | repeating a fetch with the same answer changes nothing; a successful fetch ignores the previous list |
| DirectorsHook.Mount | src/hooks/useDirectors.tsx:29-33 | with a user signed in, one select is sent and the state is that fetch's result; otherwise nothing is requested and the state, loading included, stays as it was |
| DirectorsHook.Email | src/hooks/useDirectors.tsx:76 | the e-mail has a dot after the first name, `@` after the last name and ends with `.edu`, with six characters added to the three inputs |
| DirectorsHook.EmailParts | src/hooks/useDirectors.tsx:76 | when the inputs contain no `@`, the derived e-mail splits at `@` into the lowered `first.last` part and the lowered `schoolid.edu` part |
| DirectorsHook.EmailIgnoresCase | src/hooks/useDirectors.tsx:76 | the e-mail does not depend on the case of the inputs |
| DirectorsHook.Create | src/hooks/useDirectors.tsx:65-126 | the requests sent are a prefix of auth user, school upsert, director insert, refetch. The school is upserted exactly when the auth user was created, and the director inserted exactly when the upsert also succeeded. The error is the first failing step's error, and there is none exactly when all three writes succeed. A failure leaves the state unchanged; a success leaves the refetched state |
| DirectorsHook.CreateRefetchOnlyOnSuccess | src/hooks/useDirectors.tsx:65-126 | the list is refetched exactly when the create reports no error; the auth user request is always made; no request ever undoes an earlier write |
| DirectorsHook.CreateAsksForDirectorAccount | src/hooks/useDirectors.tsx:75-85 | the auth user is requested with the derived e-mail, the form's password and the director role |
| DirectorsHook.WriteThenRefetch | src/hooks/useDirectors.tsx:128-166 | one write, then a refetch only when the write succeeded; a failed write keeps the state |
| DirectorsHook.Update | src/hooks/useDirectors.tsx:128-146 | sends exactly the update of that row, followed by a refetch exactly when it returns no error; returns that error; the state is the refetched one on success and unchanged on failure |
| DirectorsHook.Delete | src/hooks/useDirectors.tsx:148-166 | sends exactly the deletion of that row, followed by a refetch exactly when it returns no error; returns that error; the state is the refetched one on success and unchanged on failure |
| DirectorsHook.WritesTrustTheRefetch | src/hooks/useDirectors.tsx:128-166 | after a successful update or delete the list is exactly what the refetch returned |
| Session.LoginOpensDashboard | src/pages/Login.tsx:139-140 | after a successful login the dashboard opens on that user, with the theme already stored |
| Session.LoginGatesAdmin | src/pages/Login.tsx:147-152 | the admin console admits exactly the sessions the login page sends to `/admin`, and sends every other signed-in role to `/dashboard` |
| Session.LogoutLocksBothPages | src/pages/Dashboard.tsx:86-94 | after logout both pages send to `/login`; the theme and the saved director list survive |
| Session.LoginAfterLogout | src/pages/Login.tsx:128-152 | logging out and in again as the same role gives the same user and the same redirect |
| Session.LoginPicksStatistics | src/pages/Dashboard.tsx:104-212 | after signing in, the dashboard shows the director figures exactly for a director and the teacher figures exactly for a teacher |
| Session.DirectorAvatar | src/pages/Login.tsx:132-134 | a director with one-word first and last names is shown their two first letters |

## Left out

- Rendering is not modelled: the JSX layout, icons, modal open/close, the sidebar, password visibility and loading spinners.
- Toasts are not modelled, including the toggle toast's title, which is chosen from the status before the toggle.
- HTML `required` attributes and other browser-side form checks are left out. Only `validateForm` and the handlers are modelled.
- `JSON.parse` is replaced by typed storage values. A user key that does not hold a session record counts as "no role", so the admin console redirects to `/dashboard`. A directors key holding something that is not a list gives `BrokenList` or `Unreadable`, because the source would store a non-array and fail when rendering. A parse exception is not modelled.
- `toLowerCase` is modelled for ASCII letters only. Unicode case mapping (for example `É` in school names) is left out.
- The login page's 1500 ms simulated delay, its `isLoading` flag and the catch-all error toast are left out.
- Login.HandleLogin: a local-storage failure while signing in is not modelled. Either `setItem` call can throw when storage is full or blocked, and a failure of the second write would leave the user record stored without the login flag; the model always writes both keys.
- `Date.now()` and `new Date().toISOString()` are parameters (`id`, `createdAt`, `now`, `loginTime`). Their uniqueness and format are not modelled. `Admin.DeleteUndoesAdd` requires the fresh id to be unused.
- The DOM `dark` class toggled with the theme is left out. Only the state and the stored key are modelled.
- The remote backend's own semantics are not modelled. That covers:
  - what an upsert or insert does to the tables, row-level security, and the `order('created_at', descending)` sort;
  - that `createUser` may answer with no user. Its id is an `Option`, passed through as the source does with `authData.user?.id`.
- Errors thrown by the backend client and errors it returns are one `Error` value, because every handler treats them alike. A throw inside the refetch is caught by the fetch itself and is modelled as a failed fetch.
- `useAuth` is not part of this model. The signed-in user's id is a parameter, `me` or `user`.
- The page-level React state (`currentRole`, `currentView`, `searchTerm`, the modal's `editingDirector`) is passed in as parameters. Re-renders and effect scheduling are not modelled.
- `src/pages/Index.tsx`, `src/hooks/useProfile.tsx` and `tailwind.config.ts` are not part of this model. They are a marketing page, a profile hook and styling.
- Dashboard.Mount: when the user key holds something that is not a session record, the source shows that parsed value as the user. The model shows no user, which is the "Chargement..." state.
- Admin.DefaultDirectors: both seed records take one creation time `now`. The source calls `new Date().toISOString()` once per record, so the two times may differ by a tick.
- Dashboard.InitialsOf: `n[0]` takes the first UTF-16 code unit of a piece. A Dafny `char` is a whole code point, so for a name that starts with a character outside the Basic Multilingual Plane the model gives the whole character where the source gives half a surrogate pair.
- DirectorsHook.Mount: the effect's re-run when the signed-in user changes is not modelled. One mount is one call.
