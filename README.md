# Time-management app: verified model of the front ends and the auth service

This project is a Dafny model of the logic of a small time-management application. The
application has three parts:

- a current React front end (`frontend/src`): registration form, todo list, toast
  notifications, authentication context and application shell;
- a legacy React front end (`src`): todo list, authentication context, route guard and
  navigation bar;
- a Python authorization service (`backend_python_service/app/auth.py`): password login
  issuing a JWT, and the dependency chain that checks a bearer token.

The model follows each source file's own form. Components whose handlers replace React
state are classes whose fields are that state. Their methods carry `modifies` clauses.
Each method's `ensures` gives the whole new state in terms of pure functions, and lemmas
prove what those functions mean.

The browser's `localStorage` is one shared `Storage.LocalStorage` object. The todo list,
the registration page, the auth provider and the shell all hold it by reference. So the
JWT the auth provider writes is the one the request interceptor reads.

Modules:

- **Wrappers**: `Option` and `Result`.
- **Text**: the JavaScript string operations the code relies on: `trim`, `toLowerCase`,
  `includes`, `startsWith`.
- **Seqs**: `Array.prototype.filter` and its laws.
- **Storage**: `localStorage` as a map from keys to parsed JSON values.
- **JsValues**: the JSON values of a response body, with `undefined` and JavaScript
  truthiness.
- **Email**: the registration form's e-mail regular expression.
- **Registration**: `RegistrationPage`: password strength, per-field validation, the form
  error map, the submit button, and submission with duplicate detection.
- **TodoList**, **LegacyTodoList**: the two todo lists, with persistence, search, tabs,
  counters, add, delete and toggle.
- **Toasts**: `ToastProvider`: showing, removing, pausing and resuming toasts, grouping by
  screen position, and container placement.
- **AuthContext**, **LegacyAuth**: the two authentication providers.
- **Routes**: the `PrivateRoute` guard and the route-to-guard table shared by both shells,
  matched as React Router matches a route without `caseSensitive`.
- **LegacyApp**: the legacy navigation bar.
- **AppShell**: `InnerApp`:
  - the theme and the cookie banner;
  - the side drawer;
  - the breadcrumb;
  - the two axios interceptors.
- **BackendAuth**: `authenticate_user`, `create_access_token`, `get_current_user`,
  `get_current_active_user`, `get_current_active_admin`, `login_for_access_token`, and the
  bearer-token dependency.
- **EndToEnd**: the two layers together:
  - a token issued by the back end, stored by the front end and sent by its interceptor,
    identifies the user who logged in;
  - the front end and the back end disagree on a role written with capitals.

Parameters stand in for whatever the code only calls and the model cannot see:

- `now` for the clock;
- `id` and `timer` for `Date.now()` and `setTimeout` handles;
- the login response for the HTTP request;
- `verify` for password hashing;
- `encode` and `decodeSignature` for JWT signing and verification.

## Model

| member | source | states |
|---|---|---|
| Storage.LookupAfterSave | frontend/src/utils/storage.ts:3-10 | after `savelocalStorage(key, data)`, `key` reads back `data` and every other key reads as before |
| Storage.LookupAfterRemove | frontend/src/utils/storage.ts:7-14 | after `removelocaStorage(key)`, `key` reads as absent and every other key reads as before |
| Storage.LocalStorage.Save | frontend/src/utils/storage.ts:3-5 | the stored map becomes the old one with `key` set to `data` |
| Storage.LocalStorage.Get | frontend/src/utils/storage.ts:7-10 | returns the stored value exactly when the key is present, and nothing otherwise |
| Storage.LocalStorage.Remove | frontend/src/utils/storage.ts:12-14 | the stored map becomes the old one without `key` |
| Text.Trim | frontend/src/pages/RegistrationPage.tsx:74 | the trimmed string is empty exactly when the input is all whitespace; otherwise it neither starts nor ends with whitespace |
| Text.TrimKeepsMiddle | frontend/src/pages/RegistrationPage.tsx:74 | `trim` keeps one contiguous part of the input, and every character it cuts off is whitespace |
| Text.TrimIdempotent | frontend/src/pages/Home/todo/TodoList.tsx:102 | trimming twice equals trimming once |
| Text.ToLower | frontend/src/pages/Home/todo/TodoList.tsx:67 | The result has the input's length and holds, at each position, the input's character with an ASCII upper-case letter replaced by its lower-case letter, so no ASCII upper-case letter remains. |
| Text.ToLowerIdempotent | frontend/src/pages/RegistrationPage.tsx:158 | lower-casing twice equals lower-casing once |
| Seqs.Filter | frontend/src/pages/Home/todo/TodoList.tsx:70 | the result is no longer than the input and every element of it satisfies the predicate |
| Seqs.FilterMultiset | frontend/src/pages/Home/todo/TodoList.tsx:118 | `filter` keeps every occurrence of an element that satisfies the predicate and drops every other: it is a sub-multiset of its input |
| Seqs.FilterConcat | frontend/src/context/ToastContext.tsx:55 | filtering a concatenation is concatenating the filtered parts |
| Seqs.FilterSplit | frontend/src/pages/Home/todo/TodoList.tsx:141-143 | filtering by a predicate and by its negation gives lengths that add up to the input's |
| Seqs.FilterFusion | frontend/src/pages/Home/todo/TodoList.tsx:68-76 | two filters in a row equal one filter by the conjunction |
| Seqs.FilterKeepsAll | frontend/src/pages/Home/todo/TodoList.tsx:118 | a filter that every element passes returns the input unchanged |
| Email.MatchDomainCorrect | frontend/src/pages/RegistrationPage.tsx:87 | the recognizer accepts from a position exactly the domains `([\w-]+\.)+[\w-]{2,}` describes |
| Email.MatchEmailCorrect | frontend/src/pages/RegistrationPage.tsx:87-88 | the recognizer accepts exactly the strings matched by `^[\w-.]+@([\w-]+\.)+[\w-]{2,}$` |
| Registration.Strength | frontend/src/pages/RegistrationPage.tsx:35-44 | the score is between 0 and 5, and 0 exactly for the empty password |
| Registration.CalculatePasswordStrength | frontend/src/pages/RegistrationPage.tsx:35-44 | the score accumulated point by point equals the number of criteria met: length at least 8, a lower-case letter, an upper-case letter, a digit, a symbol |
| Registration.BlankPasswordIsWeak | frontend/src/pages/RegistrationPage.tsx:38-42 | a password made only of whitespace scores at most 2 |
| Registration.StrengthColor | frontend/src/pages/RegistrationPage.tsx:46-52 | the colour is one of the five; red exactly for strength at most 1 and green exactly from 5 |
| Registration.StrengthLabel | frontend/src/pages/RegistrationPage.tsx:199 | the label is always one of the five labels: label `s` for a strength `s` from 1 to 5, and "Too weak" otherwise |
| Registration.ColorAgreesWithLabel | frontend/src/pages/RegistrationPage.tsx:46-52 | the bar is red exactly when the label reads "Too weak", green exactly when it reads "Strong", and a password that passes validation is never shown red or orange |
| Registration.UsernameRules | frontend/src/pages/RegistrationPage.tsx:73-78 | the user name passes exactly when its trimmed length is at least 3; "required" exactly when it is blank; "at least 3" exactly for 1 or 2 characters after trimming |
| Registration.GroupNameRules | frontend/src/pages/RegistrationPage.tsx:79-83 | the group name passes exactly when it is not blank, and otherwise gets "required" |
| Registration.EmailRules | frontend/src/pages/RegistrationPage.tsx:84-90 | the e-mail passes exactly when its trimmed value matches the expression; "required" exactly when blank; "invalid" exactly when not blank and not matching |
| Registration.PasswordRules | frontend/src/pages/RegistrationPage.tsx:91-96 | the password passes exactly when it has at least 8 characters and strength at least 3; each of the three messages has its exact condition |
| Registration.ConfirmRules | frontend/src/pages/RegistrationPage.tsx:97-101 | the confirmation passes exactly when it is non-empty and equal to the password; "please confirm" exactly when empty |
| Registration.ValidateField | frontend/src/pages/RegistrationPage.tsx:71-105 | `validateField` passes a value exactly when it meets its field's rule (trimmed name of 3 or more, non-blank group, trimmed e-mail matching the expression, password of 8 or more with strength 3 or more, non-empty confirmation equal to the password), and every message it gives is non-empty |
| Registration.ErrorOf | frontend/src/pages/RegistrationPage.tsx:71-105 | every message a validator returns is non-empty, so `if (error)` keeps all of them |
| Registration.DuplicateMessage | frontend/src/pages/RegistrationPage.tsx:157-168 | no message exactly when neither the name nor the e-mail is taken (ignoring case), and otherwise one of the three duplicate messages |
| Registration.CollectEntries | frontend/src/pages/RegistrationPage.tsx:134-139 | a field is in the error map exactly when it was visited and its validator failed, and its entry is that validator's message |
| Registration.NoErrorsIffValid | frontend/src/pages/RegistrationPage.tsx:132-143 | the error map is empty exactly when all five fields pass, so `validateForm` returns true exactly for a valid form |
| Registration.CollectErrors | frontend/src/pages/RegistrationPage.tsx:132-139 | the `forEach` loop builds exactly the error map of the form |
| Registration.ValidFormHasNoBlankField | frontend/src/pages/RegistrationPage.tsx:201-202 | a form whose fields all pass has no blank field |
| Registration.SubmitEnabledIffValid | frontend/src/pages/RegistrationPage.tsx:201-202 | after `validateForm`, the submit button is disabled exactly when the form is invalid |
| Registration.ErrorsAfterEditAsWritten | frontend/src/pages/RegistrationPage.tsx:106-116 | `updateField` as written. An untouched field leaves the errors as they were, and a touched one shows its validator's result for the typed value. After a password edit the touched confirmation is compared with the password from before the edit, and no other field's error changes |
| Registration.StaleConfirmationError | frontend/src/pages/RegistrationPage.tsx:97-114 | as written, editing the password to equal a touched confirmation leaves "Passwords do not match." shown, so the touched errors no longer agree with the form |
| Registration.EditKeepsErrorsCurrent | frontend/src/pages/RegistrationPage.tsx:106-116 | with the confirmation rechecked against the new password, an edit keeps every touched field showing exactly its current error |
| Registration.BlurKeepsErrorsCurrent | frontend/src/pages/RegistrationPage.tsx:123-129 | leaving a field marks it touched and keeps every touched field showing exactly its current error |
| Registration.FormErrorsCurrent | frontend/src/pages/RegistrationPage.tsx:132-143 | after `validateForm` every field is touched and shows exactly its current error |
| Registration.SubmitTracksValidity | frontend/src/pages/RegistrationPage.tsx:201-202 | while every field is touched and shows its current error, the submit button is disabled exactly when the form is invalid |
| Registration.DuplicateMessageCases | frontend/src/pages/RegistrationPage.tsx:157-168 | no message exactly when neither the name nor the e-mail is taken (ignoring case); otherwise each of the three messages has its exact condition |
| Registration.RegisteredUserBlocksDuplicates | frontend/src/pages/RegistrationPage.tsx:157-179 | once a user is stored, a later form with the same trimmed name or e-mail (ignoring case) is refused |
| Registration.RegistrationPage.constructor | frontend/src/pages/RegistrationPage.tsx:57-66 | the page starts with an empty form, no errors, nothing touched and no status |
| Registration.RegistrationPage.UpdateField | frontend/src/pages/RegistrationPage.tsx:106-120 | the field takes the typed value; the errors are those of the corrected edit, so touched fields that showed their current errors still do |
| Registration.RegistrationPage.HandleBlur | frontend/src/pages/RegistrationPage.tsx:123-129 | the field becomes touched and shows the error of its current value; touched fields that showed their current errors still do |
| Registration.RegistrationPage.ValidateForm | frontend/src/pages/RegistrationPage.tsx:132-143 | the errors become the form's error map, every field is touched, and the result is the form's validity |
| Registration.RegistrationPage.HandleSubmit | frontend/src/pages/RegistrationPage.tsx:151-182 | three outcomes, each with the whole new state and storage. An invalid form only shows errors and stores nothing. A duplicate shows the danger message and stores nothing. Otherwise the normalised user is appended to the stored users, the form is reset and success is shown |
| TodoList.LoadAll | frontend/src/pages/Home/todo/TodoList.tsx:51 | every stored todo is loaded with `completed ?? false`, in order |
| TodoList.PersistAll | frontend/src/pages/Home/todo/TodoList.tsx:83 | every todo is written back with its `completed` flag, in order |
| TodoList.InitTodos | frontend/src/pages/Home/todo/TodoList.tsx:46-57 | with no stored list the todos start empty; otherwise they are the stored items as loaded |
| TodoList.Filtered | frontend/src/pages/Home/todo/TodoList.tsx:66-78 | the shown list is no longer than the todos and every todo in it belongs to the active tab; `FilteredMatches` states the full match |
| TodoList.ReloadRoundTrip | frontend/src/pages/Home/todo/TodoList.tsx:46-87 | what the save effect writes is read back unchanged by the next `initTodo` |
| TodoList.FilteredMatches | frontend/src/pages/Home/todo/TodoList.tsx:66-78 | the shown list is exactly the todos, in order, whose lower-cased text contains the lower-cased query and that belong to the active tab |
| TodoList.CountsAddUp | frontend/src/pages/Home/todo/TodoList.tsx:141-143 | the active and the complete counts add up to the total |
| TodoList.CountsMatchTabs | frontend/src/pages/Home/todo/TodoList.tsx:66-78 | with an empty search, each tab shows exactly as many todos as its counter says |
| TodoList.WithoutId | frontend/src/pages/Home/todo/TodoList.tsx:117-119 | no remaining todo has the id, and every todo with another id keeps all its occurrences |
| TodoList.ToggledById | frontend/src/pages/Home/todo/TodoList.tsx:137-139 | `completed` flips on the todos with the id; every other field and every other todo is unchanged |
| TodoList.ToggleTwice | frontend/src/pages/Home/todo/TodoList.tsx:137-139 | toggling the same id twice restores the list |
| TodoList.TodoListPage.constructor | frontend/src/pages/Home/todo/TodoList.tsx:41-87 | mounting loads the stored list, starts with empty input, empty search and the All tab, and writes the list back |
| TodoList.TodoListPage.SetInput | frontend/src/pages/Home/todo/TodoList.tsx:41 | the input holds the typed value |
| TodoList.TodoListPage.SetQuery | frontend/src/pages/Home/todo/TodoList.tsx:60 | the search holds the typed value |
| TodoList.TodoListPage.SetActiveTab | frontend/src/pages/Home/todo/TodoList.tsx:63 | the tab is the one selected |
| TodoList.TodoListPage.HandleAdd | frontend/src/pages/Home/todo/TodoList.tsx:101-115 | blank input or an existing text changes nothing; otherwise one uncompleted todo with the trimmed text is appended, the input is cleared, distinct texts stay distinct, and the list is saved |
| TodoList.TodoListPage.HandleDelete | frontend/src/pages/Home/todo/TodoList.tsx:117-119 | the todos with the id are removed and the list is saved |
| TodoList.TodoListPage.HandleDeleteRequest | frontend/src/pages/Home/todo/TodoList.tsx:121-124 | the todo is remembered and the confirmation dialog opens |
| TodoList.TodoListPage.HandleCancelDelete | frontend/src/pages/Home/todo/TodoList.tsx:126-129 | the dialog closes and nothing is remembered |
| TodoList.TodoListPage.HandleConfirmDelete | frontend/src/pages/Home/todo/TodoList.tsx:131-135 | with nothing remembered nothing changes; otherwise the remembered todo's id is deleted, the dialog closes and the list is saved |
| TodoList.TodoListPage.HandleToggleComplete | frontend/src/pages/Home/todo/TodoList.tsx:137-139 | the todos with the id flip `completed` and the list is saved |
| LegacyTodoList.InitTodos | src/pages/Home/todo/TodoList.tsx:17-28 | the stored list as it is when a list is stored, and the empty list when nothing or something other than a list is stored |
| LegacyTodoList.WithoutId | src/pages/Home/todo/TodoList.tsx:68-71 | no remaining todo has the id, and every todo with another id keeps all its occurrences |
| LegacyTodoList.WithoutAbsentId | src/pages/Home/todo/TodoList.tsx:68-71 | deleting an id that no todo carries changes nothing |
| LegacyTodoList.TodoListPage.constructor | src/pages/Home/todo/TodoList.tsx:12-39 | mounting loads the stored list with empty input and writes the list back |
| LegacyTodoList.TodoListPage.SetInput | src/pages/Home/todo/TodoList.tsx:12 | the input holds the typed value |
| LegacyTodoList.TodoListPage.HandleAdd | src/pages/Home/todo/TodoList.tsx:53-66 | blank input or an existing text changes nothing; otherwise one todo with the trimmed text is appended, the input is cleared and the list is saved |
| LegacyTodoList.TodoListPage.HandleDelete | src/pages/Home/todo/TodoList.tsx:68-71 | the todos with the id are removed and the list is saved |
| Toasts.WithoutToast | frontend/src/context/ToastContext.tsx:54-56 | no remaining toast has the id, and every toast with another id keeps all its occurrences |
| Toasts.RemoveAbsent | frontend/src/context/ToastContext.tsx:54-56 | removing an id that no toast carries changes nothing |
| Toasts.RemoveTwice | frontend/src/context/ToastContext.tsx:54-56 | removing the same id twice equals removing it once |
| Toasts.ShowThenRemove | frontend/src/context/ToastContext.tsx:38-56 | showing a toast with a fresh id and then removing that id restores the list |
| Toasts.Paused | frontend/src/context/ToastContext.tsx:58-68 | the toasts with the id stop auto-hiding and lose their timer; every other toast is unchanged |
| Toasts.Resumed | frontend/src/context/ToastContext.tsx:70-79 | the toasts with the id auto-hide again with the new timer; every other toast is unchanged |
| Toasts.PauseThenResume | frontend/src/context/ToastContext.tsx:58-79 | hovering and then leaving a toast leaves it as leaving alone would |
| Toasts.ShownToastAfterHover | frontend/src/context/ToastContext.tsx:38-79 | a shown toast that is hovered and left is the same toast with the new timer |
| Toasts.AtPositionSnoc | frontend/src/context/ToastContext.tsx:90-97 | appending a toast appends it to its own position's group and to no other |
| Toasts.FirstSeenExact | frontend/src/context/ToastContext.tsx:90-97 | the positions listed are distinct, and they are exactly the positions some toast has |
| Toasts.FirstSeenSnoc | frontend/src/context/ToastContext.tsx:90-97 | a toast at a new position adds that position at the end; at a known position the list stays |
| Toasts.UnlistedIsEmpty | frontend/src/context/ToastContext.tsx:90-97 | no toast sits at a position that is not listed |
| Toasts.GroupSizesTotal | frontend/src/context/ToastContext.tsx:90-97 | over distinct positions covering every toast, the group sizes add up to the number of toasts |
| Toasts.ToastsByPosition | frontend/src/context/ToastContext.tsx:90-97 | the accumulating loop yields one group per position, in the order the positions first occur, each holding exactly that position's toasts in order |
| Toasts.GroupingPartitions | frontend/src/context/ToastContext.tsx:90-97 | the groups partition the toasts: distinct positions, every toast in one group, and the sizes add up to the total |
| Toasts.AnchoredAtBottomIff | frontend/src/context/ToastContext.tsx:82-88 | a container is anchored at the bottom exactly for the three bottom positions, because their names contain "bottom" |
| Toasts.ToastQueue.constructor | frontend/src/context/ToastContext.tsx:36 | the provider starts with no toasts |
| Toasts.NewToast | frontend/src/context/ToastContext.tsx:38-52 | the toast has the given id and message, auto-hides with the given timer, and takes the given variant and position or the defaults `dark` and `top-center` |
| Toasts.ToastQueue.ShowToast | frontend/src/context/ToastContext.tsx:38-52 | one auto-hiding toast with the given or default variant (`dark`) and position (`top-center`) is appended |
| Toasts.ToastQueue.RemoveToast | frontend/src/context/ToastContext.tsx:54-56 | the list becomes the old one without the id |
| Toasts.ToastQueue.MouseEnter | frontend/src/context/ToastContext.tsx:58-68 | the list becomes the old one with that toast paused |
| Toasts.ToastQueue.MouseLeave | frontend/src/context/ToastContext.tsx:70-79 | the list becomes the old one with that toast resumed on the new timer |
| AuthContext.Record | frontend/src/auth/AuthContext.tsx:55 | the record written under `auth` holds exactly the pair |
| AuthContext.NothingStoredStartsSignedOut | frontend/src/auth/AuthContext.tsx:35-42 | with no record under `auth` the provider starts signed out as `guest` |
| AuthContext.ReloadRestoresState | frontend/src/auth/AuthContext.tsx:35-42 | a state written under `auth` is the state the next mount starts in, whatever is then written to or removed from `jwt` |
| AuthContext.AfterToken | frontend/src/auth/AuthContext.tsx:47-50 | the token is written under `jwt` exactly when it is a non-empty string; no other key changes |
| AuthContext.SignedIn | frontend/src/auth/AuthContext.tsx:52-54 | after login the user is signed in, and the role is the server's role lower-cased character by character, so it has the same length and no capitals |
| AuthContext.SignedInStable | frontend/src/auth/AuthContext.tsx:52 | lower-casing the already lower-cased role changes nothing |
| AuthContext.AuthProvider.constructor | frontend/src/auth/AuthContext.tsx:35-42 | both state fields come from the record under `auth`, or are signed out with no record; nothing is written |
| AuthContext.AuthProvider.Login | frontend/src/auth/AuthContext.tsx:44-60 | a failed request changes nothing. A response missing its role writes only the token and changes no state. A full response writes the token, signs in with the lower-cased role and persists exactly that pair; `ok` is true only then |
| AuthContext.AuthProvider.Logout | frontend/src/auth/AuthContext.tsx:62-67 | signed out as `guest`, that pair persisted, and `jwt` removed |
| AuthContext.LoggedOutEntries | frontend/src/auth/AuthContext.tsx:65-66 | after logout `jwt` is absent, the next mount starts signed out, and no other key changes |
| AuthContext.LogoutIdempotent | frontend/src/auth/AuthContext.tsx:62-67 | logging out twice leaves storage as logging out once |
| LegacyAuth.AuthProvider.constructor | src/auth/AuthContext.tsx:23-24 | starts signed out as `guest` |
| LegacyAuth.AuthProvider.Login | src/auth/AuthContext.tsx:26-29 | signed in with exactly the given role, which stays one of `admin`, `user`, `guest` |
| LegacyAuth.AuthProvider.Logout | src/auth/AuthContext.tsx:31-34 | signed out as `guest` from any state |
| LegacyAuth.LoginThenLogout | src/auth/AuthContext.tsx:23-34 | logging in and then out comes back to the state of a fresh mount |
| Routes.GuardOutcomes | src/routes/PrivateRoute.tsx:13-21 | redirect to `/login` exactly when signed out; to `/unauthorized` exactly when signed in with a role not allowed; the outlet exactly when signed in with an allowed role |
| Routes.PrivateRoute | src/routes/PrivateRoute.tsx:13-21 | the outlet is rendered only for a signed-in user whose role is allowed, and a signed-out user is always sent to `/login` |
| Routes.SignedOutGoesToLogin | src/routes/PrivateRoute.tsx:13-15 | a signed-out user goes to `/login` whatever the allowed roles |
| Routes.GuardMonotone | src/routes/PrivateRoute.tsx:17 | allowing more roles never turns an outlet into a redirect |
| Routes.RoleAccess | src/App.tsx:91-96 | a signed-in `user` reaches `/user` but not `/admin`; an `admin` reaches both; any other role reaches neither |
| Routes.AdminReachesEverything | frontend/src/App.tsx:377-382 | whoever gets past the `/admin` guard gets past every guard |
| Routes.RoleLinksMatchGuards | frontend/src/App.tsx:226-237 | the User and Admin link conditions hold exactly when the guards of `/user` and `/admin` let the user through |
| Routes.StripTrailingSlashes | frontend/src/App.tsx:377-382 | the result is a prefix of the path that does not end in `/`, and everything cut off is `/` |
| Routes.GuardedPaths | frontend/src/App.tsx:377-382 | `/user` is guarded for `user` and `admin`, and `/admin` for `admin` alone |
| Routes.GuardIgnoresCaseAndTrailingSlash | src/App.tsx:91-96 | lower-casing the address or adding a trailing slash leads to the same guard, as React Router matches routes without `caseSensitive` |
| Routes.StripLowered | src/App.tsx:91-96 | stripping trailing slashes and lower-casing can be done in either order |
| Routes.AdminSpellingsLowered | src/App.tsx:94-96 | `/Admin` and `/ADMIN` lower-case to the admin route's pattern |
| Routes.AdminGuardIgnoresSpelling | src/App.tsx:94-96 | `/Admin/` sends a signed-out visitor to `/login`, and `/ADMIN` turns a signed-in `user` away to `/unauthorized` |
| LegacyApp.NavFixedLinks | src/App.tsx:54-75 | Home, Contact and About are always in the bar; Register and About Me never are |
| LegacyApp.NavLinks | src/App.tsx:54-75 | the bar has 4 to 6 links: Home first, then Login or Logout by session, and Contact and About last |
| LegacyApp.NavSessionLink | src/App.tsx:55-63 | Login is in the bar exactly when signed out, Logout exactly when signed in |
| LegacyApp.NavRoleLinks | src/App.tsx:64-73 | User and Admin are in the bar exactly under their conditions, and Admin never without User |
| LegacyApp.NavLinksMatchGuards | src/App.tsx:64-96 | a role link is in the bar exactly when its route's guard lets the user through |
| AppShell.Toggled | frontend/src/App.tsx:196-198 | toggling always changes the theme |
| AppShell.ToggleInvolution | frontend/src/App.tsx:196-198 | toggling twice gives back the original theme |
| AppShell.ThemeSurvivesReload | frontend/src/App.tsx:90-93 | the theme the save effect writes is the theme the next mount starts with |
| AppShell.ConsentRemembered | frontend/src/App.tsx:133-138 | with no stored consent the banner is shown on mount; once consent is saved it never is |
| AppShell.StoredJwt | frontend/src/App.tsx:168-169 | a token is used only when it is a non-empty string stored under `jwt` |
| AppShell.LoginTokenIsSent | frontend/src/App.tsx:168-172 | after a login stores a truthy token, the interceptor sends that token; after logout it sends none |
| AppShell.ErrorMessage | frontend/src/App.tsx:184-185 | the value the chain settles on is truthy and is one of the four candidates or the fallback text; it is non-empty text whenever every truthy candidate is a string |
| AppShell.FirstTruthy | frontend/src/App.tsx:184-185 | the result is the first truthy candidate, all before it being falsy, or the fallback when none is truthy |
| AppShell.ErrorMessageIsFirstTruthy | frontend/src/App.tsx:184-185 | the message is the first truthy of `data.error`, `data.detail`, `data.message`, `err.message`, else "An error occurred", with JavaScript truthiness over JSON values |
| AppShell.ListDetailReachesToast | frontend/src/App.tsx:184-186 | a body with no `error` and a list in `detail`, even an empty list, hands that list to the toast in place of text |
| AppShell.DrawerFixedLinks | frontend/src/App.tsx:222-255 | Home, Contact and About are always in the drawer; About Me exactly when the sub-menu is open |
| AppShell.DrawerLinks | frontend/src/App.tsx:222-275 | the drawer has 4 to 7 items, Home first and Login or Logout by session last |
| AppShell.DrawerSessionLinks | frontend/src/App.tsx:259-275 | Register and Login exactly when signed out, Logout exactly when signed in |
| AppShell.DrawerRoleLinks | frontend/src/App.tsx:226-237 | User is in the drawer exactly when signed in as `user` or `admin`, and Admin exactly when signed in as `admin` |
| AppShell.DrawerLinksMatchGuards | frontend/src/App.tsx:226-237 | User and Admin are in the drawer exactly when their guards let the user through, and Admin never without User |
| AppShell.CrumbDisabledWhereShown | frontend/src/App.tsx:289-307 | a disabled breadcrumb item is always on a shown breadcrumb, and the two items are never disabled together |
| AppShell.FollowedCrumbDisabled | frontend/src/App.tsx:284-298 | the page an item leads to disables that item and is not under `/about` |
| AppShell.RequestConfig.constructor | frontend/src/App.tsx:166 | a request configuration holds the given headers |
| AppShell.InnerApp.constructor | frontend/src/App.tsx:87-144 | mounting reads the theme back and decides the banner from the stored consent. The sub-menu opens exactly under `/about` and the theme is written |
| AppShell.InnerApp.ToggleTheme | frontend/src/App.tsx:140-144 | the theme flips and the new one is written |
| AppShell.InnerApp.AcceptCookies | frontend/src/App.tsx:205-208 | consent `true` is saved and the banner hides |
| AppShell.InnerApp.ToggleCookieBanner | frontend/src/App.tsx:367 | the banner's visibility flips |
| AppShell.InnerApp.LocationChanged | frontend/src/App.tsx:200-203 | the path becomes `path`. When it differs from the previous one, the sub-menu is open exactly when it starts with `/about`; a navigation to the same path leaves the sub-menu as it was, since the effect depends on the pathname only |
| AppShell.InnerApp.ToggleAbout | frontend/src/App.tsx:243 | the sub-menu's state flips |
| AppShell.InnerApp.SetMenuOpen | frontend/src/App.tsx:318-328 | the mobile drawer is open as requested |
| AppShell.InnerApp.FollowBreadcrumb | frontend/src/App.tsx:284-296 | drawer and sub-menu closed, at the item's page, where the item is disabled |
| AppShell.InnerApp.InterceptRequest | frontend/src/App.tsx:168-173 | with a truthy stored token, `Authorization` becomes `Bearer <token>` and the headers are created if missing; otherwise the request is untouched |
| AppShell.InnerApp.InterceptError | frontend/src/App.tsx:181-187 | one danger toast with the chosen message is appended at the default position |
| BackendAuth.FindUser | backend_python_service/app/auth.py:65-69 | nothing exactly when no document has the username; otherwise the first document with it |
| BackendAuth.AuthenticateUser | backend_python_service/app/auth.py:72-76 | the user exactly when it exists and the password verifies against its hash; nothing otherwise |
| BackendAuth.Lifetime | backend_python_service/app/auth.py:81 | a missing or zero delta means 15 minutes; any other delta is used as given |
| BackendAuth.CreateAccessToken | backend_python_service/app/auth.py:79-83 | the payload has the input's keys plus `exp` and agrees with the input on every other key. `exp` is now plus the lifetime, and the token is the signature of that payload |
| BackendAuth.DecodeToken | backend_python_service/app/auth.py:93 | a payload is accepted exactly when the signature check yields it and its claims pass: an `exp`, when present, is a number not yet passed, and a `sub`, when present, is a string. An accepted payload is the one the signature check yields |
| BackendAuth.GetCurrentUser | backend_python_service/app/auth.py:86-104 | success exactly when the token decodes, carries a string `sub` and a non-null `role`, and a stored user has that name. On success the result is the first such stored user, whose username is the `sub`; every failure is 401 "Could not validate credentials" |
| BackendAuth.GetCurrentActiveUser | backend_python_service/app/auth.py:107-110 | the current user exactly when it is found and not disabled; a failing lookup stays 401 and a disabled user is 400 "Inactive user" |
| BackendAuth.GetCurrentActiveAdmin | backend_python_service/app/auth.py:113-116 | the active user exactly when its stored role is `admin`; a failure of the active-user check passes through unchanged, and an active non-admin is 403 "Admin access required" |
| BackendAuth.AdminChainOrder | backend_python_service/app/auth.py:107-116 | credentials are checked first (401), then the disabled flag (400), then the stored role (403); an admin passes exactly when found, enabled and stored as `admin` |
| BackendAuth.AdminDecidedByStoredRole | backend_python_service/app/auth.py:101-116 | two valid tokens for the same subject get the same admin decision whatever roles they claim |
| BackendAuth.LoginClaims | backend_python_service/app/auth.py:127-130 | the signed claims are exactly `sub`, the stored `role`, and `exp` 30 minutes on |
| BackendAuth.LoginForAccessToken | backend_python_service/app/auth.py:122-131 | 400 "Incorrect username or password" exactly when authentication fails; otherwise a `bearer` token for the login claims, with the stored role |
| BackendAuth.IssuedTokenIdentifiesUser | backend_python_service/app/auth.py:86-131 | when verification returns what was signed, a login token identifies its user up to 30 minutes after issue and gets 401 after |
| BackendAuth.FirstSpace | backend_python_service/app/auth.py:21 | the index of the first space, or the length when there is none |
| BackendAuth.BearerToken | backend_python_service/app/auth.py:21 | a non-empty header is accepted exactly when its scheme, up to the first space, lower-cases to `bearer`; the header is then that scheme, a space and the token, or just the scheme with an empty token. Every refusal is 401 "Not authenticated" |
| BackendAuth.BearerHeaderRoundTrip | backend_python_service/app/auth.py:86 | the header `Bearer <token>` yields exactly `<token>` |
| EndToEnd.SignedInRequestIdentifiesUser | frontend/src/App.tsx:168-171 | a back-end login token that the front end stores is the one its interceptor sends. The bearer scheme passes it on, and within 30 minutes it identifies the user who logged in |
| EndToEnd.AdminViewsAgree | frontend/src/auth/AuthContext.tsx:52 | for an active user the token identifies, stored with a lower-case role, the front end shows the admin page exactly when `get_current_active_admin` accepts the token |
| EndToEnd.AdminViewsDisagreeOnCase | backend_python_service/app/auth.py:113-116 | a user stored with role `Admin` is shown the admin page by the front end but refused with 403 by the back end |

## Left out

- Strings are sequences of code points. JavaScript measures `length` in UTF-16 units, so lengths differ for characters outside the Basic Multilingual Plane.
- `toLowerCase` and Python's `lower` are modelled on ASCII letters only. Unicode case mapping is not modelled.
- A stored value of an unexpected shape (a string where a list was written, say) reads as absent. JavaScript would use it as it is.
- React Router's matching is modelled only for the two guarded routes, as ASCII-case-insensitive with trailing slashes ignored. Percent-decoding, dynamic segments and route ranking are not modelled.
- Toasts.NewToast: a message that is not a string (a list-valued `detail`) is stored as it is. How React then renders it is not modelled.
- Registration.RegistrationPage.UpdateField: models the corrected handler described under Findings. The handler as written is `Registration.ErrorsAfterEditAsWritten`.
- `setTimeout` and `clearTimeout` are not modelled. Timers are opaque handles passed in, so toasts never expire by themselves. The model captures only the `autohide` flag, the handle and removal.
- React batching of state updates is not modelled. Each handler's updates are applied in order at once.
- All rendering is left out, along with `useTheme`, CSS, the loading bar and the `selected` highlighting of drawer items.
- The HTTP requests themselves (axios, `fetch('/config.yaml')` and its YAML parsing) are left out. Their outcomes are parameters.
- The two LoginPage components are thin wrappers around `login` and are not modelled.
- The guard of the current front end (`frontend/src/routes/PrivateRoute.tsx`) is not part of this model. Its route table is taken to use the same guard as the legacy one.
- Password hashing, JWT signing and verification, and MongoDB are parameters. The collection is a sequence of documents searched in order.
- BackendAuth.DecodeToken: python-jose's other claim checks (`nbf`, `iat`, `aud`) are part of the signature parameter. A non-numeric `exp` is read as a rejected token, although python-jose accepts a string of digits and fails with a 500 on `null`.
- BackendAuth.GetCurrentUser: a `role` claim that is present and not `null` passes whatever its JSON type. Pydantic's handling of a non-string there depends on its version.
- BackendAuth.BearerToken: `OAuth2PasswordBearer` is FastAPI library code. It is modelled from its documented behaviour (split at the first space, case-insensitive `bearer`) and lower-cases only ASCII.
- The clock is whole seconds. `datetime.utcnow()` sub-second precision is dropped, as python-jose drops it when it encodes `exp`.
- `Date.now()` and `new Date().toISOString()` are strings passed in. The uniqueness of ids made from them is not modelled.

## Findings

| source | as written | input that shows it | evidently intended | confidence | as-written member | corrected member |
|---|---|---|---|---|---|---|
| frontend/src/pages/RegistrationPage.tsx:111-113 | After a password edit, the touched confirmation is rechecked by `validateField`. That compares it with `formData.password` (line 99), which in this handler is still the password from before the edit. | Both password fields touched; password "ab", confirmation "abc"; type "c" into the password. "Passwords do not match." stays, though the two now match. With a valid form, the stale error keeps the submit button disabled. | Recheck a touched confirmation against the new password. The corrected handler also does this while the password field itself is untouched. Then every touched field keeps showing exactly the error of its current value. | high for the stale comparison; not executed | Registration.StaleConfirmationError | Registration.EditKeepsErrorsCurrent |
