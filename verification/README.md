# Task management client — Dafny model

This project models the logic of a small task-management web client. The React and
HTTP wrapping is removed; what is left is pure:

- **Task list filter** (`OurTasksPage`): the status/priority equality filter, where an
  empty filter field means "any". Also the status colour of a row, the Edit button
  rule, and the table row layout.
- **Task form validation** (`TaskSchema`, `CreateTaskPage`, `UpdateTaskPage`): the
  two yup schemas, which share the title, date, description and assignee rules and
  differ on status and priority. Also the cross-field rule that the due date is not
  before the start date, the create page's submit normalisation, and the update page's
  pre-fill of a loaded task.
- **Session gate** (`Session`, `Routes`, `LoginPage`): a user held in memory and
  mirrored into local storage (a `map<string, string>`). Covers restore on mount,
  logout, login, and the `<Routes>` table as a pure function from (pathname, signed
  in?) to the rendered page.

Supporting modules: `Wrappers` (Option/Result), `Text` (decimal numerals,
`split(sep)[0]`), and `Dates`. `Dates` covers the `YYYY-MM-DD` pattern, the calendar,
and the day numbers that `new Date(a) >= new Date(b)` compares.

Abstracted inputs, given to the model as parameters:
- `emptyMatch`: whether yup's `.matches` rule lets `''` through.
- `isEmail`: yup's email shape.
- `decode`: `JSON.parse`.
- `parseInt`: the engine's reading of the leading integer of a route id, with None for NaN.
- `localeDate`: `toLocaleDateString`.
- `LoginResult`: the auth service's answer.

Two facts about the code shape the model:
- Restoring a session calls `JSON.parse` on any non-empty stored `user` entry, with no
  guard (src/index.tsx:19-22). A falsy parse result (`null`, `0`, `false`, `""`) leaves
  the shell signed out, because the greeting and the protected routes test `user &&`.
  `Session.Restore` reads the entry with `decode`, whose `None` stands for such a falsy
  result.
- The create schema only requires status and priority (`mixed().required()`,
  src/pages/CreateTaskPage.tsx:28-29), with no `oneOf`. Only the update schema
  restricts them to the enum values (src/pages/UpdateTaskPage.tsx:39-46).
  `TaskSchema.StatusOutsideEnum` shows a form that one accepts and the other rejects.

## Model

| member | source | states |
|---|---|---|
| OurTasksPage.Filter | src/pages/OurTasksPage.tsx:47-59 | a task is in the result iff it is in the input and passes the filters; each passing task keeps its multiplicity, failing ones vanish; the result is never longer than the input |
| OurTasksPage.KeepRule | src/pages/OurTasksPage.tsx:50-56 | a task passes iff (status filter empty or equal to the task's status) and (priority filter empty or equal to the task's priority) |
| OurTasksPage.FilterIsSubsequence | src/pages/OurTasksPage.tsx:47 | the result is an order-preserving subsequence of the input |
| OurTasksPage.InitialFiltersKeepAll | src/pages/OurTasksPage.tsx:17-20 | with the page's initial filters (both empty) the result is the whole list, in order |
| OurTasksPage.InactiveFiltersKeepAll | src/pages/OurTasksPage.tsx:47-59 | with no truthy filter field, the result is the input unchanged |
| OurTasksPage.FilterIdempotent | src/pages/OurTasksPage.tsx:47-59 | filtering the result again with the same filters changes nothing |
| OurTasksPage.FilterFieldsSeparately | src/pages/OurTasksPage.tsx:50-56 | filtering on both fields equals filtering on status then priority, and priority then status |
| OurTasksPage.StatusColour | src/pages/OurTasksPage.tsx:86-93 | the ternary chain agrees with the table to_do→red, in_progress→orange, done→green, and gives gray for every other status |
| OurTasksPage.StatusColourMeaning | src/pages/OurTasksPage.tsx:86-93 | gray iff the status is outside {to_do, in_progress, done}; the three known statuses get distinct colours |
| OurTasksPage.EditPath | src/pages/OurTasksPage.tsx:105-107 | the Edit button has a target iff the id is a number; the target is `/update-task/` followed by a numeral that reads back as the id |
| OurTasksPage.EditOpensUpdatePage | src/pages/OurTasksPage.tsx:35-38 | for a signed-in user the Edit target renders the update page for that id |
| OurTasksPage.RowAsWrittenMislabels | src/pages/OurTasksPage.tsx:102-103 | as written, a row shows the project id under the "Assignee" header |
| OurTasksPage.Row | src/pages/OurTasksPage.tsx:67-75 | corrected row template (assignee then project id): every cell shows the field its header names |
| OurTasksPage.RowFixesOnlySwappedCells | src/pages/OurTasksPage.tsx:79-103 | the corrected row differs from the written one only by swapping the last two data cells |
| TaskSchema.Errors | src/pages/CreateTaskPage.tsx:17-31 | a field is reported iff its rule fails; all failing fields are reported together |
| TaskSchema.TitleRule | src/pages/CreateTaskPage.tsx:18 | a title is accepted iff present with length in [3, 100] |
| TaskSchema.StartDateRule | src/pages/CreateTaskPage.tsx:19 | a start date is accepted iff present and shaped `^\d{4}-\d{2}-\d{2}$` |
| TaskSchema.DueAfterStartRule | src/pages/CreateTaskPage.tsx:22-26 | the test passes for an empty or absent due date; otherwise it passes iff both dates are calendar days and due ≥ start, equal days included |
| TaskSchema.DueDateRule | src/pages/CreateTaskPage.tsx:20-26 | absent due date accepted; `''` accepted iff the pattern rule lets `''` through; any other due date accepted iff it is a calendar day no earlier than a calendar-day start date |
| TaskSchema.DescriptionRule | src/pages/CreateTaskPage.tsx:27 | description absent or at most 500 characters |
| TaskSchema.CreateChoiceRule | src/pages/CreateTaskPage.tsx:28-29 | the create schema accepts any present status or priority, with no enum check |
| TaskSchema.AssigneeRule | src/pages/CreateTaskPage.tsx:30 | assignee id absent or at least 1 |
| TaskSchema.UpdateChoiceRule | src/pages/UpdateTaskPage.tsx:39-46 | the update schema requires status in {to_do, in_progress, done} and priority in {low, medium, high} |
| TaskSchema.UpdateIsStricter | src/pages/UpdateTaskPage.tsx:19-48 | the update schema reports every error the create schema reports and at most status/priority besides; with in-enum values the two agree |
| TaskSchema.StatusOutsideEnum | src/pages/UpdateTaskPage.tsx:39-42 | a form with status "blocked" passes the create schema and fails the update schema on status alone |
| TaskSchema.DefaultsErrors | src/pages/UpdateTaskPage.tsx:61-69 | the untouched form fails on title and start date, and on due date iff `''` fails the pattern rule; status/priority defaults pass |
| TaskSchema.ShortTitleScenario | src/pages/CreateTaskPage.tsx:18 | title "Ta" with otherwise valid fields gives exactly one error, on title |
| TaskSchema.DueBeforeStartScenario | src/pages/CreateTaskPage.tsx:22-26 | due 2024-03-01 with start 2024-03-10 gives exactly one error, on due date |
| Dates.NotBeforeMeansLater | src/pages/CreateTaskPage.tsx:25 | `new Date(due) >= new Date(start)` holds iff both are calendar days and due is the same day or later; an invalid side makes it false |
| Dates.DayNumberOrder | src/pages/CreateTaskPage.tsx:25 | comparing time values of calendar dates is comparing (year, month, day) lexicographically |
| Dates.ParseJsDate | src/pages/CreateTaskPage.tsx:75-76 | `new Date(s)` is read as a day iff `s` is a pattern-matching calendar date, and that day formats back to `s` |
| Dates.DateStringRoundTrip | src/pages/CreateTaskPage.tsx:19 | reading a `YYYY-MM-DD` string into fields and formatting them again gives the string back |
| Dates.DateRoundTrip | src/pages/CreateTaskPage.tsx:75 | formatting a date and reading it back gives the same date |
| CreateTaskPage.Normalize | src/pages/CreateTaskPage.tsx:73-77 | all fields copied except the dates; start becomes a day iff it names one (and formats back to the input); due is undefined iff the input is falsy |
| CreateTaskPage.Submit | src/pages/CreateTaskPage.tsx:71-85 | nothing is sent iff the create schema reports errors (then exactly those); a sent record has any due date on or after a real start day |
| UpdateTaskPage.DatePrefill | src/pages/UpdateTaskPage.tsx:82-83 | `''` for an absent or empty value; otherwise a prefix of the input, free of `T`, equal to the input when it has no `T`, and cut exactly at the first `T` |
| UpdateTaskPage.DatePrefillIdempotent | src/pages/UpdateTaskPage.tsx:82-83 | pre-filling a pre-filled date changes nothing |
| UpdateTaskPage.DatePrefillOfTimestamp | src/pages/UpdateTaskPage.tsx:82-83 | the pre-fill of `YYYY-MM-DDT…` is `YYYY-MM-DD`, which passes the date pattern |
| UpdateTaskPage.AssigneePrefill | src/pages/UpdateTaskPage.tsx:88 | `''` iff the id is absent or 0; otherwise a numeral that reads back as the id |
| UpdateTaskPage.PrefillFrom | src/pages/UpdateTaskPage.tsx:80-89 | title, description, status, priority copied; dates and assignee go through their pre-fill rules |
| UpdateTaskPage.RequestId | src/pages/UpdateTaskPage.tsx:100 | id 0 when the route parameter is falsy, otherwise `parseInt` of it, NaN included |
| UpdateTaskPage.Submit | src/pages/UpdateTaskPage.tsx:98-106 | nothing is sent iff the update schema reports errors; a sent form is unchanged and its status and priority are enum values |
| UpdateTaskPage.RoutedRequestId | src/index.tsx:88 | the update route always supplies a non-empty id, so the request id is `parseInt(id)` |
| UpdateTaskPage.NonNumericIdRequestsNaN | src/pages/UpdateTaskPage.tsx:77-100 | `/update-task/abc` reaches the update page, and its request id is NaN, not a task id |
| Session.Restore | src/index.tsx:17-23 | storage unchanged; the user is non-null iff the stored `user` entry is non-empty and parses to a truthy value, and is then that value |
| Session.StoredNullStaysSignedOut | src/index.tsx:19-22 | a stored `null`, which parses to a falsy value, leaves the shell signed out with no greeting and no Logout button |
| Session.Logout | src/index.tsx:25-29 | the user becomes null; `user` and `access_token` are removed; every other key keeps its value |
| Session.LogoutSurvivesReload | src/index.tsx:25-31 | after logout, the reload restores no user |
| Session.LogoutLocksProtectedPages | src/index.tsx:84-91 | after logout no pathname renders a protected page |
| Session.LogoutIdempotent | src/index.tsx:25-29 | logging out twice is logging out once |
| Session.ShellHeader | src/index.tsx:38-76 | greeting ("Hi, " + email, line 38) and Logout button are shown iff a user is present |
| Session.LogoutHidesHeader | src/index.tsx:25-29 | after logout neither the greeting nor the Logout button is shown |
| Session.Serialize | src/pages/LoginPage.tsx:53 | the stored user is JSON object text, `{` … `}` |
| Session.ParseUserInvertsSerialize | src/pages/LoginPage.tsx:53 | a reader of the stored record (escape sequences included) gives back exactly the user `JSON.stringify` wrote |
| Session.SerializeInjective | src/pages/LoginPage.tsx:53 | different users are stored as different texts, so the stored text determines the session |
| Routes.ParamMatch | src/index.tsx:88-89 | a `:id` match yields a non-empty segment without `/` |
| Routes.RoutesDisjoint | src/index.tsx:79-91 | no pathname matches two routes of the table |
| Routes.ResolveByTable | src/index.tsx:79-91 | a path matching a route renders that route's page when the route is public or a user is present, and access denied otherwise |
| Routes.UnmatchedPathDenied | src/index.tsx:91 | a path matching no route renders access denied, signed in or not |
| Routes.SignedOutSeesNoProtectedPage | src/index.tsx:84-91 | without a user every pathname renders the login page or access denied |
| Routes.SigningInOnlyUnlocks | src/index.tsx:84-89 | signing in changes a path's page only from access denied to a protected page |
| Routes.LoginAlwaysReachable | src/index.tsx:80-81 | `/` and `/login` render the login page in both states |
| Routes.StaticPages | src/index.tsx:84-87 | `/tasks`, `/assignee-me`, `/create-task` render their pages with a user, access denied without |
| Routes.ParamPages | src/index.tsx:88-89 | `/update-task/<id>` and `/view-task/<id>` render their page with that id with a user, access denied without |
| Routes.UnknownPathDenied | src/index.tsx:91 | `/settings` renders access denied in both states |
| LoginPage.LoginErrors | src/pages/LoginPage.tsx:15-20 | username reported iff not a non-empty email; password reported iff it fails its rule |
| LoginPage.PasswordRule | src/pages/LoginPage.tsx:18 | a password passes iff present with at least 4 characters |
| LoginPage.DefaultPasswordOk | src/pages/LoginPage.tsx:32-35 | the default password passes the length rule |
| LoginPage.DefaultCredentialsErrors | src/pages/LoginPage.tsx:15-35 | the initial values give no errors iff the default username has the email shape; the password never fails |
| LoginPage.EmptyCredentialsErrors | src/pages/LoginPage.tsx:15-20 | empty or missing username and password report both fields |
| LoginPage.SessionOf | src/pages/LoginPage.tsx:45-49 | id and email come from `loggedInUser`, the token from the top-level answer |
| LoginPage.CompleteLogin | src/pages/LoginPage.tsx:51-54 | in-memory user set; stored `user` is the serialisation of that same user; stored `access_token` equals its token; no other key changes |
| LoginPage.Submit | src/pages/LoginPage.tsx:39-57 | nothing happens iff a credential rule fails (reported exactly); otherwise the login completes |
| LoginPage.LoginSurvivesReload | src/pages/LoginPage.tsx:56 | after the redirect, restore yields the same session (given `JSON.parse` inverts `JSON.stringify`), and `/tasks` renders the task list |
| LoginPage.LoginSurvivesReloadWithReader | src/pages/LoginPage.tsx:53-56 | the reload assumption holds for every answer with a reader of the stored text, and the session survives |
| LoginPage.LoginGreetsAfterReload | src/index.tsx:38 | after the post-login reload the shell greets "Hi, " + the account's email and shows Logout |
| LoginPage.LogoutUndoesLogin | src/index.tsx:25-29 | logging out after logging in leaves storage as before minus the two session keys |

## Findings

| source | as written | input that shows it | evidently intended | confidence | as-written member | corrected member |
|---|---|---|---|---|---|---|
| src/pages/OurTasksPage.tsx:102-103 | the row prints `project_id` then `assignee_id`, but the header row (lines 73-74) says Assignee then Project_ID | a task with assignee_id 1 and project_id 2 shows "2" under Assignee | each cell under its own header | high (not executed) | OurTasksPage.RowAsWrittenMislabels | OurTasksPage.Row |

## Left out

- React rendering, hooks and re-validation on every change: UI plumbing. The validators are pure functions of the form, so re-running them on each keystroke needs no model.
- HTTP calls (`login`, `getTasks`, `getTaskById`, `createTask`, `updateTask`): foreign I/O. Their answers are inputs (`LoginResult`, `StoredTask`, the task list). Service failures, `alert` and `console` are not modelled.
- `window.location.href` redirects: modelled only as "a fresh mount restores from storage" (`LoginSurvivesReload`, `LogoutSurvivesReload`).
- Dates.ParseJsDate: only `YYYY-MM-DD` strings naming a calendar day are read as days; every other string is read as the Invalid Date, at UTC midnight with no time zone. JavaScript also reads its other standard forms (`YYYY`, `YYYY-MM`, `YYYY-MM-DDTHH:mm`, `+YYYYYY-MM-DD`) as valid dates, and engines may fall back to their own parser (V8 rolls `2024-02-30` over to March). So Dates.NotBeforeMeansLater, TaskSchema.DueAfterStartRule and TaskSchema.DueDateRule differ from the source when the start date fails its own pattern: start `"2024-03"` with due `"2024-03-05"` fails only on the start date in JavaScript, but on both fields here. `toLocaleDateString` is the parameter `localeDate`.
- TaskSchema.DueDateRule: whether yup's `.matches` rejects `''` is the parameter `emptyMatch`, not a fixed answer.
- TaskSchema.TaskForm: yup's `number()` cast of the assignee text (`''`, NaN) is not modelled. Validation takes the cast result as `Option<int>`, so the pre-filled assignee text is not linked to validation.
- TaskSchema.TitleRule: lengths count Unicode scalar values. JavaScript counts UTF-16 code units, so characters outside the Basic Multilingual Plane count once here and twice there.
- yup `abortEarly` aggregation and message texts: only the set of failing fields is modelled, not the messages or how many are kept per field.
- LoginPage.UsernameOk: the email shape is the parameter `isEmail`, so no lemma states that the default username is an email.
- Session.Restore: `JSON.parse` is the parameter `decode`. Its exception on malformed text is not modelled. A truthy parse result that is not a user object (`5`, `[]`) is represented by some `User`, because the model has no other values.
- TaskSchema.DescriptionRule: `max(500)` counts UTF-16 code units in JavaScript and Unicode scalar values here, so a description with characters outside the Basic Multilingual Plane can pass here and fail there.
- LoginPage.PasswordRule: `min(4)` counts UTF-16 code units in JavaScript and Unicode scalar values here, so "😀😀" (4 code units, 2 scalar values) passes there and fails here.
- Session.Serialize: `JSON.stringify` of very large ids (exponent notation beyond 10^21) is not modelled, because ids are unbounded integers here.
- Routes.Resolve: percent-decoding of the pathname and React Router's handling of repeated inner slashes are not modelled. The pathname is required to start with `/`, as a browser guarantees.
- The View button target (`/view-task/${task.id}`) for non-numeric ids is not modelled: the text of such an id is unknown. `OurTasksPage.Task.id` only records whether the id is a number, and NaN (of type number) is folded into "a number".
- The assignee-me, view-task and access-denied pages themselves are not part of this model. Only the route that selects them is.
