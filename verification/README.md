# Task dashboard core in Dafny

A verified model of the logic inside a single-page task-management app. The app's task service keeps an in-memory list of tasks and derives completion statistics from it. An authentication provider holds the current user and a "has signed up before" flag, and mirrors both into browser storage. The route table guards the working pages behind login. Around these sit the pure rules of the pages:

- the task list's category menu, search filter and category toggle;
- the signup and login validation chains, including the email pattern and the email derived from a username;
- the category colour tables;
- the calendar's per-day event list.

Every operation is a pure function. Each takes the state it reads (the task store, or the auth session made of in-memory state plus a storage map) and returns the state it leaves behind with its result. The promises of the task service resolve synchronously, so they are modelled as plain return values. The identifier that `createTask` takes from the clock is a parameter. Dates are reduced to a calendar day plus a minute of the day, and "same day" compares the day only. Storage is a map from key to value. A value is either a serialised user or raw text.

Modules follow the source files:

- `TaskModel` (the task record and shallow merge);
- `TaskService`;
- `Auth`;
- `Routes` (App.tsx);
- `TaskList`;
- `SignupPage`;
- `LoginPage`;
- `CategoryColors` (TaskCard.tsx and CalendarView.tsx);
- `Calendar`.

They rest on three helper modules: `Wrappers`, `Seqs` (order-preserving filter) and `Text` (ASCII lower-casing, substring search, whitespace).

Two facts about the code are worth stating up front:

- The three statistics need not add up to the number of tasks. Nothing keeps progress in [0, 100] (src/services/taskService.ts:97-99), and a task outside that range falls in no bucket (src/services/taskService.ts:123-127). `TaskService.StatsTotalIff` proves that the counts add up exactly when every progress value is in range. `TaskService.OutOfRangeProgressEscapesStats` shows one update to 150 breaking the sum.
- src/components/Task/TaskProgressForm.tsx:64-72 reads `deadline` and `daysToComplete`, which the `Task` interface (src/components/Task/TaskList.tsx:14-22) does not declare. The model follows the interface.

## Model

| member | source | states |
|---|---|---|
| TaskModel.Merge | src/services/taskService.ts:90 | every field the patch supplies overrides, every other field keeps its old value |
| TaskModel.MergeTwice | src/services/taskService.ts:90 | two successive merges equal one merge of the overlaid patches (last write wins per field) |
| TaskModel.MergeIdempotent | src/services/taskService.ts:90 | merging the same patch twice is merging it once |
| TaskModel.MergeEmpty | src/services/taskService.ts:90 | a patch supplying no key leaves the task unchanged |
| TaskService.FindIndex | src/services/taskService.ts:88 | returns the first index whose task has the id, and none exactly when no task has it |
| TaskService.GetTasks | src/services/taskService.ts:65-67 | returns the whole store in insertion order, unchanged |
| TaskService.GetTaskById | src/services/taskService.ts:70-73 | returns the first task with the id, and none exactly when no task has it |
| TaskService.CreateTask | src/services/taskService.ts:76-84 | appends exactly one task at the end; earlier tasks are unchanged; the new task has the given id, progress 0 and every draft field copied |
| TaskService.CreateThenGet | src/services/taskService.ts:76-84 | under a fresh id the created task is what lookup by that id returns, and unique ids stay unique |
| TaskService.CreateCountsUpcoming | src/services/taskService.ts:80-82 | a created task adds one to the upcoming count and leaves the other counts unchanged |
| TaskService.UpdateTask | src/services/taskService.ts:87-94 | an absent id returns none and leaves the store identical; otherwise only the first matching index changes, to the merge of old task and patch, which is returned |
| TaskService.UpdateThenGet | src/services/taskService.ts:70-73 | with unique ids, looking up the id after an update returns the updated task, or nothing when the patch changed its id |
| TaskService.UpdateProgress | src/services/taskService.ts:97-99 | equals an update with the patch holding only progress; the stored progress is exactly the argument, without clamping |
| TaskService.UpdateProgressMovesBucket | src/services/taskService.ts:97-99 | each bucket count changes only by the task leaving its old bucket and entering the bucket of the new progress |
| TaskService.UpdateProgressToComplete | src/services/taskService.ts:97-99 | setting progress to 100 adds one to the completed count unless the task was already complete |
| TaskService.UpdateProgressScenario | src/services/taskService.ts:97-99 | one upcoming task "1" set to 50 reads back with progress 50, and the counts become 0 completed, 1 in progress and 0 upcoming |
| TaskService.OutOfRangeProgressEscapesStats | src/services/taskService.ts:97-99 | progress 150 is stored as given and the task then counts in no bucket |
| TaskService.DeleteTask | src/services/taskService.ts:102-109 | returns true exactly when some task has the id; removes exactly the first such task and keeps the others in order; otherwise the store is unchanged |
| TaskService.DeleteThenGet | src/services/taskService.ts:102-109 | with unique ids a deleted id is no longer found, and ids stay unique |
| TaskService.DeleteKeepsLaterDuplicate | src/services/taskService.ts:103-105 | with a duplicated id only the first carrier is removed, so the id is still found |
| TaskService.GetTasksByCategory | src/services/taskService.ts:112-115 | returns exactly the tasks of the category, each as often as in the store, as an order-preserving subsequence |
| TaskService.BucketOf | src/services/taskService.ts:123-127 | each task is completed (100), in progress (strictly between 0 and 100) or upcoming (0), never two at once, and none of them exactly when progress is outside [0, 100] |
| TaskService.GetTasksStats | src/services/taskService.ts:118-134 | the three counts are the sizes of the source's three filters, and together with the out-of-range tasks they account for every task |
| TaskService.BucketsPartition | src/services/taskService.ts:123-127 | the bucket counts plus the out-of-range count equal the number of tasks |
| TaskService.StatsTotalIff | src/services/taskService.ts:123-127 | the three counts add up to the number of tasks if and only if every progress value is in [0, 100] |
| TaskService.GetWeeklyProgress | src/services/taskService.ts:137-149 | a fixed seven-entry series labelled Mon to Sun, not derived from the store |
| TaskService.SeedFacts | src/services/taskService.ts:5-60 | the seed store has unique ids, in-range progress, and 1 completed, 3 in-progress and 2 upcoming tasks |
| Auth.Load | src/contexts/AuthContext.tsx:24-34 | adopts a stored user when there is one and otherwise keeps the user; raises the flag only if the stored flag is the text "true" |
| Auth.Mount | src/contexts/AuthContext.tsx:20-34 | starting from no user and a lowered flag, loading yields a state consistent with the storage, which is only read |
| Auth.ReloadRestores | src/contexts/AuthContext.tsx:24-34 | reloading from the storage of a consistent session restores that session |
| Auth.Login | src/contexts/AuthContext.tsx:36-39 | sets the user and writes it under "user"; the flag and every other key are untouched |
| Auth.Signup | src/contexts/AuthContext.tsx:41-50 | raises the flag, writes "true" under its key, sets the user and writes it under "user"; other keys are untouched |
| Auth.Logout | src/contexts/AuthContext.tsx:52-56 | clears the user and deletes the "user" key; the flag and every other entry are unchanged |
| Auth.ApplyPreserves | src/contexts/AuthContext.tsx:36-56 | each operation keeps in-memory state consistent with storage and never lowers the flag |
| Auth.RunPreserves | src/contexts/AuthContext.tsx:36-56 | any sequence of operations from a consistent session stays consistent and never lowers the flag |
| Auth.FlagMonotone | src/contexts/AuthContext.tsx:41-56 | no sequence of operations lowers the flag |
| Auth.FlagStaysAfterSignup | src/contexts/AuthContext.tsx:41-56 | after a signup the flag stays raised whatever follows |
| Routes.RouteFor | src/App.tsx:50-59 | each of the seven paths maps to its own element (/ to Root, /login to Login, /signup to Signup, /dashboard, /tasks, /calendar, /settings to their pages) and every other path resolves to NotFound |
| Routes.ProtectedRoute | src/App.tsx:20-28 | renders the child if and only if there is a user, and otherwise redirects to /login |
| Routes.RootRedirect | src/App.tsx:31-41 | redirects to /login if and only if the browser signed up before, and otherwise to /signup |
| Routes.Resolve | src/App.tsx:50-59 | / redirects to /login or /signup by the flag; /login renders unless there is a user, who goes to /dashboard; /signup renders unless the flag is set, which sends to /login; a rendered view is the path's own element; every redirect goes to /login, /signup or /dashboard |
| Routes.GuardedPaths | src/App.tsx:50-59 | /dashboard, /tasks, /calendar and /settings render exactly for a logged-in user; / always redirects as the root decides; /login and /signup render without a user or flag, so they are not behind the guard; unknown paths are NotFound |
| Routes.RedirectsSettle | src/App.tsx:40-59 | from any path at most two redirects reach a rendered page, with the landing page stated for logged-in users and for browsers that never signed up |
| Routes.ReloadAsWritten | src/contexts/AuthContext.tsx:20-34 | a reload decides first on the empty state, then follows the address it moved to on the loaded state, and always ends on a rendered page |
| Routes.ReloadIntended | src/App.tsx:34-37 | a reload that decides only on the loaded state always ends on a rendered page |
| Routes.ReloadAsWrittenLosesPage | src/App.tsx:20-28 | as written, reloading any guarded page with a stored user ends on the dashboard |
| Routes.ReloadIntendedKeepsPage | src/App.tsx:20-28 | with the state loaded first, reloading a guarded page with a stored user renders that page |
| Routes.ReloadTasksDiffers | src/App.tsx:55 | reloading /tasks with a stored user ends on the dashboard as written and on the task page as intended |
| Routes.SignupLandsOnDashboard | src/pages/Signup.tsx:59-68 | after an accepted signup the navigation to /login ends on the dashboard, because signup also logs the user in |
| TaskList.Categories | src/components/Task/TaskList.tsx:34 | no duplicates, exactly the categories occurring in the tasks, ordered by first occurrence |
| TaskList.MatchesSearch | src/components/Task/TaskList.tsx:38-39 | true exactly when the lowered query occurs in the lowered title, or in the lowered description when a non-empty one is present |
| TaskList.MatchesCategory | src/components/Task/TaskList.tsx:41 | true exactly when no category is selected or the task's category is one of the selected entries |
| TaskList.FilteredTasks | src/components/Task/TaskList.tsx:37-44 | an order-preserving subsequence of the tasks holding exactly the tasks that pass both the search and the category test |
| TaskList.EmptySelectionIsSearchOnly | src/components/Task/TaskList.tsx:41 | with no selected category only the search decides |
| TaskList.NoFilterShowsAll | src/components/Task/TaskList.tsx:37-44 | with an empty query and no selection the filtered list is the task list |
| TaskList.SearchIgnoresQueryCase | src/components/Task/TaskList.tsx:38-39 | lowering the query first does not change the verdict |
| TaskList.ToggleCategory | src/components/Task/TaskList.tsx:70-77 | checking appends the category; unchecking removes every occurrence of it and keeps the others in order |
| TaskList.ToggleRoundTrip | src/components/Task/TaskList.tsx:70-77 | checking an unselected category then unchecking it restores the selection |
| TaskList.ToggleAndCategoryFilter | src/components/Task/TaskList.tsx:70-77 | after checking, the category's tasks pass the category test; after unchecking they pass only if the selection became empty |
| Text.Includes | src/components/Task/TaskList.tsx:38-39 | true exactly when the needle occurs at some position of the haystack |
| SignupPage.EmailRecogniserCorrect | src/pages/Signup.tsx:49-50 | the scanning recogniser accepts exactly the strings the email pattern matches |
| SignupPage.AcceptedEmailHasOneAt | src/pages/Signup.tsx:49 | an email that matches the pattern holds exactly one @ |
| SignupPage.ValidateSignup | src/pages/Signup.tsx:30-57 | empty field, then password shorter than 8, then email pattern: the first failing check is the error; on success the user is name and email only |
| SignupPage.PasswordLengthBoundary | src/pages/Signup.tsx:39-46 | a 7-character password is rejected as too short, an 8-character one passes |
| SignupPage.SubmitSignup | src/pages/Signup.tsx:26-69 | a rejected submission leaves the session untouched and does not navigate; an accepted one performs signup with name and email and navigates to /login |
| SignupPage.SignupRedirect | src/pages/Signup.tsx:72-74 | redirects to /login if and only if the browser signed up before |
| SignupPage.AcceptedSignupRaisesFlag | src/pages/Signup.tsx:60-74 | after an accepted submission the flag is stored and the page itself would redirect to /login |
| LoginPage.CollapseWhitespace | src/pages/Login.tsx:44 | the output holds no whitespace, and text without whitespace comes through unchanged |
| LoginPage.CollapseAppend | src/pages/Login.tsx:44 | the whitespace replacement of a concatenation is the replacement of each part, the second continuing the run state of the first |
| LoginPage.CollapseRun | src/pages/Login.tsx:44 | a maximal whitespace run between two pieces becomes exactly one dot |
| LoginPage.CollapseKeepsWords | src/pages/Login.tsx:44 | text without whitespace is unchanged by the replacement |
| LoginPage.CollapseHasNoSpace | src/pages/Login.tsx:44 | the replacement output holds no whitespace |
| LoginPage.DeriveEmail | src/pages/Login.tsx:44 | the derived email is the whitespace-collapsed lowered username followed by @example.com, so it has no whitespace and no upper-case letter |
| LoginPage.DeriveEmailRun | src/pages/Login.tsx:44 | two words around any non-empty whitespace run derive the lowered words joined by one dot, then @example.com |
| LoginPage.DeriveEmailExample | src/pages/Login.tsx:44 | "Jane  Doe" derives "jane.doe@example.com" |
| LoginPage.SubmitLogin | src/pages/Login.tsx:28-58 | an empty username or password is rejected with the session untouched; otherwise login runs with the raw username as name and the derived email, the animation starts and the dashboard is the pending navigation |
| LoginPage.LoginRedirect | src/pages/Login.tsx:61-63 | redirects to /dashboard if and only if there is a user and the animation has not started |
| LoginPage.AcceptedLoginWaitsForAnimation | src/pages/Login.tsx:47-63 | right after an accepted login there is a user, but the page does not redirect at once |
| CategoryColors.ColorOf | src/components/Task/TaskCard.tsx:20-31 | for a table with distinct keys and an Other entry, the result is a table value: the category's own entry, else Other's |
| CategoryColors.BadgeColor | src/components/Task/TaskCard.tsx:20-31 | always one of the six badge classes; a listed category gets its own entry, any other gets Other's |
| CategoryColors.BadgeColorFallback | src/components/Task/TaskCard.tsx:30 | unlisted categories, including the lower-case "work", look like Other |
| CategoryColors.EventColor | src/components/Calendar/CalendarView.tsx:114-123 | always one of the six event classes; a listed category gets its own entry, any other gets Other's |
| CategoryColors.EventColorFallback | src/components/Calendar/CalendarView.tsx:123 | unlisted event categories look like Other |
| CategoryColors.ColorAsWritten | src/components/Task/TaskCard.tsx:30 | the fallback lookup as JavaScript evaluates it: a truthy property read of the category wins, otherwise the Other entry |
| CategoryColors.AsWrittenAgreesOffPrototype | src/components/Task/TaskCard.tsx:30 | for any name not inherited from Object.prototype, the lookup as written gives the corrected class |
| CategoryColors.BadgeColorAsWritten | src/components/Task/TaskCard.tsx:20-31 | the task card's lookup as it runs: the corrected class for every name not inherited from Object.prototype, the inherited member for every inherited name |
| CategoryColors.EventColorAsWritten | src/components/Calendar/CalendarView.tsx:114-123 | the event lookup as it runs: the corrected class away from inherited names, the inherited member on them |
| CategoryColors.InheritedNameEscapesFallback | src/components/Task/TaskCard.tsx:30 | the category "toString" yields an inherited member, not a class, in both tables |
| Calendar.DayEvents | src/components/Calendar/CalendarView.tsx:47-49 | empty without a selection; otherwise exactly the events on the selected day, in original order |
| Calendar.HasEvents | src/components/Calendar/CalendarView.tsx:76 | true exactly when some event falls on the day |
| Calendar.MarkerIffDayEvents | src/components/Calendar/CalendarView.tsx:76-88 | a day shows the marker if and only if selecting it would list events |
| Calendar.DayEventsIgnoreTime | src/components/Calendar/CalendarView.tsx:48 | two selections on the same day list the same events |
| Calendar.HandleDaySelect | src/components/Calendar/CalendarView.tsx:39-44 | the selection is stored as given; the callback is invoked, with that date, exactly when the date is defined and a callback exists |
| Calendar.SelectionDrivesDayList | src/components/Calendar/CalendarView.tsx:39-49 | after a selection the day list is non-empty exactly when a day was picked and it carries a marker; clearing empties the list and calls nobody back |

## Left out

- Rendering, styling, toasts, the mount animations and the Settings, Sidebar, MobileNav, Layout, Auth, Dashboard, TaskSummary, WeeklyProgress and TaskProgressForm components are presentation. The task and calendar pages only forward form values to the service and are left out too.
- The one-second delay before the login page navigates is timing. The model records the navigation as pending.
- `Date.now()` as the source of new ids is a clock. The id is a parameter, and the lemmas that need it to be fresh say so.
- JSON serialisation and parse failures are not modelled.
- Auth.Load: a raw text stored under "user" is read as no user, because what parsing arbitrary text would yield is not modelled.
- date-fns formatting, month navigation and `isToday` depend on the clock or on formatting. Time zones are replaced by an abstract calendar day.
- The progress ring's geometry is floating point.
- The react-hook-form login and signup forms are library wrappers around the same rules.
- Progress is an integer. Fractional, NaN and infinite JavaScript numbers are not modelled.
- Lower-casing and whitespace are ASCII only. Unicode case mapping and the non-ASCII members of `\s` are left out.
- Password length counts characters, not UTF-16 code units.
- Routes.Resolve: routes are decided on a given auth state. Apart from the reload pair in "## Findings", the render before the stored state loads is not modelled, because it depends on the order in which React runs effects.
- Route matching is exact string equality. The router library's case-insensitive and trailing-slash matching is not modelled.
- Extra runtime fields that `createTask` would copy from an untyped caller object are not modelled.
- `getTasks` hands out the live array rather than a copy. Aliasing is not modelled.
- `useAuth` throwing outside the provider and the unused "remember me" checkbox are not modelled.

## Findings

| source | as written | input that shows it | evidently intended | confidence | as-written member | corrected member |
|---|---|---|---|---|---|---|
| src/components/Task/TaskCard.tsx:30 | the lookup with fallback to Other also reads properties inherited from Object.prototype | category "toString" gives the inherited function instead of a class (CategoryColors.InheritedNameEscapesFallback) | any category outside the table falls back to the Other class | medium (depends on a task carrying such a category), not executed | CategoryColors.ColorAsWritten | CategoryColors.BadgeColor |
| src/components/Calendar/CalendarView.tsx:123 | the event colour lookup has the same inherited-property read | event category "toString" (CategoryColors.InheritedNameEscapesFallback) | unknown event categories fall back to the Other class | medium (depends on an event carrying such a category), not executed | CategoryColors.ColorAsWritten | CategoryColors.EventColor |
| src/App.tsx:34-40 | the root route's empty effect does not wait for the stored state, and the provider starts from no user and a lowered flag (src/contexts/AuthContext.tsx:20-34) | reload /tasks with a user in storage: the first render redirects to /login, which then forwards the loaded user to /dashboard (Routes.ReloadTasksDiffers) | routing waits until the stored state is loaded, as the effect's comment says | low (rests on React running the children's effects before the provider's), not executed | Routes.ReloadAsWritten | Routes.ReloadIntended |
