# Task list client: selection, task view and deadline codec

A Dafny model of the pure logic inside two pages of a React task manager:

- the **home page** (`src/pages/Home.jsx`): the list collection, the selected
  list, the tasks loaded for it, the done / not-done display filter, and the
  remaining-time text shown under each task with a deadline;
- the **task edit page** (`src/pages/EditTask.jsx`): the draft of one task,
  the `:00Z` codec between the `datetime-local` editor value and the wire
  timestamp, and the outcomes of the update and delete requests.

Both pages are modelled as explicit state records with event-transition
functions. Every task fetch of the home page and every request of the edit
page is appended to a log in the state (`Home.State.requests`,
`EditTask.State.sent`), and each answer arrives later as a separate event. Answers are applied in the order they
arrive.

Files and modules:

| file | module | contents |
|---|---|---|
| `values.dfy` | `Values` | `Option`, the tri-valued `Flag` (`True`, `False`, `Unset`), `Task`, `TaskList`, string truthiness |
| `decimal.dfy` | `Decimal` | decimal text of a whole number, and reading it back |
| `deadline.dfy` | `Deadline` | the `:00Z` suffix codec and its round trips |
| `countdown.dfy` | `Countdown` | `calculateRemainingTime` on integer milliseconds |
| `task_view.dfy` | `TaskView` | the stable done/not-done filter, the `null` guard, the rendered rows |
| `home.dfy` | `Home` | the selection state machine of the home page |
| `edit_task.dfy` | `EditTask` | the edit-session state machine |

Behaviour kept exactly as the code has it:

- Each time the list collection arrives, the first list is selected and its
  tasks are fetched, whether or not a list was already selected. An empty
  collection leaves the selection and the fetches as they were.
- Selecting a list always fetches its tasks again, even when it is already
  selected. Enter on a list tab does exactly what a click does.
- There is no guard against an older task fetch answering after a newer one.
  `Home.LateResponseWins` shows the tasks of a list that is no longer selected
  replacing the tasks on screen.
- The flag `done` is not validated before an update. A draft whose flag was
  never set sends it unset (`EditTask.UpdateSendsDraft`).
- A failed task load sets the error message and leaves the draft as it was.
- A wire deadline that is falsy leaves the editor value unchanged. It is not
  reset to empty.

## Model

| member | source | states |
|---|---|---|
| `Decimal.Show` | src/pages/Home.jsx:171 | a whole number's text is one or more digits with no leading zero |
| `Decimal.ValueOfShow` | src/pages/Home.jsx:171 | reading the decimal text of `n` gives back `n`, so the countdown numbers are printed without loss |
| `Decimal.ShowInjective` | src/pages/Home.jsx:171 | different numbers print as different text |
| `Deadline.Strip` | src/pages/EditTask.jsx:84 | `/:00Z$/` removal: a value ending in the suffix loses exactly that suffix; any other value is unchanged |
| `Deadline.Encode` | src/pages/EditTask.jsx:37 | the payload limit is an explicit null exactly when the editor value is empty; otherwise it is a stamp that ends in the suffix and strips back to the editor value |
| `Deadline.Load` | src/pages/EditTask.jsx:84 | a truthy wire limit replaces the editor value with its stripped text; a missing or empty one keeps the current editor value |
| `Deadline.StripEncoded` | src/pages/EditTask.jsx:37-84 | for every editor value `l`, stripping `l + ":00Z"` gives `l` |
| `Deadline.EncodeStripped` | src/pages/EditTask.jsx:37-84 | a wire value `p + ":00Z"` with non-empty `p` is reproduced exactly by loading and saving it |
| `Deadline.StripRemovesOne` | src/pages/EditTask.jsx:84 | only one trailing suffix is removed from `l + ":00Z:00Z"` |
| `Deadline.UnsuffixedNotReproduced` | src/pages/EditTask.jsx:37-84 | a wire value not ending in `:00Z` does not survive loading and saving |
| `Deadline.BareSuffixSavesNull` | src/pages/EditTask.jsx:37-84 | the wire value `":00Z"` loads as an empty editor value and saves as null |
| `Deadline.LoadExample` | src/pages/EditTask.jsx:84 | `2024-05-01T09:00:00Z` loads as `2024-05-01T09:00` |
| `Countdown.SplitBounds` | src/pages/Home.jsx:168-170 | the page's three floor divisions give hours below 24 and minutes below 60, and they account for the difference to within one minute, rounding down |
| `Countdown.Split` | src/pages/Home.jsx:166-170 | a non-positive difference is overdue; a positive one splits into days, hours below 24 and minutes below 60 with `Millis <= d < Millis + 60000` |
| `Countdown.SplitUnique` | src/pages/Home.jsx:168-170 | any days, hours below 24 and minutes below 60 that account for `d` to the minute are the ones the page computes |
| `Countdown.Render` | src/pages/Home.jsx:171-173 | the expired marker is produced exactly for an overdue countdown |
| `Countdown.RemainingTime` | src/pages/Home.jsx:163-175 | the text is `"期限切れ"` exactly when `deadline - now <= 0` |
| `Countdown.RemainingTimeShowsSplit` | src/pages/Home.jsx:166-171 | for a positive difference the text is `"{days}d {hours}h {minutes}m"` of its unique floor decomposition |
| `Countdown.NinetyMinutes` | src/pages/Home.jsx:168-171 | a difference of 5400000 ms shows `0d 1h 30m` |
| `TaskView.WantedFlag` | src/pages/Home.jsx:178-218 | the mode `"done"` wants strictly `true`; every other mode wants strictly `false` |
| `TaskView.Keep` | src/pages/Home.jsx:182-184 | the filter keeps exactly the tasks whose flag is the wanted one, and no more tasks than it was given |
| `TaskView.KeepAppend` | src/pages/Home.jsx:182-184 | filtering distributes over concatenation, so the kept tasks stay in their original order |
| `TaskView.KeepCount` | src/pages/Home.jsx:182-184 | the filter keeps as many tasks as carry the wanted flag |
| `TaskView.View` | src/pages/Home.jsx:150-219 | a `null` task array shows nothing; otherwise a task is shown exactly when its flag is strictly the one the mode wants |
| `TaskView.ViewsPartition` | src/pages/Home.jsx:178-219 | the done and not-done views share no task and lose no boolean-flagged task; tasks with a non-boolean flag are in neither, and the counts add up to the whole array |
| `TaskView.OtherModesAgree` | src/pages/Home.jsx:178 | every mode other than `"done"` shows the same view |
| `TaskView.RowOf` | src/pages/Home.jsx:187-203 | a row carries the task's id and title, the done label exactly for a done task, and a countdown exactly when the deadline is truthy; that countdown is the remaining-time text of the deadline at `now`, which is the expired marker exactly when the deadline has passed |
| `TaskView.RowsOf` | src/pages/Home.jsx:185-208 | one row per task, in the same order |
| `TaskView.Render` | src/pages/Home.jsx:177-245 | one pass over the task array yields the rows of the filtered view, and each row's label is the done label exactly in the `"done"` mode |
| `Home.Init` | src/pages/Home.jsx:10-14 | the first render shows the not-done mode `"todo"`, has no selection, no task fetches, no error and an empty task array, so it shows no rows and the selection invariant holds from the start |
| `Home.SelectList` | src/pages/Home.jsx:52-66 | selecting a list sets the selection and issues one fetch for it, leaving tasks, lists, error and mode alone |
| `Home.OnListsFetched` | src/pages/Home.jsx:24-50 | a non-empty collection selects its first list and fetches it; an empty one changes neither the selection nor the fetches |
| `Home.OnKeyDown` | src/pages/Home.jsx:69-74 | Enter is identical to a click; any other key changes nothing |
| `Home.Step` | src/pages/Home.jsx:16-74 | every event issues at most one new fetch and never removes an earlier one |
| `Home.StepKeepsSelectionIsLastFetch` | src/pages/Home.jsx:32-66 | each event keeps the selection equal to the list fetched last |
| `Home.RunKeepsSelectionIsLastFetch` | src/pages/Home.jsx:32-66 | over any sequence of events the selection is the list fetched last, and the fetch log only grows |
| `Home.FetchOutcomes` | src/pages/Home.jsx:42-48 | a task fetch success replaces the tasks wholesale; a failure sets the error message and keeps tasks and selection |
| `Home.ListsFetchFailure` | src/pages/Home.jsx:27-29 | a failed lists fetch sets the error message and changes nothing else |
| `Home.ReselectFetchesAgain` | src/pages/Home.jsx:52-74 | clicking the selected list fetches it again, and Enter does the same as the click |
| `Home.FirstListsLoad` | src/pages/Home.jsx:32-49 | one list arriving after the first render is selected and fetched with no user action |
| `Home.SelectTwiceFetchesTwice` | src/pages/Home.jsx:52-66 | two clicks on the same list issue two fetches |
| `Home.LateResponseWins` | src/pages/Home.jsx:52-66 | a late answer for a list no longer selected replaces the tasks on screen |
| `Home.ModeChangeOnlyChangesView` | src/pages/Home.jsx:16 | changing the display mode changes the mode field and nothing else, and the rows shown become the view for the new mode |
| `EditTask.Init` | src/pages/EditTask.jsx:13-94 | the draft starts empty with `done` unset, the task fetch is sent, and no malformed update has been sent |
| `EditTask.Step` | src/pages/EditTask.jsx:17-94 | only an update click (with the payload built from the draft) or a delete click adds a request, exactly one; only a success navigates, to `/`; only a failure changes the error message |
| `EditTask.InputsChangeOneField` | src/pages/EditTask.jsx:17-26 | title, detail and deadline input each replace their own field and nothing else |
| `EditTask.OnStatusInput` | src/pages/EditTask.jsx:19 | the flag becomes true exactly for the radio value `"done"`, false for any other, and nothing else changes |
| `EditTask.BuildPayload` | src/pages/EditTask.jsx:32-37 | the payload carries title, detail and flag as held, and the deadline with the suffix or an explicit null |
| `EditTask.OnTaskLoaded` | src/pages/EditTask.jsx:77-85 | a load copies title, detail and flag and passes the deadline through the codec, leaving error, navigation and the request log alone |
| `EditTask.UpdateSendsDraft` | src/pages/EditTask.jsx:29-41 | an update click sends the draft unvalidated and leaves the draft unchanged |
| `EditTask.OutcomesOfUpdateAndDelete` | src/pages/EditTask.jsx:46-67 | success navigates to `/`; failure sets the error message and changes nothing else |
| `EditTask.LoadFailureKeepsDraft` | src/pages/EditTask.jsx:91-93 | a failed load sets the error message and keeps the draft |
| `EditTask.LoadThenSaveRoundTrip` | src/pages/EditTask.jsx:32-84 | loading a task with deadline `p + ":00Z"` and saving at once sends its title, detail, flag and deadline back unchanged |
| `EditTask.ClearDeadlineSendsNull` | src/pages/EditTask.jsx:37-84 | a loaded `2024-05-01T09:00:00Z` shows as `2024-05-01T09:00`; clearing it sends `limit: null` |
| `EditTask.RunKeepsWellFormedUpdates` | src/pages/EditTask.jsx:29-41 | over any sequence of events every update payload's deadline is null or non-empty text followed by `:00Z` |

## Left out

- HTTP requests, the bearer-token cookie header and URL building are network I/O. They are replaced by the request logs and by response events.
- Routing and navigation are reduced to the `navigated` field. JSX markup, CSS classes and ARIA attributes are UI only.
- `formatLimitString` (`src/pages/Home.jsx:153-161`) is left out because it relies on `Date` parsing and the `Intl` locale formatter. Rows carry no formatted deadline.
- Parsing a wire deadline with `new Date(limit)` and reading the clock are left out. `TaskView.RowOf` takes them as the parameters `deadlineOf` and `now`, in integer milliseconds.
- TaskView.RowsOf: one `now` serves every row, while the page reads the clock once per row. Two rows rendered across a minute boundary can therefore differ from the model by one minute.
- TaskView.RowOf: a truthy deadline that `Date` cannot parse gives a `NaN` difference, and the page shows the expired marker. The total `deadlineOf` stands for that only by returning a value not after `now`.
- The home page's lists fetch on first render is not recorded in `Home.State.requests`. Its answers arrive as `ListsFetched` and `ListsFetchFailed` events with no logged request behind them.
- Countdown.Split: floor division on integers replaces `Math.floor` of floating-point quotients. Rounding of doubles near the edge of `Date`'s range is not modelled.
- Decimal.Show: a JavaScript number of 1e21 or more prints in exponent notation. This is not modelled because no `Date` difference reaches that many days.
- The list-id check `typeof listId !== "undefined"` is modelled only for the empty collection. Lists are assumed to always carry an id.
- JSON serialisation of the payload is left out. A JavaScript object drops an `undefined` member when serialised; the model's payload keeps `done` as `Unset`.
- TaskView.RowOf: the label uses the flag being strictly true, not JavaScript truthiness. The two agree on every task a view shows, since views hold only strictly boolean flags.
- The task-view link target (`/lists/{id}/tasks/{taskId}`) and the list-edit link are markup. Rows carry the task id only.
- `console.log` debugging output is left out.
- A task response whose `tasks` member is missing (`undefined`) makes the component throw on `filter`. This is not modelled; `None` in `Home.State.tasks` stands for `null` only.
