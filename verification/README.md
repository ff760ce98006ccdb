# TaskFlow board and sign-in forms in Dafny

TaskFlow is a browser kanban board. Users sign up and log in, then add,
filter, drag between columns, rename and delete tasks. This project models
the three parts of the front end that are plain logic, and proves what they
promise:

- **The task board** (`src/pages/Home.js`), module `Board`.
  - A task record keeps both optional identity fields, `_id` (here `docId`) and `id`.
  - Records are matched by the handlers' test `_id === key || id === key`. An
    absent key (`undefined`) is `None`, and it matches a record that lacks
    either field.
  - `filterTasks` has three filters: status, priority (case-insensitive) and
    assignee substring (case-insensitive). Only the emptiness test of the
    name box trims it; the substring test uses it untrimmed.
  - The four columns, in display order: `todo`, `inprogress`, `underreview`, `done`.
  - `countTasks`.
  - The four handlers: add, drop, delete and edit. Each backend call is an
    outcome parameter, `Reply` (`Ok(data)` or `Failed`, the `catch` branch).
    Each handler returns a `Step`: the request it issued, if any, and the task
    list afterwards. The list changes only on `Ok`.
- **The sign-up form** (`src/pages/Signup.js`), module `SignupForm`.
  - Three validators: name, e-mail and password.
  - The ordered chain of five checks. The first failing check picks the message.
  - The outcome after the round trip: the request, the error banner, the
    success banner and the four inputs. The inputs are cleared only on status 201.
- **The login form** (`src/pages/Login.js`), module `LoginForm`.
  - The chain of three checks. The password threshold is 6 here, not 8.
  - The outcome: on a 2xx answer the stored session is exactly `data.user`.
    Otherwise the message is `data.message`, or a fallback when it is absent or empty.

Supporting modules:
- `Seqs`: order-preserving `Filter` and pointwise `MapWhere`. These are
  `Array.prototype.filter` and `map`, with their laws.
- `Text`: JavaScript white space (the `\s` class and `trim`), `trim`,
  `toLowerCase` on ASCII, and `includes`.
- `Email`: the regular expression `^[^\s@]+@[^\s@]+\.[^\s@]+$` in two forms,
  proved equal. One is the shape it describes; the other is a direct check.
- `Auth`: the shape of an auth round trip (`Threw`, or `Answered(status, body)`)
  and the `data.message || fallback` rule.
- `Optional`: the `Option` type.

## Model

| member | source | states |
|---|---|---|
| `Board.CardKey` | src/pages/Home.js:346-348 | the key a card hands to its handlers (`_id || id`) is the `_id` unless it is absent or empty, otherwise `id`, and the card's own record always matches it |
| `Board.FirstMatch` | src/pages/Home.js:129-130 | `find` by key: no index exactly when no record matches; otherwise the index of a matching record with no match before it |
| `Board.FilterTasks` | src/pages/Home.js:146-155 | the visible list is an order-preserving subsequence of the tasks; a record is in it iff it is a task passing all three filters; each passing record keeps its full multiplicity |
| `Board.FilterTasksAllOff` | src/pages/Home.js:149-153 | with status and priority `"all"` and a name box that trims to nothing (white space only included), the visible list is the whole list in order |
| `Board.FilterTasksIdempotent` | src/pages/Home.js:146-155 | filtering the visible list again gives the same list |
| `Board.PriorityIgnoresCase` | src/pages/Home.js:150-151 | two priority selections with the same lower-case form show exactly the same records |
| `Board.NameIgnoresCase` | src/pages/Home.js:152-153 | two name entries with the same lower-case form show exactly the same records |
| `Board.CaseInsensitiveExamples` | src/pages/Home.js:150-153 | selecting `"high"` shows a `"High"` task, and typing `"ali"` shows a task assigned to `"Alice"` |
| `Board.Column` | src/pages/Home.js:339-340 | a column is a subsequence of the visible list; it holds exactly the visible records with that column's status |
| `Board.ColumnIsOneFilter` | src/pages/Home.js:339-340 | the two-stage column (board filter, then status test) equals one filter by "visible and of this status" over the whole list, order included |
| `Board.ColumnsPartitionVisible` | src/pages/Home.js:311-340 | a visible record appears in the column of its status and in no other; a record whose status names no column appears in none |
| `Board.ColumnSizesAddUp` | src/pages/Home.js:339-340 | the four column filters of any list have lengths summing to the number of its records that have a column status, so no record is counted twice |
| `Board.ColumnsCoverBoard` | src/pages/Home.js:311-340 | the displayed columns' lengths sum to the number of visible records with a column status |
| `Board.CountTasks` | src/pages/Home.js:58-60 | the counter is at most the list length; it is 0 iff no record has the status; it equals the length iff every record has it |
| `Board.CountTasksIsStatusFilter` | src/pages/Home.js:58-60 | for any status other than `"all"`, the counter equals the length of the list filtered by that status alone |
| `Board.CountTasksAppend` | src/pages/Home.js:58-60 | the counter of a concatenation is the sum of the counters, so an appended record adds one exactly to its own status |
| `Board.SetStatus` | src/pages/Home.js:135-139 | the drop rewrite keeps the length; matching records get the new status with every other field unchanged; other records are untouched |
| `Board.SetTitle` | src/pages/Home.js:186-190 | the edit rewrite keeps the length; matching records get the new title with every other field unchanged; other records are untouched |
| `Board.RemoveMatching` | src/pages/Home.js:161-163 | the delete filter leaves an order-preserving subsequence with no matching record, and every non-matching record keeps its multiplicity |
| `Board.SetStatusSameColumn` | src/pages/Home.js:135-139 | dropping records on the column they are already in changes nothing |
| `Board.SetStatusAbsent` | src/pages/Home.js:135-139 | a move by a key that no record matches leaves the list unchanged |
| `Board.SetStatusCount` | src/pages/Home.js:135-139 | after a move into column `s`, `s`'s counter rises by the number of matching records that were in another column |
| `Board.SetTitleKeepsCounts` | src/pages/Home.js:186-190 | renaming tasks changes no status counter |
| `Board.RemoveAbsent` | src/pages/Home.js:161-163 | deleting a key that no record matches leaves the list unchanged |
| `Board.RemoveIdempotent` | src/pages/Home.js:161-163 | deleting the same key twice is the same as deleting it once |
| `Board.AddThenRemove` | src/pages/Home.js:158-166 | deleting the key of a just-appended record that no earlier record matches restores the list from before the add |
| `Board.TaskPathCollision` | src/pages/Home.js:160 | two keys reach the same task URL exactly when they are equal, or when one is absent and the other is the text `"undefined"` |
| `Board.HandleAdd` | src/pages/Home.js:85-114 | a POST is issued iff the dialog resolved with a form that `preConfirm` accepts, that is, with a title and a person; the draft has status `todo`, the default photo, no ids and the form's fields; on success the returned record is appended, so the length grows by exactly one; otherwise the list is unchanged |
| `Board.HandleDrop` | src/pages/Home.js:123-143 | an empty transfer id or an id matching no record issues nothing and changes nothing; otherwise the PUT carries the first matching record (the one `find` returns) with the new status; on failure nothing changes; on success every matching record gets the new status and nothing else changes |
| `Board.HandleDelete` | src/pages/Home.js:158-167 | the DELETE is always issued; on failure nothing changes; on success the matching records are gone and the rest keep their order and multiplicity; an absent key changes nothing |
| `Board.DeleteCardRemovesIt` | src/pages/Home.js:158-167 | a successful delete from a card removes that card's record from the board |
| `Board.HandleEdit` | src/pages/Home.js:170-195 | nothing is issued when no record matches or the entered title is empty or dismissed; otherwise the PUT carries the first matching record (the one `find` returns) with the new title; on success only the titles of matching records change |
| `Board.ExampleFilterByPriority` | src/pages/Home.js:146-155 | on a two-task board, the priority filter `"High"` shows only the `High` task |
| `Board.ExampleMove` | src/pages/Home.js:123-143 | on the same board, a successful drop of task `1` on the in-progress column moves it there, and the todo counter becomes 0 |
| `Seqs.Filter` | src/pages/Home.js:147-154 | `Array.prototype.filter`: an order-preserving subsequence whose elements all pass, in which each passing element keeps its multiplicity |
| `Seqs.FilterIdempotent` | src/pages/Home.js:147-154 | filtering twice by the same predicate is filtering once |
| `Seqs.FilterAllPass` | src/pages/Home.js:147-154 | a filter returns its input unchanged iff every element passes |
| `Seqs.FilterAppend` | src/pages/Home.js:147-154 | filtering distributes over concatenation |
| `Seqs.FilterThenFilter` | src/pages/Home.js:339-340 | filtering by `p` and then by `q` is filtering by `p && q`, as the column stage on top of `filterTasks` does |
| `Seqs.MapWhere` | src/pages/Home.js:136-138 | the conditional `map`: same length; elements that pass are replaced by their image and the rest are unchanged |
| `Text.Trim` | src/pages/Signup.js:24 | `trim` returns the slice between two all-white-space ends; the slice neither starts nor ends with white space; it is empty iff the whole string is white space |
| `Text.Lower` | src/pages/Home.js:151 | `toLowerCase` keeps the length; each ASCII capital becomes its small letter; every other character is kept |
| `Text.Includes` | src/pages/Home.js:153 | `includes` holds iff the needle occurs at some index of the haystack |
| `Email.IsValidIffMatchesPattern` | src/pages/Signup.js:15-17 | the direct check accepts exactly the language of the regular expression: no white space, one `@`, something before it, and a dot after it that is neither first nor last |
| `SignupForm.ValidNameIffTwoVisible` | src/pages/Signup.js:23-25 | a name is valid iff it has two characters that are not white space |
| `SignupForm.Validate` | src/pages/Signup.js:33-56 | each message is reported exactly when every earlier check passes and its own check fails: empty field, name, e-mail, password shorter than 8, mismatch; no message iff all five pass |
| `SignupForm.HandleSignup` | src/pages/Signup.js:27-87 | a request is issued iff every check passes, and it carries name, e-mail and password; a failed check shows its message; success iff the answer is 201, which clears the inputs; a throw shows the connection message; any other status shows `data.message` or "Signup failed. Please try again."; the error is empty iff success |
| `SignupForm.BlankNameStoppedByNameCheck` | src/pages/Signup.js:33-41 | a name of white space only passes the empty-field check and is stopped by the name check |
| `SignupForm.MismatchSendsNothing` | src/pages/Signup.js:53-56 | with mismatched but otherwise valid fields, the outcome is "Passwords do not match" and no request |
| `LoginForm.Validate` | src/pages/Login.js:21-34 | an empty e-mail or password gives "Please enter both email and password"; an invalid e-mail is reported only after that; a password shorter than 6 is reported only after both; no message iff the e-mail is valid and the password has at least 6 characters |
| `LoginForm.HandleLogin` | src/pages/Login.js:16-62 | a request is issued iff every check passes; the success banner is shown iff the answer is 2xx; then `data.user` is stored unless the storing step throws, in which case nothing is stored and the connection message shows beside the success banner; otherwise nothing is stored, and the error is the check's message, the connection message, or `data.message` with the "Login failed" fallback; the error is empty iff the session was stored |
| `LoginForm.SignupAcceptedPassesLogin` | src/pages/Login.js:21-34 | any e-mail and password that the sign-up checks accept also pass the login checks |
| `LoginForm.ExampleAddressValid` | src/pages/Login.js:12-14 | `a@b.co` is a valid address |
| `LoginForm.SixCharactersLogIn` | src/pages/Login.js:31-34 | a six-character password passes the login checks |
| `LoginForm.SixCharactersDoNotSignUp` | src/pages/Signup.js:48-51 | the same password is refused by sign-up with "Password must be at least 8 characters" |
| `Auth.MessageOr` | src/pages/Signup.js:79 | `data.message || fallback` gives the server's message unless it is absent or empty, otherwise the fallback; the result is never empty when the fallback is not |

## Notes on behaviour

- Identity. The handlers match a record on `_id` **or** `id`. Records are
  not normalised to one identity field, and the model keeps both fields.
- Add. The code appends the record the backend returned (`res.data`), not
  the draft. So only the posted draft is proved to have status `todo`.
- Delete. The DELETE request is sent even when no record matches. The
  local list is unchanged either way.
- URLs. An absent key is spelled `undefined` by the template literal, so it
  reaches the same URL as the key `"undefined"`.
- Login. The success banner is set before the session is written. When
  that write throws (a `null` body, or storage the browser refuses), the
  catch block shows the connection message beside the success banner and
  nothing is stored. The model takes this as a parameter of the handler.

## Left out

- Network calls. `fetch`, the axios instance (`src/api.js`), base URLs and
  endpoints are foreign I/O. Each call is an outcome parameter (`Reply` or
  `Exchange`). The initial `GET /tasks` load just replaces the list, and it is not modelled.
- Browser state. `localStorage` reads on load, logout, `navigate`,
  `window.location` and the `setTimeout` redirects are browser plumbing. The
  login outcome records only what would be written (`Stored`).
- Dialogs and the DOM. SweetAlert rendering and `document.getElementById` are
  UI. The model takes only the values the dialogs resolve with (`Option`s).
- Concurrency. The handlers look records up in the rendered `tasks` snapshot
  but update `prev`. The model uses one list for both, so interleaved requests are out of scope.
- `src/pages/Dashboard.js`. Its figures are hard-coded, and its only logic
  is a redirect when no session is stored.
- Display-only code. JSX, styles, icons, the date, the `loading` flag and the
  live "valid" hints are not modelled.
- Dynamic typing. Every field is assumed to be a string. A record whose
  `priority` or `person` is missing would make `toLowerCase` throw; the model
  does not cover this.
- Drag payloads. `setData` turns an absent card key into the text
  `"undefined"`. The model takes the transfer text as given.
- `Text.Lower`: only ASCII letters are lower-cased, because full Unicode case
  mapping is not modelled. Case-insensitive matching is proved for ASCII only.
- `SignupForm.Validate`: string lengths count Dafny characters (Unicode
  scalar values). JavaScript `length` counts UTF-16 code units, so
  characters outside the Basic Multilingual Plane count once here, not twice.
  The same holds for `LoginForm.Validate`.
