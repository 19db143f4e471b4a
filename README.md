# Complaint portal client: decision kernel

The browser script of a student complaint portal (`script.js`) does several jobs. It fetches complaints and students from a REST server and renders them. It keeps the logged-in student in `localStorage`. It validates the registration and login forms. It also defines two e-mail notification functions, `sendStatusUpdateEmail` (script.js:204) and `sendComplaintEmail` (script.js:278), but nothing in the script calls either: `updateComplaintStatus` (script.js:241-259) and `handleComplaintSubmission` (script.js:314-343) only re-render and alert after their request. This project models the parts that decide something and proves what they promise:

- **Expiry.** A complaint is expired once more than 24 h (86 400 000 ms) have passed since it was submitted (`Complaints.IsExpired`). Timestamps and the current time are integer milliseconds passed in as parameters.
- **Student statistics.** Total, pending and resolved counts over the student's complaints (`Complaints.StudentStats`, built on the filter `Complaints.WithStatus`).
- **The two complaint lists.** `Render.RenderStudentComplaints` and `Render.RenderAdminComplaints` are loops that build one entry per fetched complaint. Each entry is the record the HTML is painted from: capitalised type, display status, and for the admin the expired flag, the status select and the delete button. A failed fetch gives the load-error message and an empty list gives the "No complaints submitted yet." message.
- **String helpers.** `trim()` with ECMAScript's whitespace set (`Text.Trim`), first-letter capitalisation (`Text.Capitalize`), and `replace('-', ' ')`, which replaces only the first hyphen (`Text.ReplaceFirst`, `Text.StatusDisplay`).
- **Session store.** `localStorage` is a class holding a `map<string, string>` (`Session.LocalStorage`). The session mirror is the three keys `currentStudentId`, `currentStudentName` and `currentStudentEmail`. It is written after a successful registration or login (`Session.WriteSession`), removed on logout (`Session.ClearSession`) and tested by `checkLoginStatus` (`Session.LoggedIn`).
- **Form validation.** Every field is trimmed, and a blank one stops the submit before anything is sent (`Forms.ValidateRegistration`, `Forms.ValidateLogin`).
- **Handlers and page state.** The handlers of the separate registration and login pages are module-level methods that take the `LocalStorage` (`Portal.HandleStudentRegistration`, `Portal.HandleStudentLogin`). The two portal handlers, logout, `checkLoginStatus` and the login/register toggle are methods of `Portal.StudentPage`, which holds the student page's display fields; the registered-students toggle is a method of `Portal.AdminPage`. A server reply is an input value (`Portal.Reply`). A handler returns the request it would send, the alert it would show and, on the separate pages, the page it would move to.
- **Notifications.** Whether there is an address to write to (`Notify.Recipient`) and the template strings `complaint_type` (`Text.Capitalize`) and `new_status` (`Notify.NewStatusParam`), as the two uncalled notification functions would build them.

Status texts are not capitalised in either list (script.js:36, 169): `replace('-', ' ')` only turns the first hyphen into a space. So the display is idempotent only for statuses with at most one hyphen (`Text.StatusDisplayIdempotentIff`). The four known statuses do get four distinct texts (`Render.StatusTextsDistinct`). "Logged in" needs both the id and the name to be present and non-empty (script.js:71).

## Model

| member | source | states |
|---|---|---|
| `Complaints.IsExpired` | script.js:5-11 | defines the rule: expired when strictly more than 24 h (86 400 000 ms) separate the submission time from now; its properties are the three lemmas below |
| `Complaints.ExpiryBoundary` | script.js:5-11 | exactly 24 h after submission a complaint is not expired; 24 h + 1 ms after, it is |
| `Complaints.ExpiryMonotone` | script.js:5-11 | once expired, a complaint stays expired at every later time |
| `Complaints.TwentyFiveHoursExpired` | script.js:5-11 | a complaint submitted 25 h before now is expired |
| `Complaints.WithStatus` | script.js:55-56 | the filter keeps exactly the complaints whose status equals the given one (both directions) and is no longer than its input |
| `Complaints.WithStatusAppend` | script.js:55-56 | filtering a concatenation is the concatenation of the filtered parts |
| `Complaints.DistinctStatusesBounded` | script.js:55-56 | the counts of two different statuses add up to at most the list length |
| `Complaints.StudentStats` | script.js:54-56 | total is the list length; pending and resolved count exact status matches; pending + resolved ≤ total |
| `Complaints.StatsAppend` | script.js:54-56 | each counter over a concatenation is the sum of the counters over the parts |
| `Text.TrimStart` | script.js:349-351 | the result is the longest suffix starting with a non-whitespace character; everything dropped is whitespace |
| `Text.TrimEnd` | script.js:349-351 | the result is the longest prefix ending with a non-whitespace character; everything dropped is whitespace |
| `Text.Trim` | script.js:349-351 | the trimmed value is the input's own slice between an all-whitespace prefix and an all-whitespace suffix, neither starts nor ends with whitespace, and is empty exactly when the input is all whitespace |
| `Text.TrimIdempotent` | script.js:349-351 | trimming twice is trimming once |
| `Text.ToUpper` | script.js:34 | the result is never a lower-case ASCII letter; a character changes exactly when it is one, and then becomes the matching capital |
| `Text.Capitalize` | script.js:34 | defines `charAt(0).toUpperCase() + slice(1)`, used for the type heading (script.js:34, 166) and the `complaint_type` parameter (script.js:222, 296); its properties are in `Text.CapitalizeProperties` |
| `Text.CapitalizeProperties` | script.js:34 | capitalising keeps the length and every character after the first, upper-cases the first, maps the empty string to itself and is idempotent |
| `Text.ReplaceFirst` | script.js:36 | the replacement keeps the length |
| `Text.ReplaceFirstSplit` | script.js:36 | only the first occurrence is replaced: the text before it and everything after it are kept |
| `Text.ReplaceFirstFixedIff` | script.js:36 | the text is unchanged exactly when the pattern does not occur |
| `Text.ReplaceFirstCount` | script.js:36 | exactly one occurrence disappears when there is one |
| `Text.StatusDisplay` | script.js:169 | defines the status text of both lists (script.js:36, 169) as `ReplaceFirst` of `-` by a space; the lemmas below state what that gives |
| `Text.StatusDisplayWithoutHyphen` | script.js:169 | a status without a hyphen is displayed as it is |
| `Text.StatusDisplayInProgress` | script.js:169 | "in-progress" is displayed as "in progress" |
| `Text.StatusDisplayIdempotentIff` | script.js:36 | displaying twice equals displaying once exactly when the status has at most one hyphen |
| `Render.StatusTextOf` | script.js:36 | of the four statuses only "in-progress" changes, to "in progress" |
| `Render.StatusTextsDistinct` | script.js:169 | the four statuses are shown as four different texts |
| `Render.StudentEntryOf` | script.js:31-38 | defines one student item: capitalised type, id, description, raw status as class, display status and timestamp |
| `Render.StatusOptions` | script.js:172-177 | defines the four options of the status select in their order, each selected when its value equals the status; `Render.OneOptionSelected` and `Render.LiveEntryIsEditable` state what that gives |
| `Render.AdminEntryOf` | script.js:162-178 | defines one admin item from the complaint and the time of the render; `Render.ExpiredEntryIsReadOnly`, `Render.LiveEntryIsEditable` and `Render.DeleteButtonIff` state what that gives |
| `Render.RenderStudentComplaints` | script.js:14-45 | load error on a failed fetch, the empty message on an empty list, else one entry per complaint in fetch order, built without a clock |
| `Render.RenderAdminComplaints` | script.js:145-201 | load error on a failed fetch, the empty message on an empty list, else one entry per complaint in fetch order, each judged at the same now |
| `Render.ExpiredEntryIsReadOnly` | script.js:162-178 | an expired complaint has the `expired` class, the " (Expired)" suffix, and no status select and no delete button, whatever its status |
| `Render.TwentyFiveHoursOldIsReadOnly` | script.js:162-178 | a complaint submitted 25 h before the render is titled expired and offers no status select and no delete button |
| `Render.LiveEntryIsEditable` | script.js:162-178 | an unexpired complaint has no expired marks; its select lists the four statuses in order, an option is selected exactly when it equals the status, and there is a delete button exactly when the status is "resolved" |
| `Render.OneOptionSelected` | script.js:173-176 | exactly one option is selected when the status is one of the four, none otherwise |
| `Render.DeleteButtonIff` | script.js:171-178 | a delete button appears exactly for complaints that are unexpired and resolved |
| `Render.ResolveThenProgressScenario` | script.js:178 | setting an unexpired complaint to "resolved" shows a delete button; "in-progress" shows none |
| `Render.AdminListPolicy` | script.js:161-181 | in a rendered admin list, entry k is editable exactly when complaint k is unexpired, and deletable exactly when it is also resolved |
| `Session.LoggedIn` | script.js:71 | defines the test of `checkLoginStatus`: both `currentStudentId` and `currentStudentName` present and non-empty |
| `Session.WriteSession` | script.js:373-375 | defines the three `setItem` calls every successful registration or login makes (script.js:373-375, 424-426, 462-464, 517-519) |
| `Session.ClearSession` | script.js:93-95 | defines the three `removeItem` calls of logout |
| `Session.Mirror` | script.js:373-375 | defines the student the three session keys describe, when all three are present; `Session.WriteThenRead` and `Session.ClearRemovesExactlySession` state what it reads back |
| `Session.WriteThenRead` | script.js:373-375 | after the three writes the mirror reads back the returned student, the session is logged in exactly when its id and name are non-empty, and no other key changes |
| `Session.ClearRemovesExactlySession` | script.js:92-96 | logout removes exactly the three session keys; afterwards there is no mirror, the session is not logged in, and other keys such as `registeredStudents` are as before |
| `Session.LastWriteWins` | script.js:462-464 | a later login overwrites an earlier one completely |
| `Session.ClearUndoesWrite` | script.js:93-95 | logging out after a login leaves the store as a logout before it would have |
| `Session.RegisterThenLoginScenario` | script.js:424-426 | registering {S1, Ana, a@x.com} and then logging in with the same record leaves the mirror holding exactly those values, logged in |
| `Session.LocalStorage.GetItem` | script.js:68-69 | `getItem` gives a value exactly when the key is stored, and then the stored value |
| `Session.LocalStorage.SetItem` | script.js:373 | `setItem` maps the key to the value and leaves every other key as it was |
| `Session.LocalStorage.RemoveItem` | script.js:93 | `removeItem` removes the key and leaves every other key as it was |
| `Session.LocalStorage.constructor` | script.js:68 | the store starts with the given contents |
| `Forms.ValidateRegistration` | script.js:349-356 | the form is rejected with "Please fill in all fields." exactly when some field is all whitespace; otherwise the trimmed values, all non-empty, are sent |
| `Forms.ValidateLogin` | script.js:441-446 | the form is rejected with "Please enter your Student ID." exactly when the id is all whitespace; otherwise the trimmed, non-empty id is sent |
| `Forms.SameTrimSameOutcome` | script.js:349-356 | both checks see their fields only through `trim()`: inputs with the same trimmed values give the same request or message |
| `Forms.ValidationIgnoresSurroundingSpace` | script.js:400-407 | validating the trimmed values gives the same outcome as validating the raw ones |
| `Notify.Recipient` | script.js:210-213 | a notification has an address exactly when the student was found and has a non-empty e-mail, and then it is that e-mail |
| `Notify.NewStatusParam` | script.js:225 | defines the `new_status` parameter as written: the upper-cased first character followed by the whole display text |
| `Notify.CapitalizedStatusLabel` | script.js:222 | defines the intended `new_status` label: the display text capitalised the way line 222 capitalises the type |
| `Notify.NewStatusParamRepeatsFirst` | script.js:225 | for every non-empty status the `new_status` parameter is the upper-cased first character followed by the whole display text, one character longer than the status, and never the capitalised label |
| `Notify.PendingMailedAsPpending` | script.js:225 | "pending" would be mailed as "Ppending", where the capitalised label is "Pending" |
| `Notify.CapitalizedStatusLabelProperties` | script.js:225 | the intended label keeps the status length, upper-cases the first display character and keeps the rest of the display text |
| `Portal.FailureAlert` | script.js:365-368 | a rejection shows the server's message when it is non-empty, else the handler's fallback; a thrown error shows its own message |
| `Portal.StoreReply` | script.js:370-375 | an accepted reply writes the returned student's three fields and nothing else; any other reply stores nothing and gives the failure alert |
| `Portal.HandleStudentRegistration` | script.js:397-435 | a blank field: alert, nothing sent, store unchanged; else the trimmed request is sent, and an accepted reply stores the session, alerts success and moves to student.html |
| `Portal.HandleStudentLogin` | script.js:438-470 | a blank id: alert, nothing sent, store unchanged; else the trimmed id is sent, and an accepted reply stores the session and moves to student.html |
| `Portal.StudentPage.CheckLoginStatus` | script.js:67-89 | the portal sections and the name are shown exactly when id and name are both non-empty, else the login section; the name is untouched when logged out |
| `Portal.StudentPage.ShowsSession` | script.js:73-87 | defines the page state `checkLoginStatus` leaves: the three portal sections and the name shown when logged in, else only the login section |
| `Portal.StudentPage.HandleLogout` | script.js:92-97 | the store becomes the old store without the three session keys, and the login section is shown |
| `Portal.StudentPage.HandleRegistrationOnPortal` | script.js:346-383 | a blank field: alert, nothing sent, store and page unchanged; else the trimmed request is sent, and an accepted reply stores the session and the page shows it; when that session is not logged in the name on the page is kept |
| `Portal.StudentPage.HandleLoginOnPortal` | script.js:493-527 | a blank id: alert, nothing sent, store and page unchanged; else the trimmed id is sent, and an accepted reply stores the session and the page shows it; when that session is not logged in the name on the page is kept |
| `Portal.StudentPage.ToggleLoginRegister` | script.js:473-490 | shows the chosen form, hides the other, and moves the `active` class to the matching button without touching its other classes |
| `Portal.AdminPage.ToggleRegisteredStudents` | script.js:132-142 | a hidden panel is shown with the button reading "Hide Registered Students"; any other display, unset included, is hidden with "Show Registered Students" |

## Findings

| source | as written | input that shows it | evidently intended | confidence | as-written member | corrected member |
|---|---|---|---|---|---|---|
| script.js:225 | `newStatus.charAt(0).toUpperCase() + newStatus.replace('-', ' ')` puts the upper-cased first letter in front of the whole status | "pending" would be mailed as "Ppending"; "in-progress" as "Iin progress" | the capitalised display text, "Pending", as line 222 does for the type | high (not executed) | `Notify.NewStatusParam`, shown by `Notify.PendingMailedAsPpending` and `Notify.NewStatusParamRepeatsFirst` | `Notify.CapitalizedStatusLabel`, proved by `Notify.CapitalizedStatusLabelProperties` |

The defect is latent: `sendStatusUpdateEmail` is defined but never called in script.js. The model of line 225 keeps the code as written, `Notify.NewStatusParam`. The corrected label is modelled next to it. No other part of the model consumes either string.

## Left out

- Network calls (`fetch`, HTTP status handling, JSON parsing): a server reply is an input value (`Render.Fetch`, `Portal.Reply`). The server is authoritative and is not part of this model.
- Complaint submission, status update and deletion (`handleComplaintSubmission`, `updateComplaintStatus`, `deleteComplaint`): each is one request followed by a re-render, with no decision of its own.
- `renderRegisteredStudents`: a list of students fetched from the server; it is outside the modelled kernel.
- `getRegisteredStudents` and `saveRegisteredStudents`: JSON of a legacy cache that no flow reads. Only its key's survival through logout is stated.
- The HTML itself (`innerHTML`, `createElement`, event listeners, `confirm`, the `id`/`data-id` attributes) and form `reset()`: the model keeps the records and display fields the HTML is painted from.
- The early `return` when a page lacks the list element: it is a DOM lookup, not a decision.
- The re-renders that `checkLoginStatus` starts (`updateStudentStats`, `renderStudentComplaints`) and how their concurrent replies interleave: they are asynchronous requests. Their results are modelled as the pure projections above.
- Writing the three counters into the page: the model computes the counters only.
- Date parsing and `toLocaleString`: timestamps and now are integers, `submitted` carries the raw timestamp, and an unparsable date (NaN, which is never expired) is not modelled.
- `Text.ToUpper`: upper-cases ASCII `a`–`z` only; JavaScript's full Unicode case mapping (for example "ß" becoming "SS") and UTF-16 surrogate pairs in `charAt(0)` are not modelled.
- `emailjs.send`, its callbacks, the `update_date` and `submission_date` parameters, and the placeholder service identifiers: a foreign call, the clock and constants with no logic.
- `linkedinPostAutomation.js`: a file read and one fixed HTTP post with no logic.
- Fields missing from a server record (which `setItem` would store as "undefined"): `Session.Student` always has all three fields.
- A fetched complaint without `type` or `status`: `charAt` or `replace` would throw inside the `forEach` (script.js:34, 36, 166, 169), and the `catch` (script.js:41-44, 197-200) would replace the whole list with "Error loading complaints.". `Complaints.Complaint` always has every field, so in the model a fetched list never gives the load error.
- Render.RenderAdminComplaints: judges every complaint of one render at the same `now`. `isComplaintExpired` reads `new Date()` on each call (script.js:6), once per complaint (script.js:162), so one render really judges its complaints at successive, non-decreasing instants; a complaint crossing the 24 h mark during a render is not modelled.
- Nothing in script.js calls `sendStatusUpdateEmail` or `sendComplaintEmail`; the notification strings are modelled as those functions would build them.
- Any server-side enforcement of the 24 h rule: nothing in the client shows it.
