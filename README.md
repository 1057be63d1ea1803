# Course-accreditation front end: session client and grade table, in Dafny

This project models the logic of a browser front end for accreditation data. The model has three parts.

- **The HTTP client** (`frontend/src/hooks/useApi.js`, module `Api`). `getCookie` looks a cookie up in the
  `document.cookie` string, whose entries are separated by `"; "` as section 4.2.1 of RFC 6265 lays out.
  A request interceptor copies the `csrf_access_token` cookie into the `X-CSRF-TOKEN` header of
  POST/PUT/PATCH/DELETE requests. A response interceptor answers a 403 CSRF rejection: it refetches the
  token and replays the request, at most once per request.
- **The session provider** (`frontend/src/Context/AuthContext.jsx`, module `Auth`). It keeps the session
  state `user`, `initializing` and `authLoading`, and provides `initAuth`, `login`, `register`, `logout`,
  `refreshUser` and `fetchCsrfToken`. It also holds the 401 interceptor: while one `/refresh` call is in
  flight, every further qualifying 401 waits in a queue, and when the refresh settles all waiters are settled
  the same way.
- **The grade-distribution table** (`NcaaaStudentResults.jsx`, module `StudentResults`). This covers the two
  initial rows, editing one cell, mapping an uploaded CSV row to a table row, and replacing the table after
  an upload.

Supporting modules:

- `Strings` holds the JavaScript string operations the code relies on (`includes`, `split`,
  `toLowerCase`). `includes` and `split` are both defined with `Strings.Find`, a left-to-right search for
  a substring.
- `Http` holds the parts of requests and responses the code reads, and the request configuration object.
- `Options` holds the optional value used for `undefined`/`null`.

The form follows the source:

- The request configuration is a class (`Http.RequestConfig`). The interceptors write its headers and its
  `_csrfRetry` and `_retry` marks in place, and the same object is replayed.
- The provider's state and the 401 interceptor's `refreshing`/`queue` variables are fields of the class
  `Auth.AuthProvider`.
- The table's `data` state is a field of `StudentResults.StudentResultsTable`.
- The transforms (`getCookie`, `updateCell`'s row map, `csvToTableKeys`) are functions with lemmas about them.

Network calls are replaced by their outcomes, passed as parameters. The cookie jar is a string parameter.
JavaScript's `Number` is a parameter `parse: string -> int`; a missing or empty CSV field becomes 0
before `parse` is ever applied.

Details of the code's behaviour the model keeps:

- The request interceptor tests the cookie for truthiness. An empty `csrf_access_token` value is therefore
  not copied into the header (`Api.StampedToken`).
- The CSRF retry replays only after a successful refetch that leaves a non-empty cookie. In every other case
  it rejects the original error.
- Only the request that starts a refresh is marked `_retry` (`Auth.AuthProvider.On401`, `Queued` case).
  A request that waited in the queue and is replayed can therefore start a later refresh of its own if it
  fails with 401 again, so the at-most-once 401 retry holds only for the request that starts the refresh.
- The endpoint exemption is a substring test on the URL. Any URL containing `/me` or `/refresh` is exempt
  from the refresh, `/members` included (`Auth.MembersUrlIsExempt`).

## Model

| member | source | states |
|---|---|---|
| `Strings.Split` | frontend/src/hooks/useApi.js:25-26 | `split` with a non-empty separator: at least one piece, and joining the pieces with the separator gives back the input |
| `Strings.Lower` | frontend/src/hooks/useApi.js:33 | `toLowerCase` on ASCII: same length, no capital letter left, every other character kept, and each character either kept or moved up by 32, so each capital becomes its own lower-case letter |
| `Strings.SplitOnce` | frontend/src/hooks/useApi.js:25-26 | when the separator occurs once (first at p, none after it), `split` gives exactly the text before and after it |
| `Strings.SplitInTwo` | frontend/src/hooks/useApi.js:25-26 | `split` gives two pieces only when the separator occurs once in that sense |
| `Strings.Contains` | frontend/src/hooks/useApi.js:77 | `includes` is true exactly when the substring occurs at some index |
| `Api.FirstSegment` | frontend/src/hooks/useApi.js:26 | `split(";").shift()` is the text up to the first `;`, or all of it |
| `Api.GetCookie` | frontend/src/hooks/useApi.js:23-28 | a found value comes after an occurrence of `"; name="` in `"; " + cookie` and holds no `;` |
| `Api.GetCookieUnique` | frontend/src/hooks/useApi.js:24-26 | when `"; name="` occurs exactly once in `"; " + cookie`, the cookie is found and its value is the text after it up to the next `;` or the end |
| `Api.GetCookieAbsent` | frontend/src/hooks/useApi.js:26-27 | when `"; name="` does not occur, the result is null |
| `Api.GetCookieRepeated` | frontend/src/hooks/useApi.js:26-27 | when `"; name="` occurs twice (name without `;`), the result is null |
| `Api.GetCookieFoundOnce` | frontend/src/hooks/useApi.js:25-26 | a found cookie's `"; name="` occurs exactly once (name without `;`) |
| `Api.IsStateChanging` | frontend/src/hooks/useApi.js:33 | a method counts as state-changing only when present; the names it accepts are 3 to 6 letters long (which names pass is `Api.StateChangingMethodTest`) |
| `Api.LowerGivesWord` | frontend/src/hooks/useApi.js:33 | lower-casing a method gives a lower-case word exactly when the method is that word up to ASCII case |
| `Api.StateChangingMethodTest` | frontend/src/hooks/useApi.js:33 | a method passes exactly when it is post, put, patch or delete with each letter in either ASCII case; stated without `toLowerCase` |
| `Api.StateChangingExamples` | frontend/src/hooks/useApi.js:33 | "POST" and "Delete" pass the method test; "GET" does not |
| `Api.StateChangingIgnoresCase` | frontend/src/hooks/useApi.js:33 | the method test ignores ASCII case: a method and its lower-case form are treated alike |
| `Api.StampedToken` | frontend/src/hooks/useApi.js:33-37 | a token is stamped only on a state-changing request, and it is the CSRF cookie's value, non-empty and free of `;` |
| `Api.InterceptRequest` | frontend/src/hooks/useApi.js:31-45 | headers gain `X-CSRF-TOKEN` = the cookie value exactly for a post/put/patch/delete method (any case) with a non-empty cookie; otherwise the config is unchanged; the retry marks are never touched |
| `Api.StampIsCookieValue` | frontend/src/hooks/useApi.js:33-37 | a state-changing request whose CSRF cookie occurs once with a non-empty value is stamped with that value |
| `Api.NoStampWithoutSingleCookie` | frontend/src/hooks/useApi.js:34-35 | no request is stamped when the CSRF cookie is absent or repeated |
| `Api.IsCsrfRejection` | frontend/src/hooks/useApi.js:76-77 | true exactly for a response with status 403 whose `data.msg` is present and contains "CSRF" at some index |
| `Api.CsrfReplayToken` | frontend/src/hooks/useApi.js:80-90 | no replay token for a marked request, a failed refetch or a response that is not a CSRF rejection; a token is the refetched cookie's non-empty value |
| `Api.OnCsrfError` | frontend/src/hooks/useApi.js:74-97 | replays exactly when the response is a 403 whose `msg` contains "CSRF", the request is unmarked, the refetch succeeded and a non-empty cookie exists; the replay carries that token; the mark is set whenever the first two hold; a marked request is never replayed; otherwise the config is unchanged |
| `Api.CsrfReplayIsOneShot` | frontend/src/hooks/useApi.js:78-89 | a request replayed after a CSRF rejection is not replayed again when it is rejected again |
| `Auth.ErrorMessage` | frontend/src/Context/AuthContext.jsx:56-58 | the failure text is `data.error` if truthy, else `data.message` if truthy, else the fallback; it is never empty when the fallback is not |
| `Auth.MeUser` | frontend/src/Context/AuthContext.jsx:32-35 | a failed `/me` leaves no user; a successful one installs exactly the user its response carries (null when it carries none) |
| `Auth.IsAuthEndpoint` | frontend/src/Context/AuthContext.jsx:125 | true exactly for a present URL in which `/me` or `/refresh` occurs at some index |
| `Auth.MembersUrlIsExempt` | frontend/src/Context/AuthContext.jsx:125 | every URL with `/me` at any index counts as an auth endpoint, `/members` among them |
| `Auth.RefreshApplies` | frontend/src/Context/AuthContext.jsx:127 | no refresh for a request already marked `_retry`, for an auth endpoint, with no user signed in, or for a failure that is not a 401 |
| `Auth.AuthProvider.constructor` | frontend/src/Context/AuthContext.jsx:9-11 | the session starts with no user, `initializing` true, `authLoading` false, and no refresh in flight |
| `Auth.AuthProvider.FetchCsrfToken` | frontend/src/Context/AuthContext.jsx:14-23 | returns true exactly when `GET /csrf-token` succeeded; never throws |
| `Auth.AuthProvider.InitAuth` | frontend/src/Context/AuthContext.jsx:26-39 | always ends with `initializing` false; the user is `/me`'s user (null if missing) on success and null on failure |
| `Auth.AuthProvider.Submit` | frontend/src/Context/AuthContext.jsx:46-84 | shared by login and register: succeeds exactly when the POST does, then sets the user; otherwise keeps the user and fails with the error message; `authLoading` ends false |
| `Auth.AuthProvider.Login` | frontend/src/Context/AuthContext.jsx:46-64 | as `Submit` with fallback "Login failed"; a failure always carries a non-empty message |
| `Auth.AuthProvider.Register` | frontend/src/Context/AuthContext.jsx:66-84 | as `Submit` with fallback "Registration failed"; a failure always carries a non-empty message |
| `Auth.AuthProvider.Logout` | frontend/src/Context/AuthContext.jsx:86-97 | the user is null and `authLoading` false whatever the POST's outcome |
| `Auth.AuthProvider.RefreshUser` | frontend/src/Context/AuthContext.jsx:99-106 | the user is `/me`'s user on success and null on failure |
| `Auth.AuthProvider.On401` | frontend/src/Context/AuthContext.jsx:120-148 | passes through exactly when not (401, unmarked, not an auth endpoint, user set); while refreshing, appends to the queue and starts nothing; otherwise marks `_retry`, sets `refreshing` and leads the one refresh |
| `Auth.AuthProvider.ProcessQueue` | frontend/src/Context/AuthContext.jsx:113-116 | every queued request is settled in order the same way (all replayed, or all rejected with the same error); the queue is then empty |
| `Auth.AuthProvider.RefreshSucceeded` | frontend/src/Context/AuthContext.jsx:135-145 | on refresh success the queue drains as replays, the leader is replayed, `refreshing` is false |
| `Auth.AuthProvider.RefreshFailed` | frontend/src/Context/AuthContext.jsx:139-145 | on refresh failure the queue drains as rejections with the refresh error, the leader is rejected with it, the user is null, `refreshing` is false |
| `Auth.SingleFlight` | frontend/src/Context/AuthContext.jsx:127-145 | N qualifying 401s while signed in issue exactly one refresh; all N settle alike; only the first is marked `_retry`; a failed refresh signs the user out; `initializing` and `authLoading` are untouched |
| `StudentResults.InitialRows` | frontend/src/Components/ncaaaDetailComponents/NcaaaFormTables/NcaaaStudentResults.jsx:16-55 | two rows, ids "students" and "percentage", labels "Number of Students" and "Percentage", every cell empty |
| `StudentResults.WithCell` | frontend/src/Components/ncaaaDetailComponents/NcaaaFormTables/NcaaaStudentResults.jsx:59 | the object spread sets one column and keeps the id, the label and every other column |
| `StudentResults.UpdateRows` | frontend/src/Components/ncaaaDetailComponents/NcaaaFormTables/NcaaaStudentResults.jsx:58-60 | same length, order, ids and labels; column `col` of rows with id `rowId` becomes the typed text; every other cell is unchanged |
| `StudentResults.UpdateRowsLastWins` | frontend/src/Components/ncaaaDetailComponents/NcaaaFormTables/NcaaaStudentResults.jsx:58-60 | editing the same cell twice equals editing it once with the second value |
| `StudentResults.UpdateRowsCommute` | frontend/src/Components/ncaaaDetailComponents/NcaaaFormTables/NcaaaStudentResults.jsx:58-60 | edits to different cells commute |
| `StudentResults.CsvKeysDistinct` | frontend/src/Components/ncaaaDetailComponents/NcaaaFormTables/NcaaaStudentResults.jsx:66-80 | the F grade and Fail are the only two columns read from the same CSV header |
| `StudentResults.CsvNumber` | frontend/src/Components/ncaaaDetailComponents/NcaaaFormTables/NcaaaStudentResults.jsx:66-80 | `Number(x || 0)`: a missing or empty field gives 0, a non-empty one its parsed number |
| `StudentResults.CsvToTableKeys` | frontend/src/Components/ncaaaDetailComponents/NcaaaFormTables/NcaaaStudentResults.jsx:63-81 | id "students" exactly when `Field` is "Number of Students", else "percentage"; label is `Field`; a missing or empty column gives 0, a present one its parsed number; `fail == f` |
| `StudentResults.InitialLabelsImportToTheirIds` | frontend/src/Components/ncaaaDetailComponents/NcaaaFormTables/NcaaaStudentResults.jsx:64 | a CSV row whose `Field` is an initial row's label is imported under that row's id |
| `StudentResults.CsvToTable` | frontend/src/Components/ncaaaDetailComponents/NcaaaFormTables/NcaaaStudentResults.jsx:103 | one mapped row per CSV row, in order |
| `StudentResults.StudentResultsTable.constructor` | frontend/src/Components/ncaaaDetailComponents/NcaaaFormTables/NcaaaStudentResults.jsx:16 | the table starts as the initial rows |
| `StudentResults.StudentResultsTable.UpdateCell` | frontend/src/Components/ncaaaDetailComponents/NcaaaFormTables/NcaaaStudentResults.jsx:57-60 | the table becomes `UpdateRows` of the old table |
| `StudentResults.StudentResultsTable.HandleCsvUpload` | frontend/src/Components/ncaaaDetailComponents/NcaaaFormTables/NcaaaStudentResults.jsx:84-120 | a non-empty parse replaces the table with the mapped rows and reports success; an empty or missing result, a parse error or no file leaves it unchanged, with the warning, the error message or nothing |

## Left out

- Transport: real HTTP, the base URL, timeouts, `withCredentials` and `document.cookie` access. Each awaited call is an `Outcome` parameter and the cookie string is a parameter.
- Responses: the outcomes given to the actions are the final ones, after the interceptors have acted on them. The `GET /csrf-token` refetch and the replayed requests themselves, with their own passes through the interceptors, are not modelled.
- Response bodies: only string values of `error`, `message` and `msg` are modelled. A body missing altogether is not modelled, since axios always sets `data`.
- Case conversion: `toLowerCase` is modelled on ASCII letters only. No non-ASCII character lower-cases to a letter of "post", "put", "patch" or "delete", so the method test is exact.
- CSV parsing: PapaParse's own parsing is not modelled; its `results.data` is the input. JavaScript `Number` (floats, NaN) is the abstract `parse`.
- Debug logging: the debug response interceptor only logs, so it is not modelled.
- Auto-refresh: the 25-minute timer, the React effects, interceptor ejection and `useMemo` wiring are not modelled.
- Interceptor re-installation: the source installs a fresh 401 interceptor, with a fresh `refreshing`/`queue` pair, each time `user` changes. Its `user` test reads the value captured when that effect last ran, and the effect re-runs only after the render that follows `setUser`. The model keeps one pair for the provider's lifetime and reads the current user. The two differ in two cases. First, when the user changes while a refresh is in flight. Second, when a 401 arrives between a `setUser` and the effect's re-run. After `logout` or a failed refresh clears the user, such a 401 still starts `/refresh` in the source, while `Auth.AuthProvider.On401` passes it through. After a sign-in, the source passes it through while the model refreshes.
- Timing: promise interleaving is not modelled. Each action runs to completion, so the `authLoading = true` window during login, register and logout is not observable. The refresh is split into the event that starts it and the two that settle it. No order is claimed between the leader's replay and the queued replays.
- Request payloads: the credentials and registration data sent to `/login` and `/register` are not modelled. Only the outcome matters to the session state.
- Column keys: `updateCell` is modelled for the fifteen editable grade and status columns, the only keys the table's inputs pass. Writes to arbitrary keys are not modelled.
- UI: rendering, the column definitions, the toast and file-upload widgets and the comment textarea are not modelled.
- Other files: `NcaaCourseContext.jsx`, `ResearchContext.jsx`, `NCAAA_CourseList.jsx`, `NcaaaDetailPage.jsx` and `extenstions.py` are not part of this model. They are thin query wrappers, view code and library setup.
