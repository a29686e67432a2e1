# LMS export tool — verified model of the export pipeline

The tool is an Electron desktop app that talks to an LMS REST API with an OAuth client
credentials token. It has three tabs:

- **Courses and sessions** (`fullExport`). Loads every course page by page and applies
  the user's filters. For each course it loads the course sessions and each session's
  participants, then builds one row per speaker. A session without a speaker gets one
  placeholder row, and a course without sessions gets one summary row.
- **Sections and materials** (`fullExportMaterialsNew`). Loads the same course list and
  filters it the same way. It then flattens each course's sections into one row per
  material, task, quiz and SCORM package.
- **Feedback**. Reads a spreadsheet and adds a prefilled form link to every row. Then, for
  each complete row, it creates a "Обратная связь" section in the course, with a material
  that holds the link, and collects the results for export.

The model keeps the pipeline's logic and replaces everything outside it with parameters.

- **HTTP.** Every HTTP answer is a `Reply`: the token refresh before the request threw,
  the request failed inside its `try`, or a response body.
- **Paged endpoints.** Each is a finite sequence of replies; past its end it answers an
  empty array.
- **Per-id requests.** These are function values (course id to details, section POST to
  its answer).
- **Files and clocks.** The spreadsheet rows are values, and `Date.now()` is one integer
  per run.

Modules:

| file | module | models |
|---|---|---|
| js_values.dfy | `JsValues` | JS values, truthiness, `\|\|`, `String(v)`, `trim`, `toLowerCase`, `join` |
| seqs.dfy | `Seqs` | `Array.prototype.filter` and its laws |
| helpers.dfy | `Helpers` | `formatTime`, `getOwnerName`, `getAuthorsNames`, `applyCourseFilters` |
| paging.dfy | `Paging` | the shared `while (moreData)` page loop |
| auth.dfy | `Auth` | the token cache: `getAccessToken`, `ensureToken`, `getAuthHeaders` |
| courses_api.dfy, materials_api.dfy | `CoursesApi`, `MaterialsApi` | the course endpoints |
| sessions_api.dfy | `SessionsApi` | `fetchCourseSessions`, `fetchSessionDetails`, `processCourseSessions` |
| courses_tab.dfy | `CoursesTab` | `fullExport` and `window.fullExportData` |
| materials_tab.dfy | `MaterialsTab` | `fullExportMaterialsNew` and `window.materialsDataDetails` |
| uri.dfy | `Uri` | `encodeURIComponent`, UTF-8, query strings and their decoding |
| feedback_api.dfy | `FeedbackApi` | `createPrefilledUrl`, `createSection`, `addMaterialWithHyperlink` |
| feedback_tab.dfy | `FeedbackTab` | `processFeedbackFile`, `awaitCreateFeedback`, the export button |
| filter_service.dfy | `FilterService` | `applyFilters`, `processCourseIdFilterFile` |

A failed token refresh and a failed request are told apart. In the page loops,
`getCourseDetails`, `getCourseDetailsWithMaterials`, `fetchSessionDetails`, `createSection`
and `addMaterialWithHyperlink`, the `await ensureToken()` runs outside the `try`
(src/api/courses.js:18-22, src/api/courses.js:58-59, src/api/sessions.js:57-59,
src/api/feedback.js:14-24, src/api/feedback.js:44-73). A failed refresh there rejects the
whole operation, so in the model `TokenError` leads to `Thrown`. In `fetchCourseTypes` the
call is inside the `try` (src/api/courses.js:76-77), so every failure, the refresh included,
gives [].

## Model

| member | source | states |
|---|---|---|
| Helpers.FormatTime | src/utils/helpers.js:15-20 | defines the "h ч m мин s сек" text of a number of seconds |
| Helpers.PassesDate | src/utils/helpers.js:58-68 | defines the date test: an undated course passes, a dated one must lie within both given bounds, inclusive |
| Helpers.PassesTypes | src/utils/helpers.js:71-78 | defines the type test: no selected types, or some selected type, lowercased and trimmed, is the lowercased name of one of the course's types |
| Helpers.PassesIds | src/utils/helpers.js:81-83 | defines the id test: no id list or an empty one, or the course's trimmed id string is in the list |
| Helpers.ApplyCourseFilters | src/utils/helpers.js:55-87 | defines the filtered list as the courses passing all three tests, in order |
| Helpers.AuthorsNames | src/utils/helpers.js:36-47 | defines `getAuthorsNames` as the non-empty trimmed entries joined by ", ", or "" |
| Helpers.TimeParts | src/utils/helpers.js:15-20 | hours, minutes and seconds recombine to the input, and minutes and seconds are below 60 |
| Helpers.OwnerName | src/utils/helpers.js:27-29 | a missing owner gives "", and the result is always trimmed |
| Helpers.AuthorEntry | src/utils/helpers.js:39-42 | each author entry is trimmed |
| Helpers.AllAuthorEntries | src/utils/helpers.js:38-42 | one trimmed entry per author, in order |
| Helpers.AuthorsNamesShape | src/utils/helpers.js:36-47 | no authors array gives ""; otherwise the non-empty trimmed entries, in order, joined by ", ", each non-empty entry kept as often as it occurs and no empty one kept |
| Helpers.ApplyCourseFiltersSelects | src/utils/helpers.js:55-87 | the result is an order-preserving subsequence holding exactly the courses that pass the date, type and id tests, each as often as in the input |
| Helpers.ApplyCourseFiltersIdempotent | src/utils/helpers.js:55-87 | filtering twice equals filtering once |
| Helpers.NoFilterKeepsAll | src/utils/helpers.js:55-87 | with no dates, no types and no ids the output equals the input |
| Helpers.PassesTypesIgnoresCase | src/utils/helpers.js:71-78 | lowercasing the selected types does not change a course's type test |
| Helpers.TypeFilterIgnoresCase | src/utils/helpers.js:71-78 | lowercasing the selected types does not change the filtered list |
| Helpers.DateBoundsInclusive | src/utils/helpers.js:58-68 | an undated course always passes the date test; one dated exactly at one bound passes iff it is within the other bound |
| Helpers.BoundCourseKept | src/utils/helpers.js:55-87 | an undated course, or one dated at a bound of a non-empty range, that passes the type and id tests is in the filtered list |
| JsValues.TrimIdempotent | src/utils/helpers.js:28 | trimming twice equals trimming once |
| JsValues.TrimmedEnds | src/utils/helpers.js:28 | a trimmed string starts and ends with a character that is not white space |
| JsValues.LowerIdempotent | src/utils/helpers.js:73-75 | lowercasing twice equals lowercasing once |
| Paging.FetchAllPages | src/api/courses.js:11-50 | asks for pages 1, 2, … in order; stops at the first empty or failed page with the concatenation of the earlier pages; a failed token refresh gives `Thrown` |
| Paging.PrependTwice | src/api/courses.js:35 | concatenating page after page is associative |
| CoursesApi.FetchAllCourses | src/api/courses.js:11-50 | the page loop over the course list, with the same result as the page-loop specification |
| CoursesApi.GetCourseDetails | src/api/courses.js:57-69 | a failed refresh throws, a failed request gives null, otherwise the body |
| CoursesApi.FetchCourseTypes | src/api/courses.js:75-86 | every failure, the token refresh included, gives [] |
| MaterialsApi.FetchAllCoursesMaterials | src/api/materials.js:11-50 | the same page loop as the course list |
| MaterialsApi.GetCourseDetailsWithMaterials | src/api/materials.js:57-69 | a failed refresh throws, a failed request gives null, otherwise the body |
| Auth.NeedsRefresh | src/api/auth.js:35 | defines the refresh test: no truthy token, or the expiry reached |
| Auth.RefreshedTokenLifetime | src/api/auth.js:20-21 | a token with lifetime e obtained at t is refreshed exactly from t + 1000·e on |
| Auth.MissingLifetimeNeverExpires | src/api/auth.js:21 | without `expires_in` the expiry is NaN and the token is never refreshed |
| Auth.TokenCache.constructor | src/api/auth.js:5-6 | no token and no expiry |
| Auth.TokenCache.GetAccessToken | src/api/auth.js:11-28 | a failed request rethrows and keeps the cache; otherwise the cache holds the new token and its expiry |
| Auth.TokenCache.EnsureToken | src/api/auth.js:34-39 | refreshes exactly when no token is held or it has expired, and returns the cached token otherwise |
| Auth.TokenCache.AuthHeaders | src/api/auth.js:45-50 | a bearer header with the cached token and the JSON content type, nothing else |
| SessionsApi.FetchCourseSessions | src/api/sessions.js:12-47 | the page loop over a course's sessions |
| SessionsApi.Classify | src/api/sessions.js:69-89 | defines the speakers, the listener count, the owner and the authors of a session body |
| SessionsApi.FetchSessionDetails | src/api/sessions.js:55-100 | defines the details: a failed token refresh throws, a failed request gives empty details |
| SessionsApi.SessionRows | src/api/sessions.js:115-156 | defines the rows of one session: a row per speaker, or one placeholder row |
| SessionsApi.SessionsRows | src/api/sessions.js:113-158 | defines the rows of a session list in order, or `Thrown` |
| SessionsApi.ClassifySorts | src/api/sessions.js:69-84 | speakers are exactly the participants whose role is the speaker role, in order, each as often as among the participants; the listener count is the listener-role count, or all participants when there is no speaker |
| SessionsApi.FailedDetailsAreEmpty | src/api/sessions.js:64-67 | a failed request, or a null or array body, gives no speakers, no listeners and empty owner and authors |
| SessionsApi.PushSessionRows | src/api/sessions.js:119-156 | appends exactly the session's rows to the records |
| SessionsApi.ProcessCourseSessions | src/api/sessions.js:107-161 | the records are the rows of each session in order, or `Thrown` when a token refresh fails |
| SessionsApi.SessionRowsShape | src/api/sessions.js:115-156 | one row per speaker with its id and trimmed name, or one row with a null user and an empty name; every row has the session's id, its name or "Неизвестно" when the name is empty, and the details' listener count, owner and authors |
| SessionsApi.SessionsRowsCopyCourse | src/api/sessions.js:114-155 | every row copies the course's id, name, creation time and category, and the id and name (or "Неизвестно") of one of the course's sessions |
| SessionsApi.SessionsRowsEmpty | src/api/sessions.js:113-158 | no rows exactly when there are no sessions, and at least one row per session |
| SessionsApi.SessionsRowsUnfold | src/api/sessions.js:114-157 | the records of a session list are the first session's rows followed by the rest |
| CoursesTab.SummaryRowShape | src/components/courses-tab.js:137-157 | a course without session rows gets one row with no session and no user and 0 listeners; the owner is copied untrimmed, or "Неизвестно" when missing or empty; the authors are every trimmed entry joined by ", ", empty entries kept, or "Неизвестно" without an array; the category joins the type names with "Неизвестно" for an empty name, "" for an empty array, "Неизвестно" without an array |
| CoursesTab.SummaryKeepsEmptyAuthor | src/components/courses-tab.js:149-151 | an author with neither name adds an empty entry to the summary row (", x") but none to a session row's `getAuthorsNames` ("x") |
| CoursesTab.SummaryRow | src/components/courses-tab.js:140-156 | defines the summary record of a course without sessions |
| CoursesTab.RunOver | src/components/courses-tab.js:124-163 | defines the rows of the course loop and whether it reached the end |
| CoursesTab.StoppedRunStays | src/components/courses-tab.js:124-163 | once the run stops at a course, the later courses add nothing |
| CoursesTab.RunCoversCourses | src/components/courses-tab.js:124-163 | a complete run has at least one row per course, every course of the list has a row with its id, and every row belongs to a course of the list |
| CoursesTab.CourseRowsOwn | src/components/courses-tab.js:129-160 | every row pushed for one course carries that course's id; a row without a session is the summary row, pushed only when the course has no session rows, and then alone |
| CoursesTab.RunSummaryRows | src/components/courses-tab.js:124-163 | in a complete run the rows without a session are exactly the summary rows of the courses that have no session rows |
| CoursesTab.CoursesTab.constructor | src/components/courses-tab.js:120 | no rows and an empty table |
| CoursesTab.CoursesTab.PushRows | src/components/courses-tab.js:131-136 | appends the rows and numbers each one in the table |
| CoursesTab.CoursesTab.ExportCourses | src/components/courses-tab.js:115-163 | the table and data are cleared, then hold exactly the rows of the specified run over the courses; the loop succeeds iff no token refresh failed |
| CoursesTab.CoursesTab.FullExport | src/components/courses-tab.js:94-163 | a failed course fetch changes nothing; a set filter with null ids throws; otherwise `fullExportData` is the concatenation of the filtered courses' rows, and the run succeeds iff no token refresh failed |
| MaterialsTab.ItemRow | src/components/materials-tab.js:154-226 | defines the record of one material, task, quiz or SCORM package |
| MaterialsTab.SectionRows | src/components/materials-tab.js:145-231 | defines the records of one section, collection by collection |
| MaterialsTab.SectionRowsLayout | src/components/materials-tab.js:145-231 | one row per item, in the order materials, tasks, quizzes, SCORM; exactly the SCORM rows have `scorm`; the category and file name depend on the collection |
| MaterialsTab.SectionRowsNames | src/components/materials-tab.js:146-226 | every row of a section has the section's name ("" when missing), and each row the name and creation time of its own item |
| MaterialsTab.SectionRowsCopy | src/components/materials-tab.js:146-226 | every row of a section copies the course's id, name and creation time and the section's name |
| MaterialsTab.SectionsRowsCopyCourse | src/components/materials-tab.js:145-226 | every row copies the course's id, name and creation time, and the name of one of the course's sections |
| MaterialsTab.SectionsRowsCount | src/components/materials-tab.js:145-231 | a course's row count is the sum of its sections' array lengths |
| MaterialsTab.NoSectionsNoRows | src/components/materials-tab.js:139-142 | null details, or no sections array, add no rows |
| MaterialsTab.StoppedRunStays | src/components/materials-tab.js:130-235 | once the run stops at a course, the later courses add nothing |
| MaterialsTab.MaterialsTab.constructor | src/components/materials-tab.js:126 | no rows and an empty table |
| MaterialsTab.MaterialsTab.PushItems | src/components/materials-tab.js:150-167 | appends one numbered row per item of an array collection |
| MaterialsTab.MaterialsTab.PushSection | src/components/materials-tab.js:146-231 | appends the section's rows |
| MaterialsTab.MaterialsTab.PushDetail | src/components/materials-tab.js:139-232 | appends the rows of every section, or nothing |
| MaterialsTab.MaterialsTab.ExportCoursesMaterials | src/components/materials-tab.js:121-235 | the table and data are cleared, then hold exactly the rows of the specified run over the courses; the loop succeeds iff no token refresh failed |
| MaterialsTab.MaterialsTab.FullExportMaterials | src/components/materials-tab.js:100-235 | a failed course fetch changes nothing; a set filter with null ids throws; otherwise `materialsDataDetails` is the concatenation of the filtered courses' rows, and the run succeeds iff no token refresh failed |
| Uri.EncodeURIComponent | src/api/feedback.js:98 | defines `encodeURIComponent`: unreserved characters kept, every other one as the percent-escapes of its UTF-8 bytes |
| Uri.HexRoundTrip | src/api/feedback.js:98 | the hex digit of an escape reads back as its value |
| Uri.Utf8 | src/api/feedback.js:98 | one to four bytes per character, one byte exactly for ASCII |
| Uri.Utf8RoundTrip | src/api/feedback.js:98 | decoding the UTF-8 bytes of a string gives the string back |
| Uri.EncodeBytes | src/api/feedback.js:98 | the percent-escapes of an encoding decode to the UTF-8 bytes of the input |
| Uri.EncodeRoundTrip | src/api/feedback.js:98 | decoding undoes `encodeURIComponent` |
| Uri.EncodeInjective | src/api/feedback.js:98 | different texts have different encodings |
| Uri.EncodeAvoidsSeparators | src/api/feedback.js:98 | an encoding has no `&`, `=`, `?`, `#`, `+` or `$` |
| Uri.SplitJoin | src/api/feedback.js:97-99 | splitting a join undoes it when no piece holds the separator |
| Uri.PairRoundTrip | src/api/feedback.js:98 | a `key=value` field parses back into its pair |
| Uri.QueryRoundTrip | src/api/feedback.js:97-99 | a query string parses back into exactly its pairs and holds no `?` |
| FeedbackApi.CreatePrefilledUrl | src/api/feedback.js:92-102 | defines the link: the base URL, "?", and the encoded parameters joined by "&" |
| FeedbackApi.ReplaceFirst | src/api/feedback.js:49 | defines `String.prototype.replace` with a string pattern, `$` patterns included |
| FeedbackApi.MaterialPayloadFor | src/api/feedback.js:51-71 | defines the body of the material POST |
| FeedbackApi.Keys | src/api/feedback.js:93-97 | one key when both field ids are equal, otherwise both keys, in an order `Object.keys` allows |
| FeedbackApi.PrefilledUrlDistinctKeys | src/api/feedback.js:92-102 | with two ordinary distinct field ids the URL is `base?name=…&id=…` with both parts encoded |
| FeedbackApi.PrefilledUrlSameKey | src/api/feedback.js:92-102 | with one field id for both, only the course id is sent |
| FeedbackApi.PrefilledUrlParses | src/api/feedback.js:92-102 | the query parses back into one pair per distinct key: the id key carries the course id and a distinct name key the course name |
| FeedbackApi.PrefilledUrlShape | src/api/feedback.js:92-102 | the link is never empty and has no `$` when the base URL has none |
| FeedbackApi.IndexOf | src/api/feedback.js:49 | the first occurrence of the pattern at or after a position, or none |
| FeedbackApi.SubstituteLiteral | src/api/feedback.js:49 | a replacement without `$` is inserted literally |
| FeedbackApi.ReplaceWithoutMatch | src/api/feedback.js:49 | without an occurrence the string is unchanged |
| FeedbackApi.ReplaceFirstMatch | src/api/feedback.js:49 | only the first occurrence is replaced |
| FeedbackApi.MaterialPayloadShape | src/api/feedback.js:51-71 | one paragraph block with the first `{link}` replaced by the link, the given name and the fixed description |
| FeedbackApi.MaterialPayloadWithoutPlaceholder | src/api/feedback.js:49-58 | a template without `{link}` is posted unchanged |
| FeedbackApi.CreateSection | src/api/feedback.js:13-33 | a failed refresh throws, a failed request or a null body gives null, otherwise the body's id |
| FeedbackApi.AddMaterialWithHyperlink | src/api/feedback.js:43-81 | a failed refresh throws, otherwise true iff the request succeeded |
| FeedbackTab.WithLink | src/components/feedback-tab.js:136-144 | defines a sheet row with its link cell set |
| FeedbackTab.RowOutcome | src/components/feedback-tab.js:177-208 | defines what one sheet row gives: nothing, a result, or `Thrown` |
| FeedbackTab.LinkReadsTwoColumns | src/components/feedback-tab.js:136-144 | the link depends only on the Russian course name column and `course_id` |
| FeedbackTab.WithLinkKeepsCells | src/components/feedback-tab.js:138-144 | a row keeps its other cells and gets a non-empty link |
| FeedbackTab.CourseNameFallback | src/components/feedback-tab.js:178 | the course name falls back from the Russian column to `course_name`, then to "" |
| FeedbackTab.RowOutcomeEntry | src/components/feedback-tab.js:177-208 | a result carries the row's id, name and link, a truthy section id, and whether the material POST succeeded |
| FeedbackTab.RunBound | src/components/feedback-tab.js:175-213 | at most one result per row, each from a complete row with a created section |
| FeedbackTab.RunAllRows | src/components/feedback-tab.js:175-213 | when every row is complete and every section is created, each row gives one result, in row order |
| FeedbackTab.StoppedRunStays | src/components/feedback-tab.js:175-213 | once the run stops at a row, the later rows add nothing |
| FeedbackTab.FeedbackTab.constructor | src/components/feedback-tab.js:7-23 | the loaded settings, no data, no results, no export in progress |
| FeedbackTab.FeedbackTab.ProcessFeedbackFile | src/components/feedback-tab.js:130-163 | a failed read changes nothing; otherwise every row gets its link, in order |
| FeedbackTab.FeedbackTab.AwaitCreateFeedback | src/components/feedback-tab.js:168-221 | the results are those of the specified run over the rows, and the call succeeds iff no token refresh failed |
| FeedbackTab.FeedbackTab.StartExport | src/components/feedback-tab.js:105-118 | ignored while an export runs; otherwise raises the flag and writes the results, or nothing when there are none |
| FeedbackTab.FeedbackTab.FinishExport | src/components/feedback-tab.js:120-121 | clears the flag and nothing else |
| FilterService.Cells | src/services/filter.js:91-92 | one cell per row |
| FilterService.ExtractCourseIds | src/services/filter.js:91-93 | defines the ids of a sheet: the non-empty trimmed `course_id` cells |
| FilterService.ExtractCourseIdsOrder | src/services/filter.js:91-93 | the ids come in row order, at most one per row |
| FilterService.ExtractCourseIdsMembers | src/services/filter.js:91-93 | a string is an id iff it is the non-empty trimmed `course_id` of some row |
| FilterService.ExtractCourseIdsTrimmed | src/services/filter.js:91-93 | every id is non-empty and trimmed |
| FilterService.FalsyCourseIdDropped | src/services/filter.js:92 | a row whose `course_id` is falsy, such as 0, adds no id |
| FilterService.ExtractedIdsAdmit | src/services/filter.js:95-97 | with ids from a sheet, once the sheet gave at least one id, a course passes the id test iff its trimmed id is some row's trimmed `course_id`; a matching course always passes |
| FilterService.TargetOf | src/services/filter.js:57 | the courses options are chosen iff the target is "courses" |
| FilterService.AppliedMeaning | src/services/filter.js:57-79 | the new options hold the chosen dates and types, the carried ids or the old ones, and applying twice equals applying once |
| FilterService.ClearedFiltersGuard | src/services/filter.js:57-79 | with no dates, no types and no carried ids, only the loaded ids can set the export guard |
| FilterService.FilterState.constructor | src/renderer.js:16-18 | both options objects start empty |
| FilterService.FilterState.ApplyFilters | src/services/filter.js:51-80 | only the chosen target's options change; the ids are replaced only when the passed options carry an array |
| FilterService.FilterState.ProcessCourseIdFilterFile | src/services/filter.js:87-110 | the target's ids become the extracted ids, or [] on a read error; nothing else changes |
| FilterService.TypeChoiceIgnoresCase | src/utils/helpers.js:71-78 | selecting "Лекция" or "лекция" keeps the same courses |

## Left out

- DOM work is not modelled: building the table rows, progress text, the log panes, buttons, and `setupFilters`' checkboxes. The tables are modelled only as `(row number, row)` sequences.
- `delay` and the timers in the page loops and tabs are not modelled. They only pace requests.
- Reading and writing spreadsheets (`processExcelFile`, `exportToExcel`, XLSX, FileReader) is not modelled. A sheet is a sequence of rows, and a read error is `None`.
- src/services/settings.js, main.js and the preload script are not part of this model. The feedback settings are a parameter.
- Concurrency is not modelled: overlapping clicks and interleaved async calls. Each operation runs to completion, and the one flag the code guards (`exportFeedbackInProgress`) is modelled.
- Date parsing (`new Date(...)`) is not modelled. Creation times and filter bounds are already-parsed integer timestamps or absent.
- Numbers are integers of magnitude below 1e21, where `String(n)` is the plain decimal form. Fractional values (`String(12.5)`), the exponent forms (`String(1e21)` is "1e+21") and the precision lost above 2^53 are not modelled. This matters for course ids in the id filter, the `course_id` cells of an uploaded sheet and the cells of the feedback sheet.
- `toLowerCase` covers only Basic Latin and Cyrillic. Other scripts are left unchanged.
- Strings are sequences of Unicode scalar values. The `URIError` that `encodeURIComponent` throws on a lone surrogate cannot arise.
- The `__proto__` key and other prototype keys of `params` in `createPrefilledUrl` are not modelled.
- Array entries that are `null` are not modelled. This covers a null section or item, where the code would throw reading its fields.
- A `participants` field that is truthy but not an array is not modelled. A missing or falsy one is `[]`.
- Each oracle answers the same id the same way within one run. A repeated request cannot get a different answer.
- `Date.now()` in the material payloads is one value per run of `awaitCreateFeedback`.
- `toLocaleString` date display and the rendered table cells are not modelled.
- The progress percentage and elapsed time are not modelled, since they only feed `formatTime` for display. `formatTime` itself is modelled.
- The courses tab's button re-enabling after the run is not modelled. It is DOM state.
- FeedbackTab.FeedbackTab.ProcessFeedbackFile: starting `awaitCreateFeedback` after the 100 ms timer is left to the caller. That call is `AwaitCreateFeedback`.
- Auth.TokenCache.EnsureToken: models one refresh per call. Concurrent callers that refresh at the same time are not modelled.
- CoursesTab.CoursesTab.FullExport: a filter with null `courseIds` throws in the log line before any filtering. The model only states that it throws and changes nothing; `courseIds` is never null through the tab's own operations.
- MaterialsTab.MaterialsTab.FullExportMaterials: the same as FullExport for `window.filterOptionsMaterials`.
