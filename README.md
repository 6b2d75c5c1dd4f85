# Hostel360 core, modelled in Dafny

Hostel360 is a hostel complaint tracker. Students file complaints about
their block (plumbing, electricity, cleanliness, internet, security,
other). Wardens and admins update the status of a complaint and comment
on it. An image-triage utility rates the urgency of a photo from the
objects a detector finds in it; no route or controller calls it, and the
complaint schema has no urgency field.
An analytics panel and a heat map summarise complaints per category and
per block. A JSON Web Token guards the routes, and the browser keeps the
session in `localStorage`.

This project models the logic of that core and proves properties of it:

- the complaint schema and its validation on save (`ComplaintSchema`);
- the create and update handlers over a store of records
  (`ComplaintController`);
- the RGBA-to-RGB packing loop and the hazard rule of the image triage
  (`Triage`);
- the hours-to-days formatter (`Formatters`);
- the chart data of the analytics panel (`Analytics`);
- the hot-spot grid (`Heatmap`);
- the two route guards (`AuthMiddleware`);
- the account handlers (`UserController`);
- the sign-in state slice of the client (`AuthSlice`).

`Wrappers` (Option, Result), `Js` (user ids and the truthiness of an
optional string), `Text` (ASCII case mapping, split and join on one
character, decimal numerals) and `Collections` (distinct values in
first-occurrence order) are shared helpers.

Code that updates state in place is modelled as classes:

- a loaded Mongoose document (`ComplaintDoc`, `UserDoc`), whose fields
  the handlers assign before `save`;
- the collection it is saved to (`ComplaintStore`, `UserStore`);
- the express request that `protect` attaches a user to (`Request`);
- the Redux slice together with `localStorage` (`AuthState`).

Each method is proved against a value-level function of the old state.
The properties are lemmas about those functions. The packing loop keeps
its arrays, and the `blockMap` reduce keeps its loop.

Inputs outside the code become parameters:

- the current time;
- the outcome of the object detector;
- the signature check of `jwt.verify`;
- the result of `User.findById`;
- the user schema's validation.

## Model

| member | source | states |
|---|---|---|
| ComplaintSchema.ParseStatus | backend/models/Complaint.js:21-25 | a status string is accepted exactly when it is one of the three enum values, and it maps back to the same string |
| ComplaintSchema.StatusWireRoundTrip | backend/models/Complaint.js:21-25 | printing a status and parsing it gives the same status back |
| ComplaintSchema.ParseCategory | backend/models/Complaint.js:9-13 | a category string is accepted exactly when it is in the six-value enum |
| ComplaintSchema.CategoryWireRoundTrip | backend/models/Complaint.js:9-13 | printing a category and parsing it gives the same category back |
| ComplaintSchema.ElectricalIsNotACategory | frontend/src/components/SubmitComplaint.jsx:60 | the form's value "electrical" fails the enum, which spells the category "electricity" |
| ComplaintSchema.Errors | backend/models/Complaint.js:3-31 | title, description and block fail exactly when absent or empty; student fails exactly when absent; category fails exactly outside its enum or when absent; status fails exactly on a value outside its enum, and never when absent |
| ComplaintSchema.Validate | backend/models/Complaint.js:3-67 | a missing title, description, category, block or student always fails; a failure names at least one path; success exactly when no validator fails; success stores the block upper-cased and the status defaulted to Open, with the other fields as given |
| ComplaintSchema.LoadSaveRoundTrip | backend/models/Complaint.js:3-67 | saving a loaded, unchanged well-formed record validates and gives the same record |
| ComplaintSchema.BlockNormalisationIdempotent | backend/models/Complaint.js:15-19 | upper-casing the block again on a later save changes nothing |
| ComplaintSchema.CastComment | backend/models/Complaint.js:39-51 | a pushed comment keeps its user, takes the current time, and keeps its text exactly when it is given under the schema's `text` key |
| ComplaintController.Paths | backend/controllers/complaintController.js:10-13 | the stored image paths are the uploaded files' paths, in upload order |
| ComplaintController.CreateDraft | backend/controllers/complaintController.js:15-21 | the object passed to `Complaint.create` as written: title, description and category from the body, the requester as student, the upload paths, and no block, status, warden, comments or dates |
| ComplaintController.CreateDraftWithBlock | backend/controllers/complaintController.js:15-21 | the same object with the body's block passed through |
| ComplaintController.CreateAlwaysFails | backend/controllers/complaintController.js:15-21 | the object passed to `Complaint.create` always fails validation, on the missing `block` at least |
| ComplaintController.CreateWithBlockRecord | backend/controllers/complaintController.js:15-21 | with `block` passed through, creation succeeds exactly when title, description and block are non-empty and the category is in the enum; the record then has the requester as student, upload-order images, status Open, the block upper-cased, no warden and no comments |
| ComplaintController.ComplaintStore.Insert | backend/controllers/complaintController.js:15-27 | `Complaint.create` and its reply: a draft that fails validation gives 500 "Server error" and no change; otherwise the validated record is stored under the next id and returned with 201 |
| ComplaintController.ComplaintStore.CreateComplaint | backend/controllers/complaintController.js:5-28 | replies 500 "Server error" and stores nothing |
| ComplaintController.ComplaintStore.CreateComplaintWithBlock | backend/controllers/complaintController.js:5-28 | stores the validated record under a new id with 201, or replies 500 and stores nothing |
| ComplaintController.UpdatedRecord | backend/controllers/complaintController.js:57-65 | fails only on a truthy status outside the enum; a truthy status is written whatever the current one is; a truthy comment appends exactly one entry at the end and keeps the earlier ones; all other fields are unchanged |
| ComplaintController.UpdateDropsCommentText | backend/controllers/complaintController.js:62-64 | as written, the appended comment has no text |
| ComplaintController.UpdateWithTextKeyKeepsComment | backend/controllers/complaintController.js:62-64 | with the `text` key, the appended comment holds the text sent, the requester and the time |
| ComplaintController.WhitespaceCommentAppended | backend/controllers/complaintController.js:62 | a whitespace-only comment is appended |
| ComplaintController.ResolvedCanBeReopened | backend/controllers/complaintController.js:57-61 | a Resolved complaint can be set back to Open, and nothing else changes |
| ComplaintController.ComplaintStore.UpdateWithKey | backend/controllers/complaintController.js:55-71 | an unknown id answers 404 "Complaint not found" and changes nothing; otherwise the store holds the updated record and the reply is 200 with it, or the reply is 500 and nothing changes |
| ComplaintController.ComplaintStore.UpdateComplaint | backend/controllers/complaintController.js:55-71 | the handler as written, with the comment pushed under `comment`; same contract as UpdateWithKey |
| ComplaintController.ComplaintStore.UpdateComplaintWithTextKey | backend/controllers/complaintController.js:55-71 | the handler with the comment pushed under `text`; same contract as UpdateWithKey |
| ComplaintController.ComplaintDoc.Load | backend/controllers/complaintController.js:58 | a loaded document holds exactly the stored record's fields |
| Triage.DropAlpha | backend/utils/aiTriage.js:24-28 | the packed channels of the first n pixels: three values per pixel (which value goes where is DropAlphaAt) |
| Triage.DropAlphaAt | backend/utils/aiTriage.js:24-28 | channel k of pixel i lands at index 3i+k of the packed buffer |
| Triage.PackRgb | backend/utils/aiTriage.js:20-28 | the packing loop fills a fresh 3·224·224 buffer with the red, green and blue channels of each pixel, in pixel order |
| Triage.AnyHazard | backend/utils/aiTriage.js:39-40 | true exactly when some tag is on the hazard list |
| Triage.Rate | backend/utils/aiTriage.js:42 | the tags are returned as given; urgency is High exactly when a tag is a hazard keyword |
| Triage.LowerAll | backend/utils/aiTriage.js:34 | every detector class name is lower-cased, order kept |
| Triage.Analysis | backend/utils/aiTriage.js:7-47 | a model that does not load, an unreadable image or a failed detection give exactly the fallback (Low, ["analysis-failed"]); a detection gives its lower-cased labels, rated by the hazard rule |
| Triage.AnalysisShape | backend/utils/aiTriage.js:39-45 | every result is the fallback or is High exactly when one of its tags is a hazard |
| Triage.ExactLabelsOnly | backend/utils/aiTriage.js:39-40 | only exact labels count: "cellphone" and "fire extinguisher" are no hazard |
| Triage.CapitalisedHazardRated | backend/utils/aiTriage.js:34-40 | a detector class name "Smoke" is lower-cased before the hazard test and so rates High |
| Triage.AnalyzeImage | backend/utils/aiTriage.js:7-47 | the method, with the packing loop run on the bitmap array, returns Analysis of its inputs |
| Formatters.Round | frontend/src/utils/formatters.js:14 | `Math.round`: the integer within one half of the input, halves going up |
| Formatters.Days | frontend/src/utils/formatters.js:13 | `Math.floor(totalHours / 24)`: the number of whole days, 24·d ≤ h < 24·(d+1) |
| Formatters.HoursMod | frontend/src/utils/formatters.js:14 | `totalHours % 24` lies in [0, 24) and completes the whole days to the total |
| Formatters.RemainingHours | frontend/src/utils/formatters.js:14 | the rounded remainder lies in [0, 24], with 24 included |
| Formatters.DurationText | frontend/src/utils/formatters.js:8-29 | the output as written: "N/A" exactly for a non-positive input; otherwise "< 1 Hour" or a text that starts with a digit (its read-back is DurationTextReadsBack) |
| Formatters.FormatHoursToDays | frontend/src/utils/formatters.js:8-29 | the push-then-join method gives DurationText of its input |
| Formatters.Compose | frontend/src/utils/formatters.js:16-28 | the text for a day count and an hour count: "< 1 Hour" when both are 0, otherwise a text starting with a digit (its fields are ComposeFields, its read-back ComposeReadsBack) |
| Formatters.ComposeFields | frontend/src/utils/formatters.js:16-28 | the output's space-separated fields are the day part followed by the hour part |
| Formatters.ComposeReadsBack | frontend/src/utils/formatters.js:16-28 | reading an output back gives 24·days + hours |
| Formatters.ReadWords | frontend/src/utils/formatters.js:17-22 | the day part and the hour part read back as 24·days + hours |
| Formatters.DurationTextIsCompose | frontend/src/utils/formatters.js:9-14 | a positive input is shown as its whole days and its rounded remainder, which add up to its rounded total |
| Formatters.DaysAndRemainder | frontend/src/utils/formatters.js:13-14 | whole days and the rounded remainder add up to the rounded total |
| Formatters.DurationTextReadsBack | frontend/src/utils/formatters.js:8-29 | a non-positive input gives "N/A"; a positive one reads back as its rounded number of hours |
| Formatters.BelowOneHour | frontend/src/utils/formatters.js:24-26 | "< 1 Hour" is shown exactly for positive inputs below one half |
| Formatters.TwentyFourHoursShown | frontend/src/utils/formatters.js:14-21 | 23.5 gives "24 Hours" and 47.5 gives "1 Day 24 Hours" |
| Formatters.AsWrittenShowsFullDayOfHours | frontend/src/utils/formatters.js:14-21 | as written, an hour field can read 24 |
| Formatters.CorrectedDurationText | frontend/src/utils/formatters.js:8-29 | the intended output, with the total rounded before it is split: "N/A" exactly for a non-positive input; otherwise "< 1 Hour" or a text that starts with a digit |
| Formatters.CorrectedReadsBack | frontend/src/utils/formatters.js:8-29 | the corrected formatter reads back as the rounded total too |
| Formatters.CorrectedHoursBelowADay | frontend/src/utils/formatters.js:13-14 | the corrected formatter never shows 24 or more hours |
| Formatters.CorrectedAgreesBelowADay | frontend/src/utils/formatters.js:13-14 | where the rounded remainder is below 24, the corrected output equals the output as written |
| Collections.FirstIndex | frontend/src/components/admin/HotspotHeatmap.jsx:6 | the index of the first occurrence: it holds the value and no earlier index does |
| Collections.Distinct | frontend/src/components/admin/HotspotHeatmap.jsx:6 | each value once, exactly the values of the input |
| Collections.DistinctInFirstOccurrenceOrder | frontend/src/components/admin/HotspotHeatmap.jsx:6 | the distinct values come in the order in which they are first seen |
| Collections.DistinctSnoc | frontend/src/components/admin/AnalyticsContent.jsx:106-113 | one more value at the end is added to the distinct values exactly when it is new |
| Analytics.ColorAt | frontend/src/components/admin/AnalyticsContent.jsx:28-35 | every colour comes from the six-colour palette |
| Analytics.ColorsCycle | frontend/src/components/admin/AnalyticsContent.jsx:102 | colours repeat with period six, starting from the first |
| Analytics.SliceName | frontend/src/components/admin/AnalyticsContent.jsx:100 | `item._id || "Uncategorized"`: a truthy id names the slice itself, a null or empty one gives "Uncategorized"; a name is never empty |
| Analytics.CategoryChartData | frontend/src/components/admin/AnalyticsContent.jsx:98-103 | one slice per row in order, with the row's count and colour i mod 6; a truthy id is the slice's name; the name is "Uncategorized" exactly when the id is null, empty or "Uncategorized" |
| Analytics.TotalComplaints | frontend/src/components/admin/AnalyticsContent.jsx:122-125 | the total is at least every slice's value, and it is 0 exactly when every slice is 0 |
| Analytics.TotalIsSumOfCategoryCounts | frontend/src/components/admin/AnalyticsContent.jsx:122-125 | the total filed is the sum of the per-category counts |
| Analytics.BlockNames | frontend/src/components/admin/AnalyticsContent.jsx:107 | each row is labelled "Block " followed by its block |
| Analytics.Dict.Put | frontend/src/components/admin/AnalyticsContent.jsx:109-111 | `acc[k] = v` sets the value of k; a new key goes to the end of the key order and an existing one keeps its place; a dictionary that lists each of its keys once stays so |
| Analytics.Reducer | frontend/src/components/admin/AnalyticsContent.jsx:106-112 | one reducer step: a label seen before keeps its place and gains the row's count; a new label goes last with the row's count |
| Analytics.BlockMap | frontend/src/components/admin/AnalyticsContent.jsx:106-113 | the reduce yields each distinct label once, in first-seen order, holding the sum of the counts of its rows |
| Analytics.BlockTotalUnlisted | frontend/src/components/admin/AnalyticsContent.jsx:108-111 | a label with no rows totals 0 |
| Analytics.BlockChartData | frontend/src/components/admin/AnalyticsContent.jsx:116-120 | one bar per key, in key order, with the key's value and colour i mod 6 |
| Analytics.BlockBarsDistinct | frontend/src/components/admin/AnalyticsContent.jsx:106-120 | no two bars share a label |
| Analytics.SumOfTotalsCovers | frontend/src/components/admin/AnalyticsContent.jsx:106-113 | summing the totals of distinct labels that cover every row gives the sum of all counts |
| Analytics.BlockBarsPreserveTotal | frontend/src/components/admin/AnalyticsContent.jsx:106-120 | merging duplicate blocks loses no complaint: the bars add up to the sum of all hot-spot counts |
| Heatmap.ColumnsAreTheCategories | frontend/src/components/admin/HotspotHeatmap.jsx:7 | the columns are the six schema categories in enum order, each once |
| Heatmap.Intensity | frontend/src/components/admin/HotspotHeatmap.jsx:10-15 | the class is quiet exactly for 0, light orange for 1-2, orange for 3-5, and red for 6 or more |
| Heatmap.IntensityMonotone | frontend/src/components/admin/HotspotHeatmap.jsx:10-15 | a larger count is never shown with a cooler class |
| Heatmap.BlockValues | frontend/src/components/admin/HotspotHeatmap.jsx:6 | `hotspots.map(h => h._id.block)`: one block per row, in row order |
| Heatmap.Blocks | frontend/src/components/admin/HotspotHeatmap.jsx:6 | every block value once, and only values that occur |
| Heatmap.BlocksInFirstSeenOrder | frontend/src/components/admin/HotspotHeatmap.jsx:6 | the rows come in the order in which their block is first seen |
| Heatmap.Find | frontend/src/components/admin/HotspotHeatmap.jsx:41 | the index of the first row matching block and category, or none exactly when no row matches |
| Heatmap.CellCount | frontend/src/components/admin/HotspotHeatmap.jsx:41-42 | 0 when no row matches; otherwise the count of the first matching row, as `find` returns it |
| Heatmap.CellShowsTheMatchingRow | frontend/src/components/admin/HotspotHeatmap.jsx:41-42 | when one row matches, the cell shows its count |
| Heatmap.CellLabel | frontend/src/components/admin/HotspotHeatmap.jsx:49 | the text is empty exactly for 0; otherwise it is the canonical decimal numeral of the count: digits only, no leading zero, reading back as the count |
| Heatmap.MakeCell | frontend/src/components/admin/HotspotHeatmap.jsx:41-50 | a cell holds the found count, the intensity class of that count and the count's CellLabel text (its canonical numeral, or empty for 0); the text is empty exactly when the class is quiet |
| Heatmap.MakeRow | frontend/src/components/admin/HotspotHeatmap.jsx:38-53 | a row is captioned "Block " and the block, with one cell per category column, in column order |
| Heatmap.Grid | frontend/src/components/admin/HotspotHeatmap.jsx:37-54 | one row per distinct block, labelled "Block " and the block, with six cells, each MakeCell of its block and column (count, intensity class and text), in column order |
| Heatmap.GridCellsAgree | frontend/src/components/admin/HotspotHeatmap.jsx:41-49 | a cell is blank exactly when it is quiet, and a counted cell has a matching row |
| Heatmap.EveryBlockHasARow | frontend/src/components/admin/HotspotHeatmap.jsx:6 | every row's block has a grid row |
| AuthMiddleware.HasBearer | backend/middleware/authMiddleware.js:8-11 | the header is present and its first six characters are "Bearer", so "Bearer" alone passes |
| AuthMiddleware.BearerToken | backend/middleware/authMiddleware.js:14 | the token, when there is one, contains no space |
| AuthMiddleware.NoSpaceNoToken | backend/middleware/authMiddleware.js:14 | a header with no space yields no token |
| AuthMiddleware.TokenIsSecondField | backend/middleware/authMiddleware.js:14 | the token is the text between the first space and the next space or the end of the header |
| AuthMiddleware.BearerTokenOfWellFormedHeader | backend/middleware/authMiddleware.js:14 | "Bearer " followed by a space-free token yields that token |
| AuthMiddleware.Decode | backend/middleware/authMiddleware.js:17 | an absent or empty token is rejected; any other is decided by the signature check |
| AuthMiddleware.ProtectOutcome | backend/middleware/authMiddleware.js:5-30 | every answer is 401; "no token" exactly when the header is missing or does not start with "Bearer"; "token failed" exactly when the token does not verify or the lookup throws; next otherwise |
| AuthMiddleware.AttachedUser | backend/middleware/authMiddleware.js:20 | the attached user is the one found, or null when none is |
| AuthMiddleware.Protect | backend/middleware/authMiddleware.js:5-30 | the method's outcome is ProtectOutcome; on next, `req.user` is the attached user; on a reply, `req.user` is unchanged |
| AuthMiddleware.Request.constructor | backend/middleware/authMiddleware.js:8-10 | a request carries its header and no user |
| AuthMiddleware.BearerWithoutSpaceFails | backend/middleware/authMiddleware.js:8-14 | "Bearer" with no space passes the prefix test and then fails as "token failed" |
| AuthMiddleware.DoubleSpaceFails | backend/middleware/authMiddleware.js:14-17 | two spaces after "Bearer" yield the empty token, which fails |
| AuthMiddleware.ValidTokenPasses | backend/middleware/authMiddleware.js:14-22 | a verifying token for an existing user passes with that user |
| AuthMiddleware.AuthorizeRoles | backend/middleware/authMiddleware.js:33-43 | 401 "Not authorized" exactly without a user; 403 "Forbidden: Access denied" exactly for a user whose role is not listed; next exactly for a listed role |
| AuthMiddleware.MissingUserBeforeRoleCheck | backend/middleware/authMiddleware.js:35-40 | the user check comes before the role check |
| AuthMiddleware.GuardedRouteRuns | backend/middleware/authMiddleware.js:5-43 | behind both guards a route runs exactly when the header is a bearer header, the token verifies, the user exists and has a listed role |
| AuthMiddleware.DeletedUserStopsAtRoleGate | backend/middleware/authMiddleware.js:20-36 | a valid token for a deleted user passes `protect` with a null user and is stopped with 401 by the role gate |
| UserController.OrElse | backend/controllers/userController.js:24-25 | the fallback `value or old`: the old value is kept exactly when the new one is absent, empty or equal to it |
| UserController.EditedProfile | backend/controllers/userController.js:24-25 | name and e-mail are replaced only by non-empty values; role and password are untouched |
| UserController.EditedRole | backend/controllers/userController.js:57 | the role is replaced only by a non-empty value; everything else is untouched |
| UserController.EditedProfileIdempotent | backend/controllers/userController.js:24-25 | repeating the same edit changes nothing more |
| UserController.EmptyEditKeepsUser | backend/controllers/userController.js:24-25 | an empty body leaves the user unchanged |
| UserController.RoleChangesOnlyWhenGiven | backend/controllers/userController.js:57 | a role that changed is the non-empty role sent |
| UserController.UserDoc.Load | backend/controllers/userController.js:20 | a loaded document holds exactly the stored user |
| UserController.UserStore.UpdateMyProfile | backend/controllers/userController.js:18-33 | with no request user, 500; an unknown user, 404 "User not found" and no change; otherwise the edited profile is stored and returned with 200 "Profile updated", or a failed save gives 500 and no change |
| UserController.UserStore.UpdateUserRole | backend/controllers/userController.js:50-64 | an unknown user, 404 and no change; otherwise the edited role is stored and returned with 200 "Role updated", or a failed save gives 500 and no change |
| UserController.UserStore.DeleteUser | backend/controllers/userController.js:69-79 | an unknown user, 404 and no change; otherwise the user is removed and the reply is 200 "User deleted" |
| AuthSlice.Stored | frontend/src/store/authSlice.js:3-7 | a stored item reads as present exactly when it exists and is not empty |
| AuthSlice.Initial | frontend/src/store/authSlice.js:3-14 | the initial user and token are what storage holds under "user" and "token" |
| AuthSlice.AfterSetCredentials | frontend/src/store/authSlice.js:16-21 | user and token become the payload's, both storage items are written, other items are kept |
| AuthSlice.AfterLogout | frontend/src/store/authSlice.js:23-28 | user and token become null, both items are removed, other items are kept |
| AuthSlice.InitialMirrors | frontend/src/store/authSlice.js:3-14 | the initial state mirrors storage |
| AuthSlice.SetCredentialsSurvivesReload | frontend/src/store/authSlice.js:16-21 | after sign-in with non-empty values the state mirrors storage, and a reload restores the same user and token |
| AuthSlice.EmptyTokenLostOnReload | frontend/src/store/authSlice.js:7-21 | an empty token is kept in the state but reads back as null after a reload |
| AuthSlice.LogoutMirrors | frontend/src/store/authSlice.js:23-28 | after logout the state mirrors storage, and a reload stays signed out |
| AuthSlice.LogoutIdempotent | frontend/src/store/authSlice.js:23-28 | logging out twice is logging out once |
| AuthSlice.SignInThenOut | frontend/src/store/authSlice.js:16-28 | signing in and then out is the same as only signing out |
| AuthSlice.AuthState.FromStorage | frontend/src/store/authSlice.js:3-14 | the slice starts in the Initial state of the storage |
| AuthSlice.AuthState.SetCredentials | frontend/src/store/authSlice.js:16-21 | the new state and storage are AfterSetCredentials of the old |
| AuthSlice.AuthState.Logout | frontend/src/store/authSlice.js:23-28 | the new state and storage are AfterLogout of the old |
| Text.Split | backend/middleware/authMiddleware.js:14 | `split(" ")`: at least one field, no field holds the separator, and joining the fields gives the input back |
| Text.SplitJoin | backend/middleware/authMiddleware.js:14 | separator-free fields that are joined and split again come back unchanged |
| Text.Upper | backend/models/Complaint.js:18 | upper-casing keeps the length, maps each character, and leaves no lower-case letter |
| Text.Lower | backend/utils/aiTriage.js:34 | lower-casing keeps the length, maps each character, and leaves no upper-case letter |
| Text.JoinEnds | frontend/src/utils/formatters.js:28 | `join(" ")` puts the first part first, a separator right after it when there are more parts, and the last part last |
| Text.UpperIdempotent | backend/models/Complaint.js:18 | upper-casing twice is upper-casing once |
| Text.NatToStringRoundTrip | frontend/src/components/admin/HotspotHeatmap.jsx:49 | a printed numeral reads back as its number |

## Left out

- Database I/O is left out. Mongoose calls become operations on in-memory maps. A save that fails for a reason other than validation (a lost connection, a malformed id) is not modelled. `getAllComplaints`, `getMyComplaints`, `getMyProfile` and `getAllUsers` only read and stream data, so they are not modelled.
- The schema-level `timestamps` option (`createdAt`/`updatedAt` on a complaint) and the sub-document `_id` of a comment are left out. The comment's own `createdAt` is the `now` parameter.
- `backend/models/User.js` is not part of this model. The user schema's validation on `save` is the `accepts` parameter.
- UserController.UserStore.UpdateMyProfile, UserController.UserStore.UpdateUserRole: the reply carries the whole saved user. Whether its serialisation hides the password depends on the user schema, which is not part of this model.
- Text.Upper, Text.Lower: the case mapping covers ASCII letters only. JavaScript's full Unicode mapping is not modelled.
- Formatters: hours are exact rationals, not IEEE doubles. Binary rounding of `totalHours / 24` and `%`, and NaN and infinite inputs, are not modelled.
- Triage: TensorFlow, the coco-ssd model cache, Jimp's image reading and resizing, and the memory settings are all left out. The detector is a function from the packed pixels to class names, or to none when it throws. The bitmap is taken to be the 224 × 224 RGBA buffer that the resize produces: Triage.Analysis requires its length to be 4 · 224 · 224.
- AuthMiddleware: the JWT signature check is a parameter. `jwt.verify` rejecting an absent or empty token is modelled. Logging is left out. A token payload without an `id` is folded into the result of the `find` parameter.
- AuthSlice: the user object is held as its JSON text, so `JSON.stringify` and `JSON.parse` are the identity. A stored user that is not valid JSON, which makes `JSON.parse` throw at start-up, is not modelled. Payload values are strings: an `undefined` payload, which `localStorage` would store as the text "undefined", is not modelled.
- Heatmap and Analytics: only the data mapping is modelled. Loading spinners, error banners, tooltips, class names other than the four intensities, and the charts themselves are left out. Both components read their hot-spot rows from a `useGetHotspotsQuery` hook that the client API does not export, and no server route produces such rows (`getComplaintAnalytics` groups by category and by block only). The model takes the rows as given: each carries a block, a category and a non-negative integer count.
- Request bodies: every body field is taken to be a string or absent. A JSON number, boolean or object in the body is not modelled: `status: 0` would be falsy to `||`, and Mongoose would cast `title: 5` to "5".
- Logging is left out: the `console.error` calls in the complaint handlers and the `console.log` calls in the image-triage utility have no effect on a reply or on stored data.
- Each request is handled on its own. Two requests that interleave between `findById` and `save` (a lost update) are not modelled: every store method runs its load, edit and save as one step.

## Findings

| source | as written | input that shows it | evidently intended | confidence | as-written member | corrected member |
|---|---|---|---|---|---|---|
| backend/controllers/complaintController.js:15-21 | `Complaint.create` is given title, description, category, student and images, but not the `block` that the schema requires | any create request, even with every field filled in | the request's `block` is passed to the model, so a complete request is stored; the submit form (frontend/src/components/SubmitComplaint.jsx:21-25) must also send `block`, or the corrected handler still fails | not executed | ComplaintController.CreateAlwaysFails | ComplaintController.CreateWithBlockRecord |
| backend/controllers/complaintController.js:63 | the comment is pushed as `{ user, comment }`, and the sub-document schema names its text field `text`, so strict mode drops the text | body `{ comment: "fixed" }` stores a comment with no text | the comment is pushed as `{ user, text: comment }` | not executed | ComplaintController.UpdateDropsCommentText | ComplaintController.UpdateWithTextKeyKeepsComment |
| frontend/src/utils/formatters.js:13-14 | the remainder is rounded after the whole days are taken off, so it can round up to a full day | 23.5 gives "24 Hours"; 47.5 gives "1 Day 24 Hours" | the total is rounded first and then split, giving "1 Day" and "2 Days" | not executed | Formatters.AsWrittenShowsFullDayOfHours | Formatters.CorrectedHoursBelowADay |
