# Video sensitivity app: a Dafny model of the backend core

This project models the backend of a multi-tenant video service. A user signs in and gets a JWT. With it
the user uploads a video, which is stored under a generated file name and recorded in the database. The
user can list the videos of their tenant with statistics, fetch one with a short-lived stream token,
stream it with HTTP range requests, delete it (editors and admins only) and trigger a placeholder
"sensitivity analysis", which marks the video processed and announces the result on a socket.

The model has one module per source file:

- `Auth` and `RoleGate`: the authentication middleware (token selection, verification, user-id lookup,
  expiry) and the role allow-list middleware.
- `Upload`: the multer file filter (MIME type and POSIX `path.extname`), the stored file name, the limits
  and the upload error handler.
- `StreamToken`: generating, verifying, validating and refreshing stream tokens.
- `StreamController`: `streamVideo`, including `Range` header parsing with JavaScript's `parseInt`,
  Node's rule for read-stream bounds, and the 200/206/404/500 replies with their headers.
- `VideoController`: the upload gate and the record an upload creates, the ffprobe defaulting, the
  thumbnail time and path, the tenant-scoped list query and its statistics, the fetch, delete and analyse
  ladders, and the duration and file-size helpers.
- `VideoProcessor`: the placeholder analysis, with a video document as a class whose fields are updated in
  place and a trace of the saves and socket events.
- `VideoModel` and `TenantModel`: the two schemas. The tenant schema covers casting (trim, defaults),
  validators with their messages, the unique index on `name`, and the pre-save hook, a method on a class.

Supporting modules:

- `Text`: the JavaScript string operations the handlers use (`trim`, `toLowerCase`, `split`, `replace`,
  `join`, `String(n)`, `parseInt(s, 10)`).
- `Jwt`: the claims a token carries. `jwt.sign`, `jwt.verify` and `jwt.decode` are uninterpreted function
  parameters.
- `UserModel`: the role enum of the user schema.
- `Wrappers` and `Http`: `Option`, `Result` and the outcome of a middleware, which either passes on
  (`next()`) or responds with a status and a message.

The database is a value:

- `findById` is an `Option` of a record;
- `find` is a filter over a sequence;
- the delete handler works on a map from id to record.

The uploads directory is a map from stored name to file size. The clock, `crypto.randomBytes`, ffprobe's
answer, the id the database assigns and the JWT library are all parameters.

Points where the code does something other than its comments or surrounding design suggest (the model
follows the code):

- The 206 reply does not clamp the range to the file: when the requested end lies past the last byte,
  `Content-Length` announces more bytes than the stream delivers (`ContentLengthHonestIffInside`).
- A suffix range `bytes=-N`, an inverted range, and `bytes=0-` on an empty file all make
  `fs.createReadStream` throw before any header is written, so they are answered 500, not 416.
- The thumbnail path is assigned to the document and saved, but `thumbnail` is not a schema path, so the
  stored record does not change (`AttachThumbnail`).
- `Video.create` is handed `duration`, `size`, `width`, `userId` and more, which the schema does not
  declare and strict mode drops. So `video.size` and `video.duration` are always missing and the handlers
  print "N/A" instead of calling the two formatting helpers.
- The schema declares neither `analysisDone` nor `analysisRequested`, so a same-tenant video is admitted
  to analysis every time (`SchemaRecordsAlwaysAdmitted`). No record carries `sensitivity.status`, so the
  safe, sensitive and pending counts are 0 (`SchemaRecordsHaveNoVerdictCounts`).
- The tenant check compares `String(...)` of both ids, so a missing id ("undefined") and a `null` id
  ("null") differ. Tenant ids are modelled with both absent forms (`Text.JsId`). A caller whose token
  carries no tenant passes the check only on records whose tenant is missing as well (`MissingTenantsMatch`).
  The database filter, in contrast, matches `null` and missing alike. So such a caller sees a record stored
  with a `null` tenant in the list, but fetching it is refused with 403 (`NullTenantHiddenFromClaimlessCaller`).
- `generateStreamToken` writes a falsy tenant as `null` in the payload, and the video handlers call it
  without a tenant. Every stream token they issue therefore carries `tenantId: null`.
- A record without `storedName` makes `path.join` throw. That is 500 in both the stream and the delete
  handler.
- The debug log of `auth.js` renders `exp` with `new Date(exp * 1000).toISOString()`. A token whose `exp`
  lies outside the range of a JavaScript `Date` therefore throws, and the request is answered 401
  "Authentication failed".
- The routes in `backend/routes/videoRoutes.js` mount `multer({ dest })` rather than the middleware in
  `upload.js`, and do not mount `triggerAnalyze` or the stream-token middleware. Those are modelled as
  written in their own files.
- `refreshToken` reads the old token with `jwt.decode`, which checks neither the signature nor the expiry
  nor the token type. Any token that decodes to a video and a user id is exchanged for a fresh stream token
  (`RefreshToken` is stated in terms of `decode` alone).
- The comment on line 88 of the video controller reads "use 1s or half duration". The code always gives 1
  for a duration that is not negative, and the model follows the code.

## Model

| member | source | states |
|---|---|---|
| UserModel.ParseRole | backend/models/User.js:7-11 | exactly "viewer", "editor" and "admin" are accepted, each as the role of that name |
| UserModel.ParseRoleOfName | backend/models/User.js:9 | every role's stored name parses back to that role |
| Auth.HeaderToken | backend/middlewares/auth.js:8-10 | for a truthy header starting "Bearer ", the token is the second space-separated field, so it holds no space; otherwise there is none |
| Auth.SelectToken | backend/middlewares/auth.js:8-15 | a non-empty header token wins; otherwise a truthy `?token=` is used; otherwise there is no token; a chosen token is never empty |
| Auth.BearerTokenWins | backend/middlewares/auth.js:8-15 | "Bearer " followed by a token without spaces selects exactly that token, whatever the query says |
| Auth.FirstTruthy | backend/middlewares/auth.js:39 | the `a \|\| b \|\| c \|\| d` choice: none iff every claim is falsy; otherwise the first truthy claim |
| Auth.ErrorMessage | backend/middlewares/auth.js:73-95 | "Token has expired" iff the error is TokenExpiredError, "Invalid token" iff JsonWebTokenError, "Authentication failed" otherwise |
| Auth.Authenticate | backend/middlewares/auth.js:3-96 | every refusal is 401; no token gives the no-token message; it passes iff a token is selected, verifies, has an `exp` a Date can render, names a user id and is not expired; the attached user has the first truthy id, the role or "viewer", and the email and tenant of the claims; each refusal carries its own message: the library error's message, "Authentication failed" for an unrenderable `exp`, the missing-user-id message, or "Token has expired" |
| Auth.AuthenticatedUserHasRole | backend/middlewares/auth.js:58-63 | an authenticated user always carries a non-empty role |
| Auth.ExpiryBoundary | backend/middlewares/auth.js:49-55 | with a truthy `exp`, the token is accepted exactly while `now < exp * 1000`, so expiry is inclusive at that millisecond |
| RoleGate.Authorize | backend/middlewares/role.js:5-35 | no user gives 401; a falsy role gives 403 "User role not defined"; a role outside the list gives 403 naming the list; it passes iff the role is truthy and listed |
| RoleGate.DefaultDeniesEveryone | backend/middlewares/role.js:5-31 | the factory without an argument lets nobody through |
| RoleGate.AfterAuthentication | backend/middlewares/role.js:8-31 | behind the authentication middleware, the gate passes iff the user's role is in the list and otherwise answers only the 403 access-denied reply |
| StreamToken.StreamPayload | backend/utils/streamToken.js:21-27 | the payload names the video and user, the tenant when truthy and `null` otherwise, type "stream" and `iat` in seconds |
| StreamToken.GenerateStreamToken | backend/utils/streamToken.js:15-37 | it fails with the required-ids message iff either id is falsy; otherwise it signs the stream payload |
| StreamToken.QuickPayload | backend/utils/streamToken.js:95-105 | a quick token's payload is of type "quick_stream" and names the video and user |
| StreamToken.VerifyStreamToken | backend/utils/streamToken.js:44-87 | data comes back iff the token is truthy, verifies, has type "stream" and names a video and a user; it carries those ids, the tenant, and `exp` in milliseconds when truthy |
| StreamToken.QuickTokenRejected | backend/utils/streamToken.js:58-61 | a quick token is never accepted as a stream token |
| StreamToken.GeneratedTokenVerifies | backend/utils/streamToken.js:15-75 | round trip: a generated token that verifies gives back its video, user and truthy tenant, or `null` |
| StreamToken.ValidateStreamToken | backend/utils/streamToken.js:110-132 | no token gives 401; an invalid token gives 403; it passes iff the token verifies, with exactly the verified data |
| StreamToken.NeedsRefresh | backend/utils/streamToken.js:139-150 | no refresh is needed iff the token decodes with a truthy `exp` at least five minutes after `now` |
| StreamToken.RefreshToken | backend/utils/streamToken.js:157-173 | a new token is produced iff the old one decodes to a video and a user; it is the stream token for those ids and the old tenant |
| StreamToken.RefreshKeepsIdentity | backend/utils/streamToken.js:157-168 | a refreshed token verifies to the same video, user and tenant as the old one |
| Upload.Extname | backend/middlewares/upload.js:43 | `path.extname` is empty or one leading dot followed by no dot, and never holds a slash |
| Upload.ExtnameOfNamed | backend/middlewares/upload.js:43 | a plain base name followed by an extension-shaped suffix has that suffix as its extension |
| Upload.FileFilter | backend/middlewares/upload.js:32-53 | accepted iff the MIME type and the lower-cased extension are both allowed; a rejection carries the allowed-types message |
| Upload.FilterIgnoresExtensionCase | backend/middlewares/upload.js:43-46 | the filter's decision does not depend on the case of the extension |
| Upload.AnyCaseAllowedExtensionAccepted | backend/middlewares/upload.js:32-53 | a plain name with an allowed extension in any letter case and an allowed MIME type is accepted |
| Upload.UniqueSuffix | backend/middlewares/upload.js:25 | the time-and-random prefix of a stored name is non-empty and holds no dot or slash |
| Upload.StoredFilenameExtension | backend/middlewares/upload.js:22-28 | the stored name's extension is the original's extension, lower-cased |
| Upload.AcceptedFileStoredWithAllowedExtension | backend/middlewares/upload.js:22-53 | every file the filter accepts is stored under an allowed extension |
| Upload.HandleUploadError | backend/middlewares/upload.js:66-91 | it passes iff there is no error; every error is 400 with the size message, the count message, "Upload error: " plus the message, or the plain message |
| Upload.RejectedTypeReported | backend/middlewares/upload.js:84-89 | a filter rejection reaches the client as 400 with the allowed-types message |
| VideoModel.ParseStatus | backend/models/Video.js:8-12 | exactly the three enum strings are accepted, each as the status of that name |
| VideoModel.ParseStatusOfName | backend/models/Video.js:10 | every status's stored name parses back to that status |
| VideoModel.CreateVideo | backend/models/Video.js:3-22 | creation fails with mongoose's enum message iff a given status is outside the enum; otherwise it keeps the schema paths, defaults the status to "uploaded" and the flags to false/false/0, and drops everything else |
| VideoModel.NewVideoDefaults | backend/models/Video.js:8-19 | a video created without a status is "uploaded", unflagged, with confidence 0 |
| VideoModel.CreateWithStatusName | backend/models/Video.js:8-12 | creating with a status's own name stores that status |
| StreamController.SplitRange | backend/controllers/streamController.js:21 | the two fields are the text up to the first '-' and the text between the first and second '-' after removing the first "bytes="; the second is missing iff there is no '-' |
| StreamController.ParseRange | backend/controllers/streamController.js:21-23 | start is `parseInt` of the first field and never negative; the end is `parseInt` of a truthy second field, and otherwise the last byte of the file |
| StreamController.ParseClosedRange | backend/controllers/streamController.js:21-23 | "bytes=S-E" reads back as start S and end E |
| StreamController.ParseOpenRange | backend/controllers/streamController.js:21-23 | "bytes=S-" reads back as start S and end `fileSize - 1` |
| StreamController.ChunkSize | backend/controllers/streamController.js:25 | a range with its start at most its end holds at least one byte |
| StreamController.PartialHeaderValues | backend/controllers/streamController.js:28-33 | a partial reply carries Content-Range "bytes S-E/size", Accept-Ranges "bytes", Content-Length `E - S + 1` and Content-Type video/mp4 |
| StreamController.FullHeaderValues | backend/controllers/streamController.js:37-40 | a full reply carries the file size as Content-Length and video/mp4 |
| StreamController.ServeFile | backend/controllers/streamController.js:16-43 | it streams iff there is no truthy range or Node accepts the parsed bounds, and answers 500 otherwise; 206 iff a range was given, with exactly the parsed bounds and their headers; 200 with the whole file and its size otherwise |
| StreamController.StreamVideo | backend/controllers/streamController.js:5-48 | no record gives 404; no stored name gives 500; a missing file gives 404 "Video file not found"; a present file is served as ServeFile says, and only a present file is streamed |
| StreamController.ClosedRangeReply | backend/controllers/streamController.js:20-35 | a well-formed closed range is answered 206 with exactly that byte range |
| StreamController.OpenRangeReply | backend/controllers/streamController.js:20-35 | "bytes=S-" with S inside the file is answered 206 streaming S to the last byte (the headers follow from ServeFile's contract) |
| StreamController.InvertedRangeFails | backend/controllers/streamController.js:20-47 | a range whose start exceeds its end is answered 500 |
| StreamController.EmptyFileOpenRangeFails | backend/controllers/streamController.js:23-47 | "bytes=0-" on an empty file asks for end -1 and is answered 500 |
| StreamController.SuffixRangeFails | backend/controllers/streamController.js:21-47 | a suffix range "bytes=-N" parses to NaN and is answered 500 |
| StreamController.Delivered | backend/controllers/streamController.js:26 | a read stream over a range delivers at most the file, and bytes only when the start lies in the file |
| StreamController.ContentLengthHonestIffInside | backend/controllers/streamController.js:25-31 | the announced Content-Length equals the bytes delivered iff the range ends inside the file |
| VideoProcessor.AsSensitivity | backend/services/videoProcessor.js:13 | the stored sensitivity keeps the flags and the confidence of the result and drops the rest |
| VideoProcessor.AfterProcessing | backend/services/videoProcessor.js:13-14 | after a run the record is "processed" with the default verdict, and every other path is unchanged |
| VideoProcessor.AfterProcessingIdempotent | backend/services/videoProcessor.js:6-14 | a second run changes nothing more |
| VideoProcessor.VerdictIgnoresInput | backend/services/videoProcessor.js:6-14 | the verdict does not depend on the video |
| VideoProcessor.Trace.Emit | backend/services/videoProcessor.js:17-20 | an emit appends exactly one event to the trace |
| VideoProcessor.VideoDocument.Save | backend/services/videoProcessor.js:15 | a save appends the document's schema paths to the trace |
| VideoProcessor.ProcessVideo | backend/services/videoProcessor.js:3-24 | the document becomes AfterProcessing of itself, the thumbnail is untouched, and the trace gains one save of the new record and then one "analysis-complete" event with the id and the placeholder verdict |
| VideoProcessor.SavedMatchesEmitted | backend/services/videoProcessor.js:13-20 | the saved verdict is the emitted one as the schema stores it |
| VideoController.SameTenant | backend/controllers/videoController.js:229 | a record and a user with the same tenant id, a string, `null` or missing, always pass the check |
| VideoController.SameTenantOfPresent | backend/controllers/videoController.js:229 | when both tenant ids are present, the check passes iff they are equal |
| VideoController.MissingTenantsMatch | backend/controllers/videoController.js:229 | when neither id is a string, the check passes iff both are `null` or both are missing |
| VideoController.SameTenantCases | backend/controllers/videoController.js:229 | the check passes iff the ids are equal, or one is absent and the other is the string "null" or "undefined" that the absence prints as |
| VideoController.UploadGate | backend/controllers/videoController.js:11-26 | no file gives 400 "No file uploaded"; over 200 MiB gives 400 with the size message; it passes iff a file of at most 200 MiB is present |
| VideoController.UploadSizeBoundary | backend/controllers/videoController.js:19 | the limit is inclusive at exactly 200 * 1024 * 1024 bytes |
| VideoController.FirstVideoStream | backend/controllers/videoController.js:46 | `find` gives none iff no stream is a video stream, and otherwise the first video stream |
| VideoController.FirstVideoStreamAfter | backend/controllers/videoController.js:46 | streams before the first video stream that are not video do not change what `find` returns |
| VideoController.ProbeMetadata | backend/controllers/videoController.js:32-58 | a failed probe gives duration 0 and nothing else; otherwise duration is `format.duration \|\| 0`, the bit rate comes from the format, and width, height and codec come from the first video stream or are missing |
| VideoController.ProbeSkipsNonVideoStreams | backend/controllers/videoController.js:45-54 | audio streams ahead of the picture do not change the metadata |
| VideoController.ThumbnailTimestamp | backend/controllers/videoController.js:88 | the thumbnail time never exceeds 1 second, whatever the duration |
| VideoController.ThumbnailAlwaysAtOneSecond | backend/controllers/videoController.js:88 | the thumbnail time is 1 iff the duration is not negative |
| VideoController.AttachThumbnail | backend/controllers/videoController.js:94-97 | the document gets the thumbnail path, but the saved record is the record as it was |
| VideoController.UploadVideo | backend/controllers/videoController.js:9-142 | gate refusals are 400; it is accepted iff the gate passes and both ids are non-empty, and is 500 otherwise; the record keeps the names and the user's tenant, is "uploaded" with the default verdict, and the token is the stream token for the new id and the user |
| VideoController.UploadedRecordIgnoresProbe | backend/controllers/videoController.js:60-75 | the stored record and its token do not depend on what ffprobe reported |
| VideoController.QueryFor | backend/controllers/videoController.js:150-159 | the query always names the caller's tenant (`null` and missing both as a null filter), and names status or `sensitivity.status` iff that filter is truthy, with its value |
| VideoController.BuildQuery | backend/controllers/videoController.js:150-159 | the step-by-step construction yields exactly that query |
| VideoController.FindVideos | backend/controllers/videoController.js:162 | the result holds exactly the stored records that match the query, in store order (a subsequence of the store) |
| VideoController.ListIsTenantScoped | backend/controllers/videoController.js:150-164 | every listed video belongs to the caller's tenant and passes each given filter; without filters, every video of the tenant is listed; a caller without a tenant lists the records without one, `null` and missing alike |
| VideoController.CountStatus | backend/controllers/videoController.js:191-193 | a status count is at most the total, and 0 iff no video has that status |
| VideoController.CountSensitivity | backend/controllers/videoController.js:194-196 | a verdict count is at most the total, and 0 iff no video carries that verdict |
| VideoController.ComputeStats | backend/controllers/videoController.js:189-197 | the total is the number of listed videos and no status or verdict count exceeds it |
| VideoController.StatusCountsPartition | backend/controllers/videoController.js:189-193 | uploaded + processing + processed equals the total |
| VideoController.SensitivityCountsBounded | backend/controllers/videoController.js:194-196 | safe + sensitive + pending is at most the total |
| VideoController.SchemaRecordsHaveNoVerdictCounts | backend/controllers/videoController.js:194-196 | records as the schema builds them give 0 safe, sensitive and pending |
| VideoController.GetVideo | backend/controllers/videoController.js:217-263 | no record gives 404; another tenant gives 403; it passes iff the record is the caller's tenant's and both ids are non-empty, with the record and the caller's stream token |
| VideoController.NullTenantHiddenFromClaimlessCaller | backend/controllers/videoController.js:229-234 | a record with a `null` tenant matches the list query of a caller whose token has no tenant claim, but fetching it answers 403 |
| VideoController.DeleteVideo | backend/controllers/videoController.js:266-322 | 404, tenant 403 and role 403 in that order; 200 iff the record exists, is the caller's tenant's, the role is editor or admin, and a stored name is present; only then is exactly that record removed, and the store is otherwise unchanged |
| VideoController.ViewersCannotDelete | backend/controllers/videoController.js:286-291 | a viewer never removes anything |
| VideoController.DeleteIsTenantScoped | backend/controllers/videoController.js:278-283 | a caller from another tenant never removes a record |
| VideoController.AnalyzeAdmission | backend/controllers/videoController.js:327-358 | 404, tenant 403, "already analyzed" 400 and "already in progress" 400 in that order; it admits iff the record is found, is the caller's tenant's and neither flag is truthy, and then carries the record unchanged |
| VideoController.SchemaRecordsAlwaysAdmitted | backend/controllers/videoController.js:345-358 | a record without the two flags is admitted iff it is the caller's tenant's |
| VideoController.TriggerAnalyze | backend/controllers/videoController.js:325-379 | a refused request replies with the ladder's status and message and changes nothing; an admitted one runs the processor on the document and replies 200 "Analysis started in background" |
| VideoController.DurationParts | backend/controllers/videoController.js:391-393 | for a duration that is not negative, minutes and seconds are below 60 and h:m:s is the whole number of seconds in it |
| VideoController.DurationPartsOfWhole | backend/controllers/videoController.js:391-393 | a whole duration written as h, m, s with m and s below 60 splits back into h, m, s |
| VideoController.FormatDurationOfWhole | backend/controllers/videoController.js:390-402 | the text is "Hh Mm Ss", "Mm Ss" or "Ss", chosen by the leading non-zero part |
| VideoController.FormatDuration | backend/controllers/videoController.js:390-402 | the text always ends in the seconds unit "s" |
| VideoController.FormatDurationIgnoresFraction | backend/controllers/videoController.js:391-393 | a fractional duration is written as its whole number of seconds |
| VideoController.FormatDurationShape | backend/controllers/videoController.js:390-402 | for every duration that is not negative, fractional or not, the text is "Hh Mm Ss", "Mm Ss" or "Ss" of the whole seconds in it, chosen by the leading non-zero part |
| VideoController.UnitIndex | backend/controllers/videoController.js:386 | the unit index of a positive size is the power of 1024 it reaches and does not reach the next of |
| VideoController.UnitIndexUnique | backend/controllers/videoController.js:386 | only one index satisfies those bounds |
| VideoController.FileSizeUnit | backend/controllers/videoController.js:382-388 | the unit is "undefined" iff the size is at least 1024^4 bytes, and "Bytes" below 1024 |
| VideoController.FileSizeUnitRange | backend/controllers/videoController.js:385-387 | each of Bytes, KB, MB and GB covers the sizes from its power of 1024 up to the next |
| TenantModel.ParseTenantStatus | backend/models/Tenant.js:40-44 | exactly "active", "suspended" and "deleted" are accepted |
| TenantModel.TrimOption | backend/models/Tenant.js:7 | the trim setter keeps a missing value missing and trims a present one, which becomes no longer and has no white space at either end |
| TenantModel.Cast | backend/models/Tenant.js:3-55 | names and descriptions are trimmed, and every missing path takes its schema default: 200 MiB, the four types, enabled, no auto analysis, 30 days, "active", now |
| TenantModel.NameError | backend/models/Tenant.js:4-9 | the name is valid iff present, non-empty and at most 100 characters |
| TenantModel.MaxVideoSizeError | backend/models/Tenant.js:16-20 | the maximum video size is valid iff at least 10 MiB |
| TenantModel.RetentionError | backend/models/Tenant.js:33-38 | the retention is valid iff between 1 and 365 days |
| TenantModel.ValidationErrors | backend/models/Tenant.js:3-44 | a path is reported iff its validator fails; an unknown status gets mongoose's enum message |
| TenantModel.Validate | backend/models/Tenant.js:3-55 | a tenant results iff no validator fails, with a trimmed non-empty name of at most 100 characters, a description of at most 500, settings within their bounds, and the given or default status; the description and both timestamps are the cast ones; a failure carries the message built from the validators' errors |
| TenantModel.FailingPaths | backend/models/Tenant.js:3-44 | exactly the listed paths that have an error, in the order they are listed |
| TenantModel.FailingEntries | backend/models/Tenant.js:3-44 | one "path: message" entry per failing path, in path order, with that path's own message |
| TenantModel.ValidationMessage | backend/models/Tenant.js:3-44 | the message starts "Tenant validation failed: " and is only that prefix when no path fails |
| TenantModel.ValidationMessageListsFailures | backend/models/Tenant.js:3-44 | the message lists the entries of exactly the paths that failed, in schema order (see Left out) |
| TenantModel.DefaultsApply | backend/models/Tenant.js:15-52 | a tenant given only a valid name takes every default and is valid |
| TenantModel.BlankNameRequired | backend/models/Tenant.js:4-9 | a name that trims to nothing is reported as required |
| TenantModel.PaddedNameStoredTrimmed | backend/models/Tenant.js:4-9 | spaces around the name are not stored |
| TenantModel.InsertTenant | backend/models/Tenant.js:64 | an insert succeeds iff no tenant has that name, and then appends it |
| TenantModel.InsertKeepsNamesUnique | backend/models/Tenant.js:64 | the unique index keeps tenant names pairwise distinct |
| TenantModel.TenantDocument.PreSave | backend/models/Tenant.js:58-61 | the hook sets `updatedAt` to now and changes nothing else |
| Text.ParseInt | backend/controllers/streamController.js:22-23 | a number read from text without a minus sign is never negative |
| Text.ParseIntOfNatToString | backend/controllers/streamController.js:22-23 | `parseInt` of a decimal numeral followed by a non-digit gives back the number |
| Text.Trim | backend/models/Tenant.js:7 | the trimmed text is the infix of the input after its leading white space, has no white space at either end, and all it drops is white space |
| Text.TrimOfPadded | backend/models/Tenant.js:7 | trimming removes a space on each side of a string that has no white space at its ends |

## Left out

- File-system, ffmpeg, socket and database I/O are left out. Their answers (file sizes, ffprobe's report, the
  id of a new record) are parameters, and the store is a value. Deleting files and thumbnails from disk is
  not modelled.
- The JWT signature and expiry logic is left out. `jwt.sign`, `jwt.verify` and `jwt.decode` are
  uninterpreted. The lemmas about stream tokens assume only that verification gives back the signed claims.
- The two-second `setTimeout` in `processVideo` is left out. The analysis runs when it is called.
- Concurrency between the background analysis or thumbnail and other requests is left out.
- `fs.unlinkSync` of an oversize upload and the cleanup in the upload handler's catch are left out. Only
  their replies are modelled.
- Sorting the list by `createdAt` and the per-video decoration (`toLocaleString` dates and a token per
  video) are left out. The list is in store order (`FindVideos`).
- Mongoose details are left out:
  - A `find` filter whose tenant is `undefined` follows mongoose's own rules for undefined values. The model
    treats it as a `null` filter, which matches records whose tenant is `null` or missing.
  - Casting the tenant id to an ObjectId (a `CastError`, answered 500) is left out.
  - The `timestamps` option and the `createdAt`/`updatedAt` of videos are left out.
  - The `videoCount`/`userCount` virtuals and `getStats` (aggregate queries) are left out.
  - The other indexes on `status` and `createdAt` do not change behaviour and are left out.
- TenantModel.InsertTenant: the duplicate-key message is a fixed text, not MongoDB's full E11000 message.
  Name comparison is exact string equality.
- Multer's own enforcement of the size and count limits is left out. Only the constants and the messages
  the error handler gives for them are modelled.
- `auth.js` reads the user id with `toString()`. Numeric id claims are left out: claims are strings.
- The `error` field added in development mode (`NODE_ENV`) and all console logging are left out.
- TenantModel.ValidationMessageListsFailures: the model lists failing paths in schema order. Mongoose lists
  them in its own validation order, which is not modelled.
- Text.Lower: `toLowerCase` is modelled for ASCII letters only. Unicode case mapping is left out.
- Text.ParseInt: values above 2^53 are exact integers here. JavaScript would round them.
- String lengths count code points, where JavaScript counts UTF-16 units.
- VideoController.FileSizeUnit: only the unit word is modelled. The number rendered with `toFixed(2)` and
  `parseFloat` is floating point and is left out. `Math.log` is taken to give the exact integer index.
- VideoController.FormatDuration: its shape is proved for durations that are not negative, fractional ones
  included. Those are the only durations ffprobe reports. Durations are reals, not IEEE doubles.
- The authentication controller, the report controller, the route wiring, the user-creation script and the
  frontend are not part of this model.
