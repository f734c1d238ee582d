# GCS-Upload client core in Dafny

This project models the client-side core of GCS-Upload. GCS-Upload is an Angular app that signs a user in and uploads files to a Google Cloud Storage bucket through a backend. Five parts are modelled:

- **Authentication service** (`auth_service.dfy`, module `Auth`). It keeps a session in browser storage under the keys `auth_token` and `current_user`, plus the current-user value. It also holds the handlers for login, demo login, logout, refresh and start-up. It is modelled as a class `AuthService` whose fields are the storage map and the current user. Each method is tied to a pure function on a `Session` value, and the properties are proved about those functions.
- **Token reading** (`token.dfy`, module `Token`). Expiry is read from a token's payload segment, and the demo token is generated here. `split('.')` is modelled concretely (`strings.dfy`). `atob`, `btoa`, `JSON.parse` and `JSON.stringify` are abstracted as a `Codec` (`encoding.dfy`). The codec's guarantees are stated in the ghost predicate `ValidCodec`. Decoding undoes encoding for encodable claims, and their base64 text never holds '.'. Claims are encodable when their strings are Latin-1, because `btoa` throws above U+00FF, and their `exp` is a safe integer. A user profile survives `JSON.stringify` and `JSON.parse`, and a serialised object is never empty. The demo-token lemmas assume a clock within the ECMAScript time range (`MAX_TIME_MS`). `Date.now()` never exceeds it, which keeps the demo claims encodable.
- **Request interceptor** (`auth_interceptor.dfy`, module `Interceptor`). It attaches the bearer header and picks the side effects of a 401 or 403 response. The error itself is passed on unchanged.
- **Navigation guards** (`auth_guard.dfy`, module `Guards`). These are the class and function forms of the auth guard and the login guard. Each is a decision on `isLoggedIn()` and the requested URL.
- **Upload component** (`file_upload.dfy`, module `Upload`). It turns a file selection into a validated selection. It uploads the selection sequentially, stopping at the first failure. It keeps a most-recent-first upload history, tracks transfer progress, removes files from the selection and formats file sizes. It is modelled as a class `FileUpload` with the component's fields.

The clock is a parameter `nowMs` (milliseconds, as `Date.now()` gives). Each network call is a parameter as well: an `HttpOutcome` for an auth call, and an `Attempt` for a file transfer (its start time, its progress events, and whether it completed). In these details the model follows the code:

- A token whose `exp` equals the current second is not yet expired, because the code's comparison is strict.
- A payload without `exp` never expires, because `undefined < n` is false. An `exp` of `null` or `false` compares as 0, so it has expired.
- The login guard redirects a logged-in user to `/dashboard`.
- A failed batch keeps the whole selection. That includes the files already uploaded, so a retry uploads them again.
- A history record is never `pending`. Files after the failure simply get no record.
- The size unit is not clamped: from 1 TiB on, the label is `undefined`.
- A stored user that parses to a falsy JSON value such as `null` does not throw, so start-up keeps the stored session. The client is then logged in with no current user.

## Model

| member | source | states |
|---|---|---|
| Strings.Split | src/app/services/auth.service.ts:199 | `split(sep)` yields at least one part, no part contains the separator, and joining the parts gives the input back |
| Strings.SplitJoin | src/app/services/auth.service.ts:199 | splitting a join of separator-free parts recovers exactly those parts (the round trip the token layout relies on) |
| Strings.ContainsIff | src/app/interceptors/auth.interceptor.ts:20 | the executable `includes` is true exactly when the substring occurs at some index (both directions) |
| Strings.DecimalString | src/app/services/auth.service.ts:233 | the rendered status code is a non-empty digit string with no leading zero unless it is 0 |
| Strings.DecimalRoundTrip | src/app/services/auth.service.ts:233 | reading the rendered digits back gives the status code |
| Token.TokenClaims | src/app/services/auth.service.ts:199 | no claims without a '.'; otherwise the codec's reading of the second `split('.')` segment |
| Token.IsTokenExpired | src/app/services/auth.service.ts:195-206 | an unreadable payload is expired; a readable one is expired iff its `exp` is present and below the current second |
| Token.GenerateMockToken | src/app/services/auth.service.ts:211-220 | the mock token is non-empty and its header segment is followed by '.', so its payload segment exists |
| Token.PayloadSegment | src/app/services/auth.service.ts:199 | a second segment exists exactly when the token contains '.', and it contains no '.' |
| Token.AssembledClaims | src/app/services/auth.service.ts:211-219 | the payload of a `header.payload.signature` token decodes to the claims it was built from |
| Token.AssembledExpiry | src/app/services/auth.service.ts:195-206 | a well-formed token is expired exactly when its `exp` is present and below the current second |
| Token.NoSegmentIsExpired | src/app/services/auth.service.ts:202-205 | a token without a payload segment is treated as expired (fail closed) |
| Token.ExpiryIsStrict | src/app/services/auth.service.ts:201 | a token whose `exp` equals the current second is not expired |
| Token.ExpiryIsFinal | src/app/services/auth.service.ts:200-201 | an expired token stays expired at every later instant |
| Token.MockClaims | src/app/services/auth.service.ts:213-217 | the mock payload's `exp` is the current second plus 24 hours |
| Token.MockTokenClaims | src/app/services/auth.service.ts:211-220 | the generated token is non-empty and its payload reads back as subject '1', user 'admin', `exp` one day ahead |
| Token.MockTokenLifetime | src/app/services/auth.service.ts:211-220 | the demo token is unexpired exactly while the current second is at most issue second + 86400 |
| Auth.FallbackMessage | src/app/services/auth.service.ts:233 | the fallback text starts with `Error Code: ` followed by the status digits, and ends with the error's own message |
| Auth.ErrorMessage | src/app/services/auth.service.ts:225-234 | a client event's message wins, then a non-empty server message; the result is empty only for an empty client event |
| Auth.FallbackReportsStatus | src/app/services/auth.service.ts:233 | without a usable message the error text is `Error Code: `, then exactly the status digits, then a newline, `Message: ` and the error's own message |
| Auth.ErrorMessageEmpty | src/app/services/auth.service.ts:225-234 | handleError's message is empty only for a client event with an empty message (an empty server message falls back) |
| Auth.WithSession | src/app/services/auth.service.ts:157-161 | setSession stores the token and the serialised user, keeps every other entry, and publishes the user |
| Auth.Cleared | src/app/services/auth.service.ts:166-170 | clearSession removes exactly the two keys, keeps every other entry, and publishes null |
| Auth.GetItem | src/app/services/auth.service.ts:135-137 | `getItem` is present exactly when the key is stored, with the stored value |
| Auth.LoggedIn | src/app/services/auth.service.ts:117-123 | logged in implies a non-empty stored token containing '.' that has not expired |
| Auth.LoggedInMeaning | src/app/services/auth.service.ts:117-123 | logged in iff a token is stored, has a decodable payload, and its `exp` is absent or not before the current second |
| Auth.StoredSessionUsable | src/app/services/auth.service.ts:179 | usable stored entries imply a logged-in session with a stored user entry |
| Auth.LoadedAuth | src/app/services/auth.service.ts:175-190 | start-up publishes a user iff both entries are truthy, the token is unexpired and the stored user parses to a profile; storage is kept whenever the entries are usable and the parse does not throw (a falsy parse included), and every other path is exactly a clear |
| Auth.LoadedAuthConsistent | src/app/services/auth.service.ts:175-190 | right after start-up the client is logged in iff the entries were usable and the stored user parsed; unless it parsed to a falsy value, logged in and having a current user coincide |
| Auth.FalsyUserStaysLoggedIn | src/app/services/auth.service.ts:179-182 | a stored user that parses to `null`, `false`, `0` or `""` is adopted: storage is kept and the client is logged in with no current user |
| Auth.LoadedAuthIdempotent | src/app/services/auth.service.ts:175-190 | loading stored auth twice at the same instant equals loading it once |
| Auth.SessionRoundTrip | src/app/services/auth.service.ts:175-190 | a session saved with an unexpired token is restored exactly, token and user, by the next start-up |
| Auth.ClearedIdempotent | src/app/services/auth.service.ts:166-170 | clearing twice equals clearing once (logging out twice is harmless) |
| Auth.ClearedForgetsSession | src/app/services/auth.service.ts:166-170 | clearing after setSession leaves storage as clearing before it would |
| Auth.ClearedIsLoggedOut | src/app/services/auth.service.ts:166-170 | a cleared session is not logged in at any time |
| Auth.AfterLoginReply | src/app/services/auth.service.ts:47-51 | a login reply sets the session iff `success`, `token` and `user` are all truthy; otherwise nothing changes |
| Auth.LoginReplyLogsIn | src/app/services/auth.service.ts:47-51 | a successful reply with an unexpired token leaves the client logged in as the reply's user |
| Auth.AfterRefreshReply | src/app/services/auth.service.ts:145-149 | a refresh reply overwrites only the token, and only when `success` and `token` are truthy; user and other entries are untouched |
| Auth.DemoReply | src/app/services/auth.service.ts:63-73 | the demo reply is a success with a non-empty token and the demo admin user, so the login handler accepts it |
| Auth.UserOutlivesToken | src/app/services/auth.service.ts:128-130 | with an expired token the client is logged out yet the current user is still the stored profile |
| Auth.DemoLoginLifetime | src/app/services/auth.service.ts:60-80 | after a demo login the client is logged in exactly until issue second + 86400 |
| Auth.AuthService.constructor | src/app/services/auth.service.ts:33-39 | construction runs loadStoredAuth over the existing storage |
| Auth.AuthService.SetSession | src/app/services/auth.service.ts:157-161 | the new state is `WithSession` of the old one |
| Auth.AuthService.ClearSession | src/app/services/auth.service.ts:166-170 | the new state is `Cleared` of the old one |
| Auth.AuthService.LoadStoredAuth | src/app/services/auth.service.ts:175-190 | the new state is `LoadedAuth` of the old one |
| Auth.AuthService.GetToken | src/app/services/auth.service.ts:135-137 | returns the stored token entry, or none |
| Auth.AuthService.GetCurrentUser | src/app/services/auth.service.ts:128-130 | returns the current-user value, whatever the token's expiry |
| Auth.AuthService.IsLoggedIn | src/app/services/auth.service.ts:117-123 | agrees with `LoggedIn` on the current state |
| Auth.AuthService.Login | src/app/services/auth.service.ts:44-54 | a reply is passed through after the reply handler ran; a failure leaves the session alone and surfaces handleError's message |
| Auth.AuthService.LoginDemo | src/app/services/auth.service.ts:60-89 | the demo credentials yield the demo reply and a session with a fresh mock token; anything else is rejected with `success: false` and the invalid-credentials message, and nothing changes |
| Auth.AuthService.Logout | src/app/services/auth.service.ts:94-104 | the session is cleared whatever the server answers; a failure is reported as `{ success: true }` |
| Auth.AuthService.LogoutDemo | src/app/services/auth.service.ts:109-112 | the session is cleared and navigation goes to `/login` |
| Auth.AuthService.RefreshToken | src/app/services/auth.service.ts:142-152 | a reply is handled by `AfterRefreshReply`; a failure changes nothing and surfaces handleError's message |
| Interceptor.AuthorizedRequest | src/app/interceptors/auth.interceptor.ts:19-24 | the URL is kept; a changed request differs only by `Authorization: Bearer <token>` for a non-empty token |
| Interceptor.ErrorEffects | src/app/interceptors/auth.interceptor.ts:28-43 | the session is cleared iff the status is 401 off a login URL, clearing comes first and only navigations follow, and there is no effect iff neither 401 rule nor 403 applies |
| Interceptor.AuthorizedRequestSpec | src/app/interceptors/auth.interceptor.ts:15-24 | `Authorization: Bearer <token>` is set exactly when the token is non-empty and the URL mentions neither '/login' nor '/refresh'; otherwise the request is unchanged; URL and other headers are always preserved |
| Interceptor.Intercept | src/app/interceptors/auth.interceptor.ts:11-45 | the caller receives the transport's outcome unchanged; a success has no side effects; an error runs `ErrorEffects` on the original URL |
| Interceptor.SessionAfterNavigations | src/app/interceptors/auth.interceptor.ts:33-39 | navigations alone leave the session unchanged |
| Interceptor.UnauthorizedEffects | src/app/interceptors/auth.interceptor.ts:30-34 | a 401 on a URL without '/login' (refresh URLs included) clears the session and navigates to login; a 401 on a login URL does nothing |
| Interceptor.ForbiddenEffects | src/app/interceptors/auth.interceptor.ts:37-40 | a 403 navigates to login on every URL and keeps the session |
| Interceptor.OtherStatusNoEffects | src/app/interceptors/auth.interceptor.ts:28-43 | any status other than 401 and 403 triggers no side effect |
| Guards.LoginRedirect | src/app/guards/auth.guard.ts:33-38 | the redirect targets `/login` with the single query parameter `returnUrl` set to the requested URL |
| Guards.AuthGuardCanActivate | src/app/guards/auth.guard.ts:19-39 | allows iff logged in; otherwise redirects to login carrying the requested URL |
| Guards.AuthGuardFn | src/app/guards/auth.guard.ts:46-64 | the function guard decides exactly as the class guard |
| Guards.LoginGuardCanActivate | src/app/guards/auth.guard.ts:76-89 | allows iff not logged in; otherwise redirects to `/dashboard` |
| Guards.LoginGuardFn | src/app/guards/auth.guard.ts:95-110 | the function guard decides exactly as the class guard |
| Guards.ExactlyOneGuardAllows | src/app/guards/auth.guard.ts:82-88 | in every session state exactly one of the two guards allows navigation |
| Guards.GuardsIgnoreRoute | src/app/guards/auth.guard.ts:19-39 | neither guard depends on the route; the login guard does not depend on the URL either |
| Guards.ReturnUrlPreserved | src/app/guards/auth.guard.ts:57-63 | two refusals are equal exactly when the requested URLs are equal |
| Upload.ValidateFile | src/app/file-upload/file-upload.ts:106-118 | a file is accepted iff its type is allowed and its size is at most 10 MiB; the type rejection applies iff the type is not allowed, whatever the size |
| Upload.SizeLimitBoundary | src/app/file-upload/file-upload.ts:112-115 | exactly 10 MiB passes; one byte more and 15 MiB are too large |
| Upload.AcceptedFiles | src/app/file-upload/file-upload.ts:96-104 | the kept files are no more than the input and each passes validation |
| Upload.Rejections | src/app/file-upload/file-upload.ts:106-115 | every alert names a rejected file and the check it failed |
| Upload.SelectionPartitions | src/app/file-upload/file-upload.ts:96-104 | accepted files and alerted files together form exactly the input multiset (every file once) |
| Upload.AcceptedFilesConcat | src/app/file-upload/file-upload.ts:96-104 | selecting two lists in turn keeps the same files as selecting their concatenation, in order |
| Upload.RoundedPercent | src/app/file-upload/file-upload.ts:169 | not finite iff the total is 0; otherwise the nearest integer to 100·loaded/total, halves rounded up as `Math.round` does |
| Upload.PercentInRange | src/app/file-upload/file-upload.ts:169 | with 0 <= loaded <= total and total > 0 the rounded percentage lies in 0..100 |
| Upload.PercentComplete | src/app/file-upload/file-upload.ts:169 | a fully acknowledged transfer reports exactly 100 |
| Upload.PercentMonotone | src/app/file-upload/file-upload.ts:169 | more acknowledged bytes never lower the percentage |
| Upload.StartRecord | src/app/file-upload/file-upload.ts:147-154 | a new record is uploading at progress 0 |
| Upload.OnEvent | src/app/file-upload/file-upload.ts:167-170 | an upload-progress event sets only the progress, to its rounded percentage; any other event changes nothing |
| Upload.AfterEvents | src/app/file-upload/file-upload.ts:167-170 | progress events change only the record's progress |
| Upload.NoProgressReported | src/app/file-upload/file-upload.ts:167-170 | without upload-progress events the record is unchanged |
| Upload.ProgressIsLastReported | src/app/file-upload/file-upload.ts:167-170 | the progress after the events is that of the last upload-progress event |
| Upload.ProgressStaysInRange | src/app/file-upload/file-upload.ts:167-170 | well-formed events keep the progress a number in 0..100 |
| Upload.FinalRecord | src/app/file-upload/file-upload.ts:145-182 | the record keeps the file's name, size, type and start time; it ends success at 100 or error at its last reported progress |
| Upload.FailedProgressInRange | src/app/file-upload/file-upload.ts:176-179 | a failed well-formed transfer leaves a progress in 0..100 |
| Upload.RunBatch | src/app/file-upload/file-upload.ts:129-139 | a non-empty batch attempts at least one file and at most all of them |
| Upload.FirstFailure | src/app/file-upload/file-upload.ts:130-132 | the index before which every attempt completed and at which one failed, if any |
| Upload.RunBatchExtent | src/app/file-upload/file-upload.ts:129-139 | the run completes iff no attempt fails, and attempts exactly the files through the first failure, on top of the old history |
| Upload.RunBatchOrder | src/app/file-upload/file-upload.ts:130-132 | the attempted files' records lie most-recent-first, the j-th file's record at depth attempted-1-j |
| Upload.RunBatchFailFast | src/app/file-upload/file-upload.ts:129-139 | the batch succeeds iff no attempt fails; exactly the files up to and including the first failure are attempted, their records prepended most-recent-first |
| Upload.BatchRecords | src/app/file-upload/file-upload.ts:130-139 | files before the first failure end success at 100; the failing file's record is on top as an error; later files get no record |
| Upload.Forms | src/app/file-upload/file-upload.ts:158-161 | one form per file, in order, with the configured bucket and path |
| Upload.SpliceStart | src/app/file-upload/file-upload.ts:185 | the splice start lies within the selection |
| Upload.RemoveAt | src/app/file-upload/file-upload.ts:185 | deleting at an index in range removes exactly that one element (as a multiset); at the end it removes nothing |
| Upload.RemoveInRange | src/app/file-upload/file-upload.ts:184-186 | removing an in-range index drops exactly that element and keeps the rest in order |
| Upload.RemoveNegative | src/app/file-upload/file-upload.ts:185 | a negative index counts from the end; below minus the length it removes the first element |
| Upload.RemovePastEnd | src/app/file-upload/file-upload.ts:185 | an index at or past the end removes nothing |
| Upload.UnitIndex | src/app/file-upload/file-upload.ts:196 | 1024^i <= bytes < 1024^(i+1) |
| Upload.UnitLabel | src/app/file-upload/file-upload.ts:195-197 | the label is one of the four units iff the index is below 4, and then it is the unit at that index |
| Upload.FormatFileSize | src/app/file-upload/file-upload.ts:192-197 | "0 Bytes" iff the size is 0; otherwise the unit for which 1024^i <= bytes < 1024^(i+1), with its label |
| Upload.UnitIndexIsLargest | src/app/file-upload/file-upload.ts:196 | the unit index is the largest i with 1024^i <= bytes |
| Upload.UnitLabels | src/app/file-upload/file-upload.ts:195-197 | below 1 TiB the unit is one of Bytes, KB, MB, GB; from 1 TiB on it is `undefined` |
| Upload.FormatFileSizeExamples | src/app/file-upload/file-upload.ts:192-197 | 0 gives "0 Bytes", 1536 bytes is in KB and 1048576 bytes in MB |
| Upload.FileUpload.constructor | src/app/file-upload/file-upload.ts:31-52 | initial config (no bucket or path, 10 MB, ready), empty selection and history, not uploading |
| Upload.FileUpload.NgOnInit | src/app/file-upload/file-upload.ts:56-64 | the first bucket and the first path become the defaults when the lists are non-empty; nothing else changes |
| Upload.FileUpload.HandleFiles | src/app/file-upload/file-upload.ts:96-104 | the selection grows by exactly the accepted files in order, and the alerts are exactly the rejections |
| Upload.FileUpload.UploadSingleFile | src/app/file-upload/file-upload.ts:145-182 | the history gains exactly the attempt's final record on top; the form carries the file and the configured target; the result is whether it completed |
| Upload.FileUpload.UploadEach | src/app/file-upload/file-upload.ts:130-132 | the history becomes that of the fail-fast run; the forms sent are those of the attempted files; the result is whether every upload completed |
| Upload.FileUpload.UploadFiles | src/app/file-upload/file-upload.ts:120-143 | an empty selection changes nothing; otherwise history, forms sent, status text, selection and flag are those of the fail-fast run |
| Upload.FileUpload.RemoveFile | src/app/file-upload/file-upload.ts:184-186 | the selection loses the element at the splice start, if any |
| Upload.FileUpload.ClearFiles | src/app/file-upload/file-upload.ts:188-190 | the selection becomes empty |

## Left out

- HTTP transport, RxJS observables and the router are replaced by parameters and returned values. That covers `HttpOutcome`, `Attempt`, the navigation target and the `Effect` lists. The interceptor's effects are a list rather than calls into a live service.
- The current-user subject's subscribers are not modelled. Only its latest value (`currentUser`) is kept.
- `alert` and `console` output are not modelled. Rejections are returned as `Rejection` values, and the empty-selection alert as `NothingSelected`.
- DOM handlers are not modelled: drag-over, drag-leave, drop, file-input change and `triggerFileInput`. They only forward a file list to `handleFiles` or toggle a display flag.
- The bucket catalogue `BUCKET_CONFIG` is not part of this model. Its lists are constructor parameters.
- `src/main.ts` bootstraps the app and is not modelled. Its routes carry no guard, and `provideHttpClient()` is called without the interceptor. `app.config` is not part of this model.
- The commented-out class-based interceptor is not modelled. It is inactive text with the same logic as the function interceptor.
- `atob`, `btoa` and JSON are abstract codec functions, with only the guarantees listed in `ValidCodec`.
- Token.AssembledClaims: promises nothing for claims outside `Encodable`. For those claims `btoa` throws, and that throw is not modelled.
- Token.MockTokenLifetime: like `Token.MockTokenClaims` and `Auth.DemoLoginLifetime`, it requires the issue time to lie within the ECMAScript time range (`MAX_TIME_MS`), where the mock `exp` is a safe integer.
- Auth.LoadedAuth: a stored user that parses to a truthy JSON value of another shape (a number, a string, an array, an object without the profile's fields) is not distinguished from a well-formed user. The falsy values `null`, `false`, `0` and `""` are all modelled as one `Falsy` result that publishes no user.
- Upload.RoundedPercent: `Math.round` is modelled exactly on rationals, so floating-point error in `100 * loaded / total` is not captured. A zero total gives `NonFinite`.
- Upload.FormatFileSize: only the zero case, the unit index and the unit label are modelled. The scaled number rendered with `toFixed(2)` and `parseFloat` is floating point. The unit index is the exact largest i with 1024^i <= bytes. The code's `Math.floor(Math.log(bytes) / Math.log(1024))` can differ from it only near powers of 1024 from about 1024^5 - 1 bytes on, where the label is `undefined` either way.
- Upload.FileUpload.UploadSingleFile: the shared record the callbacks mutate is modelled as updates to the first history entry. That is equivalent because nothing else prepends while a transfer runs.
- Upload.FileUpload.UploadFiles: overlapping invocations are not modelled, since the code leaves them to the caller. Transfers that never settle are not modelled either: every `Attempt` ends in completion or error.
- Upload.FileUpload.UploadFiles: the intermediate state during the run is not stated in the contract (flag set, status `Uploading...`). Only the final state is.
- `maxFileSizeBytes` is computed once at construction from the initial 10 MB. Later changes to `config.maxFileSize` do not affect validation, in the code as in the model.
- Header names are compared case-sensitively in the request map. Angular's case-insensitive `HttpHeaders` lookup is not modelled.
