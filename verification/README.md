# Video-sharing backend: handlers, registration and the auth gate

This project models the three parts of the YouTube-style backend that make
their own decisions. Everything else in the code base is Express and Mongoose
glue.

- **Video resource handlers** (`publishAVideo`, `getVideoById`, `updateVideo`,
  `deleteVideo`, `togglePublishStatus`). Each is a pure transition over the
  video collection `map<ObjectId, Video>`. It returns the collection after the
  call and either a success status with its payload or the error it throws.
  Every handler on an existing video (update, delete, toggle) checks that the
  video exists (404), then checks the owner (403), then writes.
- **User registration** (`registerUser`). Its validation runs in a fixed
  order: blank fields, duplicate username or email, the avatar. Then it
  inserts the user and answers with a projection that drops `password` and
  `refreshToken`. The model proves that any sequence of registrations run one
  after another keeps usernames and emails unique.
- **The auth gate** (`verifyJWT`). It takes the token from the
  `accessToken` cookie, or failing that from the `Authorization` header with
  the first `"Bearer "` removed. It rejects missing or empty tokens, rejects
  tokens whose subject is not a user, and otherwise attaches the sanitized
  user and calls `next()` once.

The modules are:

- `JsValues`: the JavaScript semantics these handlers rely on.
  - `undefined`/`null` is `Nullish`; any other value is `Present`.
  - A string is truthy when it is present and non-empty.
  - `trim` removes the ECMA-262 WhiteSpace and LineTerminator code points.
  - `replace` with a string pattern replaces only the first occurrence.
  - `??` is `Coalesce`.
- `Cloudinary`: the contract of `uploadOnCloudinary`. It resolves to `null`
  for a falsy path, to the SDK response otherwise, and to `{url: " "}` when
  the SDK throws.
- `Api`: `ObjectId`, the error datatype and the reply datatype.
- `Videos`, `Users`, `AuthGate`: the three parts above.

These inputs are parameters, because the model cannot see or run them:

- what the network does to an upload (`SdkOutcome`);
- the identifier the database assigns to a new document;
- the schema default of `isPublished`;
- the owner comparison (`OwnerTest`);
- the token verifier `verify: string -> Verdict`.

## Behaviour of the code worth knowing

- `jwt.verify` (src/middlewares/auth.middleware.js:15) is not wrapped in a
  `try`: a token that fails signature or expiry checking makes it throw its
  own error, which has no `status`. The model keeps that error as
  `Failure.Rejection` holding the verifier's message, apart from the
  handlers' `ApiError`s. `asyncHandler` (src/utils/asyncHandler.js:6-10)
  therefore answers 500 with `error.message`, so the client learns why its
  token failed ("jwt expired", "invalid signature").
- A token whose subject is not, or no longer, a stored user gets 401
  "Invalid access token".
- Without a cookie, the token is the `Authorization` header with the first
  `"Bearer "` removed, wherever it occurs in the header. A header without
  that text is used as the token unchanged.

## Model

| member | source | states |
|---|---|---|
| JsValues.TrimStart | src/controllers/video.controller.js:27 | The first half of `trim`: the result is a suffix of the input, everything it drops is white space, and it does not itself start with white space, so it is the longest such suffix. |
| JsValues.TrimEnd | src/controllers/video.controller.js:27 | The second half of `trim`: the result is a prefix of the input, everything it drops is white space, and it does not itself end with white space. |
| JsValues.Trim | src/controllers/user.controller.js:20 | `val.trim()`: leading white space removed, then trailing white space. It has no contract of its own; TrimEmptyIffAllSpace characterises when it yields the empty string. |
| JsValues.BlankIsTrimCheck | src/controllers/video.controller.js:25-31 | The check that `!val` or `!val.trim()` holds fails a field exactly when it is missing or null, or consists only of white space (the empty string included); the handlers' `Blank` is this characterisation. |
| JsValues.TrimEmptyIffAllSpace | src/controllers/user.controller.js:18-22 | `val.trim() === ""` holds exactly when every character of `val` is one that `trim` removes. |
| JsValues.ReplaceFirst | src/middlewares/auth.middleware.js:9 | `header.replace("Bearer ", "")` with a string pattern: scans from the left and replaces the first occurrence only. It has no contract of its own; ReplaceFirstWithoutMatch and ReplaceFirstAtFirstMatch characterise it against the independent FirstOccurrence definition. |
| JsValues.ReplaceFirstWithoutMatch | src/middlewares/auth.middleware.js:9 | `replace("Bearer ", "")` leaves a header that does not contain `"Bearer "` unchanged. |
| JsValues.ReplaceFirstAtFirstMatch | src/middlewares/auth.middleware.js:9 | `replace` removes only the first occurrence of the pattern and keeps the text before and after it. |
| Cloudinary.Upload | src/utils/cloudinary.js:10-25 | The upload resolves to null exactly when the path is falsy. It gives `" "` when the SDK throws and the response URL otherwise. |
| Cloudinary.ValidatedPathNeverNull | src/controllers/video.controller.js:33-40 | A path that passed the blank-field validation never makes the upload resolve to null, so the 500 branch cannot fire. |
| Videos.PublishAVideo | src/controllers/video.controller.js:14-54 | Rejects with 400 "Missing data" exactly when a field is blank, and never with the upload 500. On success it adds exactly one video under the new id, owned by the caller, with duration 0 and the given title and description, and replies 201. A failed upload stores `" "` as the URL. The collection is unchanged on every error. |
| Videos.GetVideoById | src/controllers/video.controller.js:56-66 | Replies 404 exactly when the id is absent, and otherwise 200 with the stored record. The collection is only read. |
| Videos.UpdateVideo | src/controllers/video.controller.js:68-104 | Replies 404 when the video is absent, whatever the owner test says, and 403 when the owner test fails; the collection is unchanged in both cases. On success, title and description are replaced only when supplied (not nullish). The thumbnail and every other field keep their old values. |
| Videos.UpdateVideoAwaited | src/controllers/video.controller.js:82-94 | The same handler with the upload awaited, as the commented-out draft intends: a truthy thumbnail path stores the uploaded URL (or `" "`) and no path keeps the old thumbnail. |
| Videos.DeleteVideo | src/controllers/video.controller.js:106-120 | Replies 404 and then 403 in that order. On success it removes exactly the target id and leaves every other video unchanged. |
| Videos.TogglePublishStatus | src/controllers/video.controller.js:122-148 | Replies 404 and then 403 in that order. On success only `isPublished` changes, and it is negated. |
| Videos.PublishThenGet | src/controllers/video.controller.js:42-66 | A published video reads back unchanged under its new id. Reads of other ids are unaffected. |
| Videos.ToggleTwiceRestores | src/controllers/video.controller.js:131-141 | Toggling twice restores both the collection and the record. |
| Videos.EmptyUpdateChangesNothing | src/controllers/video.controller.js:87-99 | An update that supplies neither title nor description leaves the collection as it was. |
| Videos.EmptyTitleOverwrites | src/controllers/video.controller.js:91 | An empty-string title is not nullish, so it overwrites the old title. |
| Videos.UpdateIdempotent | src/controllers/video.controller.js:87-99 | Repeating the same update leaves the collection as a single update does. |
| Videos.DeleteThenGet | src/controllers/video.controller.js:109-116 | After a delete, the id reads as 404, a second delete gives 404, and other ids read as before. |
| Videos.JsLooseOwnerEq | src/controllers/video.controller.js:75 | The negation of `video.owner != req.user?._id` as written (also at :113 and :128): loose equality between two objects is reference identity, and a stored owner and the caller's id are separately obtained ObjectId instances, so the test holds only when both sides are nullish. |
| Videos.OwnerIdEq | src/controllers/video.controller.js:113 | The evidently intended owner test at :75, :113 and :128: the video has an owner and the caller's id value equals it. |
| Videos.OwnerRejectedAsWritten | src/controllers/video.controller.js:75 | With `!=` between ObjectId instances, the owner of a video gets 403 from update, delete and toggle alike. |
| Videos.OwnerlessVideoOpenAsWritten | src/controllers/video.controller.js:113 | With the same loose comparison, a request without a user can delete or toggle a video that has no owner. |
| Videos.OwnerAcceptedByValue | src/controllers/video.controller.js:75 | Comparing id values lets the owner through all three handlers, and refuses everyone else with 403 without changing the collection. |
| Videos.UpdateKeepsThumbnail | src/controllers/video.controller.js:80-93 | As written, a successful thumbnail upload with a new URL still leaves the old thumbnail. The awaited form stores the new URL. |
| Users.Sanitize | src/controllers/user.controller.js:59-61 | `findById(id).select("-password -refreshToken")`: the stored document with its id and without `password` and `refreshToken`. SanitizeDropsExactlySecrets proves it drops exactly those two fields. |
| Users.Taken | src/controllers/user.controller.js:26-29 | `User.findOne({ $or: [{ username }, { email }] })` finds a document: some stored user has the same username or the same email, compared exactly. |
| Users.SanitizeDropsExactlySecrets | src/controllers/user.controller.js:59-61 | Two records give the same response exactly when they differ only in `password` and `refreshToken`. |
| Users.RegisterUser | src/controllers/user.controller.js:7-70 | Any blank field gives 400 "All fields are required", whatever else is wrong. Otherwise a taken username or email gives the duplicate 400. Otherwise a falsy avatar path gives the avatar 400. The 500 branch never fires. The collection is unchanged on every error. Success happens exactly when none of these apply and the id is fresh. |
| Users.RegisteredUser | src/controllers/user.controller.js:50-69 | A success adds exactly one user built from the request fields and replies 201 with its projection. `avatar` is the avatar URL. `coverImage` is the cover URL, or `""` without a cover file. |
| Users.RegisterKeepsHandlesUnique | src/controllers/user.controller.js:26-57 | One registration call, successful or not, keeps usernames and emails unique. |
| Users.RegistrationsKeepHandlesUnique | src/controllers/user.controller.js:26-57 | From a collection with unique usernames and emails, any sequence of registration calls keeps them unique. |
| Users.RegistrationsOnlyAdd | src/controllers/user.controller.js:50-57 | A sequence of registrations never removes or changes an existing user. |
| Users.SecondRegistrationRefused | src/controllers/user.controller.js:26-34 | After a successful registration, another with the same username or email is refused with 400 and changes nothing. |
| AuthGate.ExtractToken | src/middlewares/auth.middleware.js:7-9 | A truthy `accessToken` cookie is the token. Otherwise the token is the `Authorization` header with the first `"Bearer "` removed, or undefined when there is no header. |
| AuthGate.VerifyJwt | src/middlewares/auth.middleware.js:6-25 | `next()` is called at most once, and exactly when nothing is thrown. A missing or empty token gives 401 "Unauthorized request". A failed verification rethrows the verifier's own error, message unchanged. A subject that is missing or not a user gives 401 "Invalid access token". On success, `req.user` is the sanitized record of the subject. Nothing else in the request changes, and on failure nothing changes at all. |
| AuthGate.VerifierErrorPropagates | src/middlewares/auth.middleware.js:15 | When the verifier rejects the token, the gate's outcome is determined by the verifier's error: two rejecting verifiers give the same outcome exactly when their errors agree, so no failure reason is collapsed into another. |
| AuthGate.CookieWinsOverHeader | src/middlewares/auth.middleware.js:7-9 | With a truthy cookie, the header has no effect on the token or the outcome. |
| AuthGate.BearerHeaderYieldsToken | src/middlewares/auth.middleware.js:9 | Without a cookie, the header `Bearer <t>` yields the token `<t>`. |
| AuthGate.BareBearerIsUnauthorized | src/middlewares/auth.middleware.js:9-13 | A header that is exactly `"Bearer "` leaves an empty token, which gets 401 with `next()` not called. |
| AuthGate.HeaderWithoutBearerUsedAsIs | src/middlewares/auth.middleware.js:9 | A header without `"Bearer "` is used as the token unchanged. |
| AuthGate.GateIgnoresSecrets | src/middlewares/auth.middleware.js:16-18 | Changing stored passwords or refresh tokens changes no gate outcome. |
| AuthGate.GateReadsOnlySubject | src/middlewares/auth.middleware.js:15-21 | Two collections that agree on the token's subject give the same outcome. |
| AuthGate.RegisteredUserPassesGate | src/middlewares/auth.middleware.js:16-24 | A token whose subject is a freshly registered user passes the gate. The gate attaches exactly the user the registration response showed. |

## Findings

| source | as written | input that shows it | evidently intended | confidence | as-written member | corrected member |
|---|---|---|---|---|---|---|
| src/controllers/video.controller.js:75 | `video.owner != req.user?._id` compares two distinct ObjectId objects with loose inequality, which compares references | a video owned by user `u`, updated, deleted or toggled by `u` itself, gets 403 | compare the id values, e.g. `!video.owner.equals(req.user._id)` | not executed; high, the same test is at lines 113 and 128 | Videos.OwnerRejectedAsWritten | Videos.OwnerAcceptedByValue |
| src/controllers/video.controller.js:80 | `uploadOnCloudinary` is called without `await`, so `thumbnail.url` at line 93 reads a property of a pending promise | an owner's update with a thumbnail file that Cloudinary accepts with a new URL keeps the old thumbnail | `await` the upload and write `thumbnail?.url ?? video.thumbnail`, as the commented-out line 84 does | not executed; high | Videos.UpdateKeepsThumbnail | Videos.UpdateVideoAwaited |

The video handlers take the owner test as a parameter. `Videos.JsLooseOwnerEq`
models the code as written and `Videos.OwnerIdEq` the intended id comparison.
Every other property of the handlers is proved for any owner test.

## Left out

- `getAllVideos`: its body is an empty stub.
- Login, logout and refresh-token rotation: the routes name `loginUser`,
  `logoutUser` and `refreshAccessToken`, but no source for them exists, so
  they are not part of this model. The access/refresh token lifecycle is left
  out with them.
- `asyncHandler`: how a thrown error becomes an HTTP response is not
  modelled. Errors are values (`ApiError` with a status, or `Rejection` for
  library exceptions). The mapping reads fields of `ApiError`, whose source is
  not part of this model. `user.controller.js`, `auth.middleware.js` and
  `app.js` import it as a default export, which it does not provide;
  `video.controller.js` uses the named export that exists.
- Cloudinary and the file system: the network call is an input
  (`SdkOutcome`). Deleting the local file after a failed upload is file I/O;
  if that deletion throws, the upload helper rejects, and this is not
  modelled.
- The un-awaited thumbnail upload in `updateVideo`
  (src/controllers/video.controller.js:80) still runs after the handler
  replies. It uploads an asset that no document references, unlinks the
  local file if the upload fails, and any rejection it produces is never
  awaited. The model keeps only its effect on the reply and the collection
  (none).
- Token cryptography: signature and expiry checking is the abstract `verify`
  parameter. The secret it uses is read from `process.env.ACCESS_TOKEN_sECRET`
  (note the lower-case `s`). The environment is not modelled, so `verify`
  stands for whatever that lookup yields.
- Mongoose schemas (`user.model.js`, `video.model.js`) are not part of this
  model. Their defaults, password hashing hooks, lowercase or trim setters,
  unique indexes and validators are unknown. `isPublished` on creation is a
  parameter. The password is stored as given. Duplicate detection compares
  strings exactly.
- Malformed ids: `findById` with a string that is not an ObjectId throws a
  cast error. Ids are modelled as already-valid `ObjectId`s.
- Request values other than strings or nullish: a number in the body would
  make `.trim()` throw. Body fields are modelled as strings or absent, and
  cookies as strings (no JSON cookies).
- Database failures: every Mongoose call (`findById`, `findOne`, `create`,
  `findByIdAndUpdate`, `remove`) is modelled as succeeding. A driver or
  connection error would reject and reach `asyncHandler` as a 500; no
  contract covers that path.
- Concurrency: each handler is modelled as one atomic step, and sequences of
  calls run one after another. The handlers are not atomic: they await the
  database between their check and their write.
  - A video deleted between `findById` and `findByIdAndUpdate` would make the
    update reply carry `null`.
  - `registerUser` awaits `findOne` (src/controllers/user.controller.js:26),
    then two uploads (:43-44), then `create` (:50). Two concurrent calls with
    the same username or email can both pass the duplicate check at :29 and
    both insert. The schema is not part of this model, so no unique index can
    be assumed to stop them. Users.RegistrationsKeepHandlesUnique holds only
    for registrations that do not overlap.
- Videos.DeleteVideo: it assumes `video.remove()` deletes the document.
  Whether that method exists depends on the Mongoose version, which is not
  part of this model.
- Wiring: Express setup, CORS, body limits, static files, routing tables,
  server start-up, the Mongo connection and multer's storage naming are
  framework glue with no decisions to model.
- AuthGate.VerifyJwt: "the gate never mutates the user store" is stated by
  its type. The collection is an input and not an output, so no contract
  clause states it.
