# Task manager: the User record

This project models the user side of a small Express and Mongoose task-manager API.
The model covers one user document and everything the user routes do to it:

- The user schema (`src/models/user.js`):
  - the `trim` and `lowercase` setters;
  - the `age` default;
  - the `required`, `minlength` and custom validators of `name`, `email`, `age` and `password`;
  - the `pre("save")` hook, which replaces a modified password by its bcrypt digest.
- The user routes (`src/routers/user.js`):
  - sign-up and login, each of which issues a session token;
  - logout and logout everywhere;
  - the whitelisted profile update;
  - the avatar upload filter and its size limit;
  - avatar upload, removal and download.

The model is laid out as follows:

- `Text` holds the JavaScript string operations the schema relies on: `trim`, `toLowerCase`, `includes` and a suffix test.
- `UserModel` holds the document as a value (`Doc`) and the pure functions on it:
  - `Assigned` and `AssignedAll` are assignment through the setters;
  - `Violations` and `Valid` are validation;
  - `Hashed` is the hook;
  - `Persisted` is `save()`.
- `UserModel` also holds the class `User`, whose fields the handlers update in place.
  Each of its methods is proved to move `State()` exactly as the matching pure function does.
- `UserRouter` holds the route handlers as methods on a `User`.
  Each handler returns the `Reply` the route sends: a status plus a body.

Three collaborators are function-valued parameters:

- `hash` stands for bcrypt with a fresh salt, so every save may pass a different one.
- `isEmail` stands for the e-mail check of the validator library.
- `normalize` stands for the sharp resize and PNG re-encoding.

The authenticated user, the user that `findByCredentials` found (or null) and the signed token are arguments of the handlers.

Some Mongoose behaviours the model commits to:

- A setter runs when a value is assigned.
- A key the schema does not know is dropped.
- A JSON number given to a string path is stored as its decimal form (below 10^21 in magnitude; see "## Left out").
- A value the Number cast refuses leaves `age` as it was and fails validation.
- Validation runs before the save hook. It reports every failing path at once.
- `isModified("password")` is true only when the assigned value differs from the stored one.

The hook is the only place a password gets hashed.
A hashed password is validated again on every later save of the document.
`DigestLike(hash)` therefore names what the model assumes of a digest:

- it never equals its input;
- it has no surrounding white space;
- it meets the password rules.

The schema in `src/models/user.js` declares neither `tokens` nor `avatar`.
The routes use both (`src/routers/user.js:49`, `src/routers/user.js:109`), so the record carries them.
Token issuing (`generateAuthToken`, which is not part of this model) is modelled as "append the token, then save". The tests expect this: after sign-up the response token is `tokens[0]`, and after a login by a user who already holds one token it is `tokens[1]`.

The avatar routes call `save()` outside any `try`.
A failed save there rejects the handler's promise, and under Express 4 no response is sent.
The model calls this outcome `Unanswered`.

## Model

| member | source | states |
|---|---|---|
| Text.Trim | src/models/user.js:11 | `trim` leaves no white space at either end, and the result sits in the input with only white space around it |
| Text.TrimUnique | src/models/user.js:11 | any string with those two properties is `Trim(s)`: the two properties fix what trimming returns |
| Text.TrimIdempotent | src/models/user.js:11 | trimming a trimmed value changes nothing, so re-assigning a stored name or password is stable |
| Text.ToLower | src/models/user.js:17 | lower-casing keeps the length and maps every character through the ASCII lower-case map |
| Text.TrimLowerCommute | src/models/user.js:16-17 | trim-then-lowercase equals lowercase-then-trim, so the order of the two email setters does not matter |
| Text.Contains | src/models/user.js:39 | `includes` is true exactly when the word occurs at some position |
| Text.ContainsIgnoresPadding | src/models/user.js:37-39 | for a non-empty word without white space, `includes` answers the same before and after `trim` |
| Text.EndsWith | src/routers/user.js:14 | the suffix test holds exactly when the name is some string followed by the suffix |
| Text.Decimal | src/models/user.js:9 | a number assigned to a string path becomes a decimal string that spells the number back, starts with `-` exactly when it is negative, and has no leading zero |
| UserModel.Assigned | src/models/user.js:8-43 | `doc[key] = v`: the cast and the setters of the key's path; its effect on each path is stated by `NameRule`, `EmailRule`, `AgeRule`, `PasswordRule` and `User.SetPassword` |
| UserModel.AssignedAll | src/routers/user.js:84 | the body's keys assigned in turn; `AssignedAllPerField` and `AssignedAllKeepsSessions` state what it leaves in each field |
| UserModel.Violations | src/models/user.js:7-44 | the paths whose rules fail, all reported together; the rules are stated path by path in `NameRule`, `EmailRule`, `AgeRule` and `PasswordRule` |
| UserModel.Valid | src/models/user.js:7-44 | no path fails; `DigestKeepsValid` shows hashing and token issuing keep it |
| UserModel.Hashed | src/models/user.js:50-59 | the pre-save hook; `SaveHashesIffModified` and `SaveTwiceHashesOnce` state when it changes the password |
| UserModel.Persisted | src/models/user.js:50-59 | `save()`: validation first, then the hook; `SaveHashesIffModified`, `SaveTwiceHashesOnce` and `SignUpStoresDigest` state its effect |
| UserModel.AssignedAllPerField | src/routers/user.js:83-84 | assigning a body key by key leaves each schema field as its own entry alone would, in any key order, and never touches the tokens or the avatar |
| UserModel.AssignedAllKeepsSessions | src/routers/user.js:84 | no assignment, whatever the body, reaches the session tokens or the avatar |
| UserModel.NameRule | src/models/user.js:8-12 | `name` is stored trimmed and fails `required` exactly when the given string is all white space |
| UserModel.EmailRule | src/models/user.js:13-23 | `email` is stored trimmed and with no upper-case letter, and fails exactly when it is empty or the e-mail check refuses it |
| UserModel.AgeRule | src/models/user.js:24-32 | a new document has age 0, which is valid; an assigned age fails exactly when it is a negative number or not a number |
| UserModel.PasswordRule | src/models/user.js:33-43 | `password` is stored trimmed and fails exactly when the trimmed length is below 7 or the lower-cased input contains "password" |
| UserModel.MixedCasePasswordRejected | src/models/user.js:38-42 | "myPassWord1" is rejected |
| UserModel.SaveHashesIffModified | src/models/user.js:50-55 | a valid save changes the stored password exactly when it was modified, stores its digest then, and changes nothing else but the flag |
| UserModel.SaveTwiceHashesOnce | src/models/user.js:50-59 | a second save does not hash again, whatever hash it is given |
| UserModel.DigestKeepsValid | src/models/user.js:50-55 | a valid document stays valid once its password is hashed and a token is appended |
| UserModel.NewPasswordModified | src/routers/user.js:25 | the password of a sign-up body arrives trimmed and marked modified |
| UserModel.SignUpStoresDigest | src/models/user.js:50-55 | after a valid sign-up the stored password is the digest of the trimmed plaintext and never the submitted plaintext |
| UserModel.User.constructor | src/routers/user.js:25 | `new User(body)` is the defaults with every schema key of the body assigned through its setter |
| UserModel.User.Assign | src/routers/user.js:84 | `user[key] = value` moves the state as `Assigned` does |
| UserModel.User.SetPassword | src/models/user.js:53 | assigning a password stores it and marks the path modified exactly when the stored value changes |
| UserModel.User.SetAge | src/models/user.js:24-26 | a number becomes the age; a value the Number cast refuses keeps the old age and records the cast failure |
| UserModel.User.Save | src/models/user.js:50-59 | `save()` returns the failing paths of the state before the call, and the new state is `Persisted`: hashed and unflagged when valid, untouched otherwise |
| UserModel.User.IssueToken | src/routers/user.js:30 | token issuing appends the token and then saves |
| UserRouter.Without | src/routers/user.js:49 | the logout filter; `WithoutCounts`, `WithoutConcat` and `WithoutAbsent` state what it keeps and in which order |
| UserRouter.WithoutCounts | src/routers/user.js:49 | the logout filter keeps every other token with its multiplicity and drops every copy of the current one |
| UserRouter.WithoutConcat | src/routers/user.js:49 | the filter distributes over concatenation, so the kept tokens stay in their original order |
| UserRouter.WithoutAbsent | src/routers/user.js:49 | logging out with a token the list does not hold leaves the list as it was |
| UserRouter.LogoutUndoesLogin | src/routers/user.js:37-55 | logging out the token a login just appended gives back the list from before the login |
| UserRouter.WithoutEachMembers | src/routers/user.js:49 | after logging out a sequence of tokens, a token remains exactly when it was held and not logged out |
| UserRouter.LogoutEachIsLogoutAll | src/routers/user.js:47-65 | logging out every session one by one ends with the empty list that logout-all gives |
| UserRouter.IsValidOperation | src/routers/user.js:73-75 | an update is accepted exactly when every key is one of name, email, password and age |
| UserRouter.AllowedKeysAreFields | src/routers/user.js:74 | a key is allowed exactly when it names a schema field |
| UserRouter.UpdateWhitelistExamples | src/routers/user.js:72-79 | `{"location": …}` is refused, `{"name": …}` and the empty update are accepted |
| UserRouter.UpdateRehashesPassword | src/routers/user.js:81-85 | an accepted update that changes the password stores the digest of the new trimmed password |
| UserRouter.MatchesImagePattern | src/routers/user.js:14 | the pattern read literally: a dot, one of the three names, then the end of the name; `ImagePatternIsSuffixTest` equates it with the suffix test |
| UserRouter.HasImageExtension | src/routers/user.js:14 | the three suffix tests; `ImagePatternIsSuffixTest` equates them with the pattern |
| UserRouter.ImagePatternIsSuffixTest | src/routers/user.js:14 | the name matches the pattern (a dot, then jpg, jpeg or png, then the end) exactly when it ends in ".jpg", ".jpeg" or ".png" |
| UserRouter.UploadRejection | src/routers/user.js:9-20 | a file is accepted exactly when its name matches the pattern and it has at most 1000000 bytes; a name that does not match gets the format message, and a matching name over the limit gets "File too large" |
| UserRouter.UploadSizeExamples | src/routers/user.js:10-12 | a .jpg of exactly 1000000 bytes passes; one byte more gets "File too large" |
| UserRouter.UploadFormatExamples | src/routers/user.js:13-16 | ".JPG" and ".txt" names get the format message: the test is case-sensitive |
| UserRouter.SignUp | src/routers/user.js:24-35 | an invalid body gives 400 with the failing paths; a valid one is stored hashed and answered 201 with the token, which is then the only token |
| UserRouter.Login | src/routers/user.js:37-45 | no matching user gives 400; otherwise the token is appended and saved, and the response token is the new last entry |
| UserRouter.Logout | src/routers/user.js:47-55 | the current token is filtered out and the document saved; 200 on success, 500 if the save fails |
| UserRouter.LogoutAll | src/routers/user.js:57-65 | the token list becomes empty and the document is saved; 200 on success, 500 if the save fails |
| UserRouter.UpdateMe | src/routers/user.js:72-95 | a disallowed key gives 400 "Invalid Updates" with no field assigned; otherwise every key is assigned in turn and saved, answering the user or 500 with the failing paths |
| UserRouter.UploadAvatar | src/routers/user.js:107-114 | a refused file gives 404 with the filter's message and leaves the user untouched; an accepted one is normalised, stored and saved |
| UserRouter.ClearAvatar | src/routers/user.js:116-120 | the avatar becomes absent and the document is saved |
| UserRouter.FetchAvatar | src/routers/user.js:122-135 | the avatar is returned as image/png exactly when the user exists and has one; otherwise 404 with no body |
| UserRouter.AvatarRoundTrip | src/routers/user.js:107-135 | an accepted upload is what the download returns, a refused one leaves the old avatar visible, and after a removal whose save succeeded the download is 404 |

## Left out

- HTTP plumbing is not modelled: Express routing, `express.json`, status codes beyond the `Reply` constructors, and the JSON shape of the error bodies.
- The `auth` middleware, JWT signing and `findByCredentials` are not part of this model. Their results are handler arguments.
- `generateAuthToken` is not part of this model. It is modelled as appending the given token and saving.
- bcrypt (salt, cost 8), `validator.isEmail` and the sharp resize to 250×250 PNG are foreign libraries. They are the parameters `hash`, `isEmail` and `normalize`. A failure inside them, such as sharp refusing bytes that are not an image, is not modelled.
- The multer mechanics are not modelled: multipart parsing, and a request that carries no file (`req.file` undefined).
- The welcome and goodbye e-mails are left out, as is `GET /users/me`, which only echoes the authenticated user.
- `DELETE /users/me` and `remove()` are left out: they are persistence, and nothing about the record changes.
- The database is a single in-memory document: there are no queries, no email uniqueness and no concurrent requests on the same user.
- src/index.js is not part of this model. Its `PATCH /users/:id` repeats the whitelist, but it updates through `findByIdAndUpdate` (src/index.js:58). That call bypasses the save hook, so a password changed there is stored unhashed.
- `toLowerCase` is modelled on ASCII letters only. This is exact for the "password" check. An email with non-ASCII upper-case letters keeps them.
- Strings are sequences of Unicode scalar values. JavaScript counts `minlength` in UTF-16 units, so a character outside the Basic Multilingual Plane counts once here and twice there.
- Text.Decimal: spells every integer in plain decimal digits. JavaScript's `String(n)` switches to exponent form from 10^21 in magnitude, and `JSON.parse` already loses precision beyond 2^53, so numbers that large are not modelled faithfully.
- The model holds one in-memory document, and the avatar download reads it. The source's download reloads the user from the database, so a change whose save failed (a removal or upload on a document that no longer validates) stays visible in the model but not in the source. `AvatarRoundTrip` therefore states the download after a removal only when that removal's save succeeded.
- JSON values are strings and integers only. Fractional numbers, booleans, null, arrays and objects are not modelled.
- Every string assigned to `age` is modelled as a failed cast. Mongoose's Number cast accepts some strings: a numeric one such as "25" becomes that number, an empty string becomes null (which passes validation), and a blank one such as "  " becomes 0.
- The model treats `tokens` and `avatar` as keys no request body sets: assignment drops them. In the source, a string or number under `avatar` in a sign-up body is cast to a Buffer by `new User(req.body)` and stored, and a string under `tokens` is cast into the token list, where validation decides the outcome.
- `Unanswered` assumes Express 4. There, a rejected async handler sends no response.
- `DigestLike` is an assumption about bcrypt, not something proved. It requires that a digest differs from its input, is trimmed, has at least 7 characters and does not contain "password".
