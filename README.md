# secondarySchoolQuora core, modelled in Dafny

This project models the server core of secondarySchoolQuora, a question board for
secondary-school students, and proves properties of that model. The server is a
Node/Express application backed by MongoDB through Mongoose. The model covers:

- the three schemas: users, questions and categories. This includes their
  validators, defaults and unique indexes, and the pre-save hook that hashes a
  modified password with bcrypt.
- the cookie-token gate (`verify`) in front of the guarded routes.
- the handlers for:
  - authentication: register, login, logout, federated sign-in/sign-up and
    e-mail verification;
  - user profiles: own profile, public profile, password change, role change
    and profile-field update;
  - questions: post, search, read one, update and delete;
  - categories: create, read preferences and toggle a preference;
  - the timeline of questions in the caller's preferred subjects.

Each handler is a method over a `Database.Store` object. The store holds the
users, questions and categories collections, the natural insertion order of the
questions, and the verification e-mails handed to the mail transport. A handler
returns an `Http.Reply`: a status, a message, a JSON body and what it does to the
`user_token` cookie. Every state-changing handler keeps `Store.Valid()`. This
invariant says:

- every stored document passes its schema's single-path validators;
- the paths with a `trim` setter (username, e-mail, class and school) hold
  values with no white space at either end;
- usernames, e-mail addresses and category names are unique;
- the order of the questions collection lists each stored question exactly once.

Read-only handlers are functions that read the store.

Environment inputs are parameters:

- the signing secret (`JWT_SECRET`);
- the clock, in milliseconds as `Date.now()` gives it;
- the ObjectId the database assigns to a new document.

Tokens are an oracle. A token carries its claims, its issue and expiry times in
seconds, and a signature that only the holder of the secret can produce.
Verification checks the encoding, then the signature, then expiry. Expiry
follows section 4.1.4 of RFC 7519: a token is refused once the current time
reaches `exp`. bcrypt is a deterministic, injective `Hash` that carries the
`$2b$10$` cost header, and `Compare(p, h)` holds exactly when `h == Hash(p)`.

Modules follow the program's structure:

| module | file | stands for |
|---|---|---|
| `Basics` | basics.dfy | optional values, ids, JavaScript truthiness of request fields, `Array.prototype.filter` removal |
| `Text` | text.dfy | `\s`, ASCII case folding, substring search, `split(",")` |
| `Crypto` | crypto.dfy | bcrypt |
| `Tokens` | tokens.dfy | jsonwebtoken |
| `UserSchema` | user_schema.dfy | model/userSchema.js |
| `QuestionSchema` | question_schema.dfy | model/questionSchema.js |
| `CategorySchema` | category_schema.dfy | model/categoriesSchema.js |
| `Ordering` | ordering.dfy | `find(filter).sort({ createdAt })` over the questions collection |
| `Database` | database.dfy | `save()`, `findByIdAndUpdate`, `findByIdAndDelete` and the unique indexes |
| `Http` | http.dfy | replies and the `select(...)` projections of a user |
| `VerifyMiddleware` | verify_middleware.dfy | middleware/verify.js |
| `AuthController` | auth_controller.dfy | controller/auth.js |
| `UserController` | user_controller.dfy | controller/user.js |
| `QuestionController` | question_controller.dfy | controller/question.js |
| `CategoryController` | category_controller.dfy | controller/category.js |
| `TimelineController` | timeline_controller.dfy | controller/timeline.js |

## Behaviour kept as written

The model follows the code, with one exception: the profile question lists, a
bug recorded under "## Findings". Several of the code's behaviours differ from what
the system's design describes, and the model keeps and proves each of them:

- **`authRegister` confuses the account kinds.** The schema requires a password
  exactly when `credentialAccount` is false, so `credentialAccount: true` marks
  an account without a password. `authRegister` creates its new accounts as
  `credentialAccount: true`, which agrees with the schema. When the e-mail
  already exists, however, it refuses accounts that have the flag (federated
  ones) and logs in accounts without it (password accounts), and it does so
  without any password. The design asks for the opposite. `AuthController.AuthRegister`
  states the code's behaviour.
- **`loginUser` compares the password for every account.** Federated accounts are
  not exempt. For an account with no stored hash, `bcrypt.compare` throws and the
  handler answers 500. The lookup is `$or` on e-mail and username; it does not
  first choose one key by the e-mail's syntax.
- **`verifyEmail` reads the session cookie.** It never reads the token embedded in
  the verification link, so that token is never consulted and is not single-use.
- **`trim` runs before validation and in lookups, but not in patterns.** A sign-up
  with `" ada@x.io"` is stored as `"ada@x.io"`, and `"bob "` is the taken name
  `"bob"` at registration, login, `getUser` and `updateRole`, because Mongoose casts query filters through
  the setters. The case-insensitive username pattern of update-info is built from
  the raw text, so there `"bob "` matches no one, and the update then stores
  `"bob"`, where the unique index can refuse it.
- **Username uniqueness is case-sensitive** at registration (exact `findOne`) and
  at the unique index. `updateUserInfo` alone compares usernames ignoring case.
- **`superAdmin` is not in the role enumeration.** `updateRole` grants permission
  to it, but no stored document can hold it (`Database.NoStoredSuperAdmin`).
- **The update and delete question routes run no token check.** So `req.user` is
  absent:
  - the update throws inside its error guard and answers 500;
  - the delete reads `req.user.id` before its guard, so the handler's promise rejects
    and this handler sends no response. What follows depends on the versions: Express 4
    ignores the rejection, and with no `unhandledRejection` handler in app.js, Node 15
    and later then stop the server process. Express 5 would answer 500 instead;
  - the callers are therefore `Option`s.
- **`sendVerificationEmail` is not exported from controller/auth.js.** In
  controller/user.js it is `undefined`. An update-info request that sets the
  e-mail therefore writes the update and then answers 500.
- **Update validators run only on the paths an update sets.** Clearing
  `credentialAccount` on a password-less account is accepted, and it leaves a
  document that a full save would refuse. `verified: true` can be set through
  update-info. The 200 reply of update-info returns the whole document, password
  hash included.
- **A toggled preference is a category id.** `updatePreferredCategories` pushes a
  category id into a path whose enumeration admits only subject names, so adding
  a category fails validation (500) unless its id happens to be a subject name.
  Removing a preferred id and adding it back moves it to the end of the list.

## Model

| member | source | states |
|---|---|---|
| Basics.WithoutMembers | controller/category.js:75-77 | removing an id keeps every other entry and nothing else, and never lengthens the list |
| Text.Lower | controller/question.js:48 | case folding keeps the length and folds each character on its own |
| Text.ContainsIffOccurs | controller/question.js:48 | the substring scan succeeds exactly when the term occurs at some position of the content |
| Text.Split | controller/question.js:58 | splitting always yields at least one piece, as JavaScript's `split` does |
| Text.JoinSplit | controller/question.js:58 | joining the pieces of a split with the separator gives the original string back |
| Text.SplitPiecesAvoidSeparator | controller/question.js:58 | no piece of a split contains the separator |
| Text.Trim | model/userSchema.js:11 | trimming leaves neither end white space and leaves an already trimmed string as it is |
| Text.TrimRemovesOnlyEndSpace | model/userSchema.js:18 | trimming removes an all-space prefix and an all-space suffix and keeps everything between them |
| Crypto.Hash | model/userSchema.js:116-119 | a hash carries the `$2b$10$` cost header |
| Crypto.HashInjective | model/userSchema.js:116-119 | two passwords with the same hash are equal |
| Crypto.CompareIffSamePassword | controller/auth.js:206 | comparing a password with a stored hash succeeds exactly for the password the hash was made from |
| Crypto.HashNonEmpty | model/userSchema.js:47-50 | a hashed password is non-empty, so it still satisfies `required` |
| Tokens.Sign | controller/auth.js:147-151 | a signed token carries exactly the given claims, is issued at the current second and lives for the given number of seconds |
| Tokens.SignVerify | middleware/verify.js:12 | a token signed with the secret verifies to its claims until its lifetime runs out, and then fails as expired |
| Tokens.ForeignSecretRejected | middleware/verify.js:12 | a token signed with another secret always fails with a bad signature |
| Tokens.TamperedClaimsRejected | middleware/verify.js:12 | changing the claims of a genuine token (raising its role, say) makes its signature fail |
| Tokens.OneDayLifetime | controller/auth.js:217-221 | a session token is accepted 23 hours after issue and refused as expired 25 hours after |
| UserSchema.ValidEmailIffPattern | model/userSchema.js:19-24 | the e-mail check accepts exactly the strings of the form local@domain.top with non-empty parts that contain no white space and no `@` |
| UserSchema.ValidEmailHasNoSpace | model/userSchema.js:21 | an accepted address contains no white space anywhere |
| UserSchema.ValidEmailIsTrimmed | model/userSchema.js:18-21 | the `trim` setter leaves an accepted address unchanged |
| UserSchema.SetterUnpadsAddress | model/userSchema.js:18-21 | an accepted address padded with white space at both ends is turned back into the address by the setter, so the validator accepts it |
| UserSchema.PasswordRequirement | model/userSchema.js:47-50 | a document without a password is valid exactly when it is marked as a credential account |
| UserSchema.PreSave | model/userSchema.js:114-124 | the hook changes at most the password path |
| UserSchema.SaveWithoutPasswordChangeKeepsHash | model/userSchema.js:116-119 | a later save that does not touch the password keeps the hash, which still matches the original password |
| UserSchema.PreSaveKeepsValidity | model/userSchema.js:114-124 | hashing keeps a valid document valid |
| QuestionSchema.NewQuestion | model/questionSchema.js:37-50 | a new question is owned by the poster, stamped with the current time, and has no tags when none are sent |
| Ordering.WhereMembers | controller/question.js:64 | a filter keeps exactly the matching documents, each at most as often as before |
| Ordering.SortPermutes | controller/question.js:66 | sorting by creation time returns a permutation of its input |
| Ordering.SortSorted | controller/question.js:66 | sorting returns the documents in the requested order of creation time |
| Ordering.ListingMembers | controller/question.js:64 | the collection in natural order holds exactly the stored documents whose ids it lists, each once |
| Ordering.QueryDistinct | controller/question.js:64-66 | a filtered and sorted query keeps distinct documents distinct |
| Ordering.QueryExact | controller/question.js:64-66 | a query returns exactly the stored documents the filter keeps, each once, in the requested order |
| Database.StoreKeepsAccountsUnique | model/userSchema.js:8-25 | writing an account that clashes with no other keeps usernames and e-mails unique |
| Database.StoreAccount | model/userSchema.js:8-25 | writing an account that passes the path validators and clashes with no other keeps every account valid |
| Database.Store.constructor | model/userSchema.js:127 | an empty database is valid |
| Database.Store.SaveUser | model/userSchema.js:113-124 | `save()` refuses an invalid document, then a unique-key clash, and otherwise stores the hooked document; nothing else changes |
| Database.Store.UpdateUser | controller/user.js:199-202 | an update refuses a document failing a path validator, then a clash, and otherwise stores it as is, without the hook |
| Database.Store.SaveQuestion | controller/question.js:23 | a question is stored exactly when it is valid; a new one goes to the end of the natural order |
| Database.Store.DeleteQuestion | controller/question.js:168 | deleting removes the question and its id from the order, and nothing else |
| Database.Store.SaveCategory | controller/category.js:12-13 | a category is stored when its name is present and not taken |
| Database.Store.SendVerificationEmail | controller/auth.js:9-40 | one message is queued, with a one-hour token carrying only the id |
| Database.ListingIsCollection | controller/question.js:64 | in a valid store the natural order lists every stored question exactly once |
| Database.NoStoredSuperAdmin | model/userSchema.js:59-63 | a valid store holds no account with the role `superAdmin` |
| Database.StoredQuestionsBounded | model/questionSchema.js:4-55 | every question in a valid store has at most three tags from the vocabulary, at most 300 characters of content and one of the ten subjects |
| Database.StoredKeysTrimmed | model/userSchema.js:8-18 | no username or e-mail address in a valid store starts or ends with white space |
| Database.AccountKeysIdentify | model/userSchema.js:8-25 | in a valid store a username, and likewise an e-mail address, names at most one account |
| Http.RegistrationHidesPassword | controller/auth.js:165-180 | the registration body is the same whatever the password, verification state and account kind |
| Http.ProfileHidesOnlyPassword | controller/user.js:12 | two documents give the same own-profile view exactly when they differ at most in the password |
| Http.PublicHidesSensitivePaths | controller/user.js:38-40 | the public view does not depend on password, notification preferences, preferred categories, account kind or verification |
| VerifyMiddleware.Exchange.constructor | middleware/verify.js:3 | a fresh exchange has no user, no response and no `next()` call |
| VerifyMiddleware.Gate | middleware/verify.js:3-20 | a refused cookie gets a 401 and nothing else; an accepted one sets `req.user` to its claims and calls `next()` once |
| VerifyMiddleware.MissingCookieRefused | middleware/verify.js:6-9 | without a cookie the gate refuses with "Authentication token missing" |
| VerifyMiddleware.FailuresIndistinguishable | middleware/verify.js:16-19 | every verification failure gets the same reply, whatever its cause |
| VerifyMiddleware.AdmitsExactlyVerifiedTokens | middleware/verify.js:12-15 | the gate admits exactly the cookies that verify, passing on their claims |
| AuthController.NotificationsFrom | controller/auth.js:127-131 | each notification flag not sent defaults to true |
| AuthController.CredentialAccountFor | controller/auth.js:120-141 | a registered account is unverified and a password account, with role `student` unless one is sent and no preferences unless some are sent; username, e-mail, class and school are stored trimmed |
| AuthController.FederatedAccountFor | controller/auth.js:297-311 | a federated account has no password, is marked as a credential account and is unverified, with the schema's defaults for what is not sent; username, e-mail, class and school are stored trimmed |
| AuthController.SessionToken | controller/auth.js:147-151 | the session token carries id, role and username and lasts one day |
| AuthController.FederatedToken | controller/auth.js:290-291 | the federated token carries id and role only and lasts twelve hours |
| AuthController.RegisterUser | controller/auth.js:92-185 | a taken e-mail is a 400, then a taken username; the reply is 201 exactly when neither (compared after trimming) is taken and the trimmed document is valid; it then stores the hashed account under the trimmed username and e-mail, sets the session cookie, queues the mail and returns the account without its password; a failed save is a 500; nothing changes otherwise |
| AuthController.LoginUser | controller/auth.js:192-241 | a 404 exactly when no account matches the trimmed e-mail or username; when one account matches, a missing password on either side is a 500, a wrong password a 401 and the right one a 200 that records only the login time and sets a one-day session cookie; any 200 or 401 comes from such a comparison |
| AuthController.Authenticate | controller/auth.js:205-236 | for the account found, a missing password on either side is a 500 ("Server error"), a wrong one a 401, and the right one a 200 that records only the login time and sets a one-day session cookie |
| AuthController.RecordLogin | controller/auth.js:212-214 | recording a login changes only `lastLogin` of that account |
| AuthController.Logout | controller/auth.js:245-255 | logout is a 200 that clears the cookie and greets the caller by role |
| AuthController.LogoutDoesNotRevoke | controller/auth.js:245-255 | after logout clears the cookie, the same token still verifies to the same claims until it expires |
| AuthController.MinimalFederatedSignupAccepted | model/userSchema.js:55-94 | a federated sign-up sending only a username that is not all white space and a well-formed e-mail builds a valid document with the default preferences |
| AuthController.AuthRegister | controller/auth.js:258-332 | a missing e-mail is a 400; an existing account flagged as credential account is refused, any other existing one is logged in without a password; otherwise a 201 exactly when the new federated account is valid and clashes with none, and a failed save is a 500 with the cookie untouched |
| AuthController.VerifyEmail | controller/auth.js:43-87 | no cookie is a 400, a failing token a 500, an unknown id a 404, a verified account a 400; otherwise only `verified` is set and the caller is greeted by username, and a save the password requirement refuses is a 500 |
| AuthController.MarkVerified | controller/auth.js:74-85 | an unverified account is marked verified and greeted by username ("user" when empty) exactly when it meets the password requirement; otherwise a 500 and nothing changes |
| AuthController.RegisterThenVerifyTwice | controller/auth.js:43-87 | after registering, verification with the cookie succeeds once and the repeat is refused as already verified |
| AuthController.RegisterTwice | controller/auth.js:108-117 | two registrations sharing an e-mail or a username, also when one of them is padded with white space, cannot both succeed |
| UserController.StoredPathValue | controller/user.js:18 | a question document has no value at `user.username` |
| UserController.QueriedListAlwaysEmpty | controller/user.js:18 | the profile question query as written returns nothing, whatever is stored |
| UserController.QueriedListMissesOwnQuestion | controller/user.js:47 | for a user who posted a question, the intended list shows it and the written query does not |
| UserController.QuestionsOfExact | controller/user.js:17-18 | the intended profile list holds exactly the stored questions whose owner has the username, each once, oldest first |
| UserController.GetUserProfile | controller/user.js:7-30 | an unknown caller is a 404; otherwise the caller's document minus the password and the caller's questions |
| UserController.GetUser | controller/user.js:33-59 | the path parameter is trimmed by the username setter before the lookup; a name no account holds after trimming is a 404; otherwise the public view of the one account holding it and that account's questions |
| UserController.UpdatePassword | controller/user.js:62-90 | the refusals in source order; on success only the hash changes, the new password matches it and the old one does not |
| UserController.UpdateRole | controller/user.js:93-136 | an unknown role is a 400, a caller who is neither admin nor superAdmin a 403, a username no account holds after the `trim` setter a 404; otherwise only that account's role changes and the reply echoes the stored username and the new role |
| UserController.ApplyInfo | controller/user.js:140-191 | password and role are never updated; in the model, login time and notifications are kept as well; a truthy e-mail or username replaces the stored one, trimmed; `verified` and `credentialAccount` take what is sent; a trimmed document stays trimmed |
| UserController.InfoValidatorsExact | controller/user.js:199-202 | validating only the set paths accepts exactly the updates whose result passes every path validator |
| UserController.ClearingCredentialFlagIsAccepted | controller/user.js:199-202 | clearing `credentialAccount` on an account without a password passes the update validators but leaves a document a full save refuses |
| UserController.SelfVerificationIsAccepted | controller/user.js:140 | sending `verified: true` marks the account verified without the e-mail round trip |
| UserController.ScreenInfo | controller/user.js:146-191 | role or password sent, a bad gender, a bad e-mail, an e-mail held by another account and a username held by another account (case ignored) are refused with 400 in that order |
| UserController.InfoOutcome | controller/user.js:193-228 | the reply is 200 exactly when the update is written and sets no e-mail; a value its path cannot cast or a failed validator answers 500, and so does a written e-mail change; no keys is a 400; a 200 returns the document with its hash |
| UserController.CommitInfo | controller/user.js:193-228 | the reply is the outcome above; the account is updated exactly when the update is written |
| UserController.UpdateUserInfo | controller/user.js:138-229 | every refusal of the checks, then the outcome of the update; the store changes only by that update, and a 200 returns the stored document |
| QuestionController.PostQuestion | controller/question.js:3-33 | a caller without an id is a 400; otherwise the question is stored and returned with 201 exactly when it is valid, and any save failure is a 400 |
| QuestionController.GetAllQuestions | controller/question.js:38-75 | the listing is always a 200 with the matching questions |
| QuestionController.SearchResultsExact | controller/question.js:41-66 | the listing holds exactly the stored questions matching search, subject and every tag, each once, newest first |
| QuestionController.UnfilteredListsEverything | controller/question.js:44-66 | with no parameters every stored question is listed exactly once |
| QuestionController.SearchIgnoresCase | controller/question.js:48 | a search term matches the same questions as its lower-cased form |
| QuestionController.TwoTagFilter | controller/question.js:57-60 | `tags=a,b` keeps exactly the questions carrying both tags |
| QuestionController.SplitAround | controller/question.js:58 | `a,b` splits into `a` and `b` |
| QuestionController.GetQuestionById | controller/question.js:80-96 | an unknown id is a 404, a stored one is returned with 200 |
| QuestionController.PostThenRead | controller/question.js:3-96 | a posted question reads back as it was saved and is listed |
| QuestionController.UpdateQuestion | controller/question.js:100-143 | no caller is a 500; then the checks in source order; only the owner's valid update is written, keeping owner and creation time |
| QuestionController.DeleteQuestion | controller/question.js:150-175 | no caller sends no reply; an unknown question is a 404, a dangling owner a 500, another user a 403; the owner's delete removes exactly that question from the listing |
| CategoryController.CreateCategory | controller/category.js:4-18 | a missing name is a 400; a 201 exactly when the name is not taken, and a taken name is a 500 |
| CategoryController.CreateTwice | model/categoriesSchema.js:8 | creating the same name twice fails the second time |
| CategoryController.CreateCaseVariant | model/categoriesSchema.js:5-9 | once "Physics" is created, "physics" is created as a further category: the unique index compares names exactly |
| CategoryController.GetUserPreferences | controller/category.js:31-47 | an unknown caller is a 404; otherwise the stored preferences |
| CategoryController.ToggleMembers | controller/category.js:72-80 | a toggle keeps the other entries and holds the id exactly when it did not before |
| CategoryController.ToggleAbsentTwice | controller/category.js:72-80 | toggling an absent id twice restores the list exactly |
| CategoryController.TogglePresentTwice | controller/category.js:72-80 | toggling a present id twice restores the entries of a list without repetitions |
| CategoryController.ToggleTwiceReorders | controller/category.js:72-80 | the order is not restored: `[a, b]` toggled twice on `a` is `[b, a]` |
| CategoryController.UpdatePreferredCategories | controller/category.js:51-94 | a missing id is a 400, an unknown caller or category a 404; the toggled document is saved when valid, otherwise 500, and adding an id that is not a subject name is always a 500 |
| TimelineController.GetTimeline | controller/timeline.js:4-35 | an unknown caller is a 404, no preferences a 400; a 200 exactly otherwise, with the questions in the preferred subjects |
| TimelineController.TimelineExact | controller/timeline.js:21-24 | the timeline holds exactly the stored questions in a preferred subject, each once, newest first |

## Left out

- Lengths count characters, not UTF-16 code units. Case folding is ASCII only.
- Regular expressions built from request text are taken literally. This affects the username check (controller/user.js:183) and the search (controller/question.js:48); a term containing regex syntax behaves differently in the source.
- `badgeData`, `age`, `dateCreated` and the schema timestamps are not modelled as values. In update-info a key for one of them counts as a key (`otherKeys`) or, when its value cannot be cast to the path's type, as an uncastable key that makes the update a 500 (`uncastable`).
- AuthController.RegisterUser: a `badgeData` whose `badgesEarned` cannot be cast to a number makes the save fail with a 500 in the source; the sign-up body does not carry `badgeData`, so this failure is not modelled.
- AuthController.AuthRegister: passes the raw `badgeData` to `new User` as well (controller/auth.js:306), so an uncastable `badgesEarned` is a 500 there too; not modelled, for the same reason as in `RegisterUser`.
- UserController.ApplyInfo: the source writes `notificationPreferences` and `lastLogin` when update-info sends them; the model counts them as keys (`otherKeys`) and leaves both paths unchanged.
- `getAllCategories` (controller/category.js:21-28) is not modelled: it reads the collection and has no logic.
- A missing signing secret or mail configuration, and a failing database connection, are not modelled.
- ObjectId cast errors are not modelled: malformed ids behave like unknown ids.
- AuthController.LoginUser: when the e-mail names one account and the username another, either may be found, and only the status bounds are stated, because the model does not fix the order in which `findOne` returns documents.
- Crypto.CompareIffSamePassword: bcrypt reads only the first 72 bytes of a password, so in the source two passwords sharing those bytes both match one hash; the model's hash is injective and does not capture this.
- UserController.UpdatePassword: its clause that the old password no longer matches the new hash rests on the injective hash, so it holds in the source only when the two passwords differ within their first 72 bytes.
- UserController.GetUserProfile: returns the corrected question list (`QuestionsOf`) where the source returns the result of the query as written, which is empty or every question depending on `strictQuery`; see "## Findings".
- UserController.GetUser: returns the corrected question list, as for the own profile.
- QuestionController.DeleteQuestion: with no caller the model returns no reply; what the server process then does (stop on Node 15 and later with Express 4, a 500 with Express 5) is not modelled.
- UserController.UpdateUserInfo: when the sent username matches, ignoring case, both the caller's account and another, the outcome is left open, because the model does not fix the order in which `findOne` returns documents.
- Cookie attributes (`httpOnly`, `secure`, `sameSite`) are not modelled, nor is the cookie name beyond the gate.
- Mail delivery is not modelled; a queued message stands for a sent one, and delivery errors are swallowed in the source anyway.
- `populate` projections are not modelled; questions are returned with the owner's id.
- `tags` given as a repeated query parameter (an array) is not modelled; `tags` is a string.
- CategoryController.CreateCategory: the 500 message stands for the driver's error text, which the model does not spell out.
- Concurrency between requests is not modelled; each handler runs to completion on its own.

## Findings

| source | as written | input that shows it | evidently intended | confidence | as-written member | corrected member |
|---|---|---|---|---|---|---|
| controller/user.js:18 and 47 | the profile question lists query `{ "user.username": name }`, but a question's `user` path holds an ObjectId, not an embedded user, so no question matches | user "ada" (id u1) who posted question q1: the written query returns `[]` | the questions whose owner has that username, oldest first | not executed; what the source returns depends on Mongoose's `strictQuery` setting, and with that setting on the filter is dropped and every question is listed | UserController.QueriedListMissesOwnQuestion | UserController.QuestionsOfExact |

The handlers `UserController.GetUserProfile` and `UserController.GetUser` use the
corrected list.
