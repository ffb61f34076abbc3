# wishlist accounts, modelled in Dafny

This project models the account core of the wishlist service, a Go HTTP server
built on gin: the user entity and its validation rules, the bearer-token gate in
front of the protected routes, and the handlers that register a user, update a
profile, list users, log in, refresh a token and log out.

Layout, one module per file:

- `common.dfy` (`Common`): Go bytes and strings as `seq<byte>`, 64-bit
  wrap-around, `Option`.
- `text.dfy` (`Text`): the ASCII character classes the validators use, byte
  search and ASCII lower-casing.
- `base64.dfy` (`Base64Url`): URL-safe base64 encoding with padding (section 5 of
  RFC 4648), which the random-string helper applies to random bytes.
- `user_model.dfy` (`UserModel`): genders, the create and update requests and
  their validation, the user and its response view, and the user struct with its
  timestamp hooks as a class.
- `responses.dfy` (`Responses`): status codes and the JSON bodies the handlers
  write.
- `collaborators.dfy` (`Collaborators`): the users table, the password hasher
  and the token issuer as abstract collaborators, with the table's invariant.
- `auth_gate.dfy` (`AuthGate`): the gate as a method over gin's request context,
  and the typed identity lookups behind it.
- `account_user.dfy` (`AccountUser`): registration, profile update, listing and
  the random-string helper.
- `account_auth.dfy` (`AccountAuth`): login, token refresh and logout.

Each handler takes the bound request (or the binding failure), the table, the
collaborators and the clock reading as parameters. It returns the response it
writes and the collaborator calls it makes, in order. Handlers that write also
return the table afterwards. The table keeps its rows in insertion order. The
first matching row answers a lookup, and a set of queries can be made to fail
with a database error. The table does not enforce uniqueness itself.
`Collaborators.Consistent` states what it is meant to hold, and the handlers'
contracts show that registration and profile update keep it.

`validateGender` (src/model/user.go:192-203) has an error branch for a gender
that fails `IsValid`, with the text "gender must be one of: male, female,
unknown". That branch can never be taken: the function only tests the result of
`ParseGender`, and `IsValid` accepts every value `ParseGender` returns. The model
follows the code. `UserModel.ValidateGender` states that gender validation always
passes, and `UserModel.ValidGendersAreParseResults` shows why. An unknown gender
text is rejected only by the `oneof` binding tag (src/model/user.go:75 and :83),
and the model leaves binding out.

## Model

| member | source | states |
|---|---|---|
| UserModel.ParseGender | src/model/user.go:24-38 | the parsed gender always satisfies `IsValid` |
| UserModel.ValidGendersAreParseResults | src/model/user.go:24-38 | `IsValid` holds for a gender exactly when some text parses to it |
| UserModel.ParseGenderOfName | src/model/user.go:24-33 | parsing the name of any valid gender (male, female or unknown) gives that gender back |
| UserModel.ParseGenderIdempotent | src/model/user.go:24-33 | parsing the name of a parsed gender gives the same gender |
| UserModel.ParseGenderIgnoresCase | src/model/user.go:24-33 | two inputs with the same ASCII lower-case form parse to the same gender |
| UserModel.ParseGenderUpperExample | src/model/user.go:24-33 | "MALE" parses as male |
| UserModel.ParseGenderCapitalisedExample | src/model/user.go:24-33 | "Female" parses as female |
| UserModel.ValidateUsername | src/model/user.go:162-176 | passes exactly when the length is 3 to 50 and every byte is a letter, digit, `_` or `-`; each failure names the first rule broken |
| UserModel.UsernameExamples | src/model/user.go:162-176 | a two-byte username is rejected as too short, and one holding a space is rejected for its characters |
| UserModel.MatchesEmailIsPattern | src/model/user.go:107 | the byte-level email matcher accepts exactly the strings of the email regular expression: local part, `@`, domain, a dot, a top-level label of two or more letters |
| UserModel.ValidateEmail | src/model/user.go:179-189 | an email longer than 100 bytes fails as too long; otherwise it passes exactly when it matches the pattern, and fails the format rule when it does not |
| UserModel.EmailWithoutAtRejected | src/model/user.go:179-189 | any email of at most 100 bytes without `@` fails the format rule |
| UserModel.EmailEmptyLabelsExample | src/model/user.go:107 | the pattern admits empty domain labels such as "a@..com" |
| UserModel.ValidateGender | src/model/user.go:192-203 | gender validation never fails |
| UserModel.ValidatePassword | src/model/user.go:206-222 | passes exactly when the password has at least 8 bytes, an upper-case letter, a lower-case letter and a digit, with the first broken rule reported |
| UserModel.PasswordWithoutSpecialExample | src/model/user.go:206-222 | a password needs no special character |
| UserModel.ValidateCreate | src/model/user.go:112-130 | checks username, email, gender and password in that order and reports the first failing field and rule; valid exactly when all pass |
| UserModel.CreateValidIff | src/model/user.go:112-130 | a create request is valid exactly when each field validator passes |
| UserModel.ValidateUpdate | src/model/user.go:133-159 | checks only the fields present, in the same order, and reports the first failure, which is always on a present field |
| UserModel.EmptyUpdateIsValid | src/model/user.go:133-159 | an update with no fields is valid |
| UserModel.FullUpdateAgreesWithCreate | src/model/user.go:112-159 | an update carrying every field is judged exactly as the create request with the same values |
| UserModel.ToResponse | src/model/user.go:225-234 | the response copies the id, username, email, gender and both timestamps; its type has no field for the hash |
| UserModel.ResponseDeterminesAllButHash | src/model/user.go:225-234 | two users have the same response exactly when they differ at most in the password hash, so the response carries every field but the hash |
| UserModel.UserRecord.BeforeCreate | src/model/user.go:237-241 | both timestamps become the given time and nothing else changes |
| UserModel.UserRecord.BeforeUpdate | src/model/user.go:244-246 | the update timestamp becomes the given time and nothing else changes |
| Base64Url.Encode | src/module/account/action/user.go:200-216 | the encoding has 4 characters per started group of 3 bytes; the first ceil(4n/3) characters are in the URL-safe alphabet and the rest are `=` |
| Base64Url.EncodedPrefixInAlphabet | src/module/account/action/user.go:200-216 | the encoding of n bytes is at least n long and its first n characters are in the alphabet, so the helper's cut is in bounds |
| Collaborators.UsernameTaken | src/repository/user_repository.go:255-266 | a database error is reported as an error; otherwise true exactly when some row has the username |
| Collaborators.EmailTaken | src/repository/user_repository.go:269-280 | a database error is reported as an error; otherwise true exactly when some row has the email |
| Collaborators.FirstIndex | src/repository/user_repository.go:54-141 | finds the first row the id or email selects, or reports that none matches |
| Collaborators.FindById | src/repository/user_repository.go:54-81 | nothing is found exactly when the query fails or no row has the id; otherwise the row found is in the table and has the id |
| Collaborators.FindByEmail | src/repository/user_repository.go:114-141 | nothing is found exactly when the query fails or no row has the email; otherwise the row found is in the table and has the email |
| Collaborators.FindByEmailUnique | src/repository/user_repository.go:114-141 | in a consistent table the lookup by email finds a row exactly when one has that email, and it is that row |
| Collaborators.Insert | src/repository/user_repository.go:25-51 | unless the insert fails, appends the user under the next serial id, returns that id and advances the serial |
| Collaborators.Replace | src/repository/user_repository.go:144-179 | fails on a database error or when no row has the id; otherwise replaces the row with that id and leaves the others |
| Collaborators.InsertConsistent | src/database/migrations.go:15-57 | inserting a user with a valid gender and a fresh username and email keeps the table's uniqueness and gender constraints |
| Collaborators.ReplaceConsistent | src/database/migrations.go:15-57 | replacing a row by one with a valid gender whose username and email no other row has keeps the constraints |
| AuthGate.SplitOnce | src/auth/middleware.go:22 | splitting at the first space gives the whole string when it has no space, otherwise the parts before and after that space |
| AuthGate.SplitOnceBearer | src/auth/middleware.go:22-27 | the split gives "Bearer" and a token exactly when the header starts with "Bearer ", and the token is the rest of the header |
| AuthGate.Decide | src/auth/middleware.go:11-44 | an empty header, a header not starting with "Bearer ", and a token the validator rejects are each refused; the request is admitted exactly when the validator accepts the token, with its claims |
| AuthGate.Authenticate | src/auth/middleware.go:11-44 | an admitted request gets the identity stored and the chain continues; a refused one gets a 401 with the refusal text, is aborted, and no key is stored |
| AuthGate.GetUserID | src/auth/middleware.go:47-54 | gives the stored id and true only when the key holds an int; otherwise 0 and false |
| AuthGate.GetUsername | src/auth/middleware.go:57-64 | gives the stored username and true only when the key holds a string; otherwise "" and false |
| AuthGate.GetEmail | src/auth/middleware.go:67-74 | gives the stored email and true only when the key holds a string; otherwise "" and false |
| AuthGate.WithIdentity | src/auth/middleware.go:38-40 | the three identity keys are set to the claims' id, username and email; every other key keeps its value |
| AuthGate.IdentityRoundTrip | src/auth/middleware.go:38-74 | the lookups give back exactly the identity the gate stored, whatever the context held before |
| AuthGate.AdmittedIdentity | src/auth/middleware.go:11-74 | an admitted header starts with "Bearer ", and the handlers behind the gate read the token's identity |
| AccountUser.CreateUser | src/module/account/action/user.go:26-113 | a binding failure gives 400; an invalid request gives 400 with the validator's details text; neither makes a collaborator call or a change; a valid one registers; registration keeps the table consistent |
| AccountUser.Registered | src/module/account/action/user.go:90-96 | the new row has the next serial id, the requested username and email, a valid gender, the hash, and both timestamps equal to the clock reading |
| AccountUser.Register | src/module/account/action/user.go:48-111 | the calls are the username query, the email query once the username is free, the hashing once both are free, and the insert once hashed; each failed query, the hash and the insert give their own 500, a taken value its 409; 201 exactly when every step succeeds, and then the table gains the row the response shows; otherwise the table is unchanged |
| AccountUser.CheckAvailability | src/module/account/action/user.go:52-77 | the email is queried only when the username is free; the refusal is 500 on a query error and 409 when taken |
| AccountUser.UpdateProfile | src/module/account/action/user.go:252-366 | no identity gives 401; a binding failure gives 400, and an invalid update 400 with the validator's details text; a lookup by id that finds nothing (no such row or a database error) gives 404; none of these writes; otherwise the lookup is the first call and the merge stage follows as ApplyUpdate states; the table stays consistent |
| AccountUser.Merged | src/module/account/action/user.go:297-349 | the merged row keeps the id and creation time and takes the write time; a requested gender is valid; an empty update changes only the write time |
| AccountUser.ApplyUpdate | src/module/account/action/user.go:297-364 | the calls are the query of a changed username, then of a changed email, the hashing of a new password and the write, each only once the step before succeeded; each failed query, the hash and the write give their own 500, a taken value its 409; 200 exactly when every step succeeds, and then the merged row is written and returned; otherwise the table is unchanged |
| AccountUser.NameRefusalMerges | src/module/account/action/user.go:297-309 | a refused username ends the merge with its query as the only call and no write |
| AccountUser.EmailRefusalMerges | src/module/account/action/user.go:314-326 | a refused email, after a free username, ends the merge with the queries made so far and no write |
| AccountUser.FinishMerges | src/module/account/action/user.go:331-364 | the hashing and the write, after the username and email are settled, complete the merge's calls and answers |
| AccountUser.ClaimUsername | src/module/account/action/user.go:297-311 | a present username that differs from the stored one is queried; 409 when taken, 500 on error, otherwise it is taken over |
| AccountUser.ClaimEmail | src/module/account/action/user.go:314-328 | a present email that differs from the stored one is queried; 409 when taken, 500 on error, otherwise it is taken over |
| AccountUser.FinishUpdate | src/module/account/action/user.go:331-364 | hashes a new password, then writes the row with the gender and hash applied; a hashing failure gives the hash 500 and no write; a database error or a missing row gives the update 500; otherwise 200 with the written row; the record ends as that row, or, after a hashing failure, as before with only the gender applied |
| AccountUser.MergeKeepsConsistent | src/module/account/action/user.go:297-358 | a merged user whose new username and email passed the checks keeps the table consistent |
| AccountUser.ListUsers | src/module/account/action/user.go:173-197 | 500 exactly when the query fails; otherwise the count is the number of rows and the i-th user is the response of the i-th row |
| AccountUser.GenerateRandomString | src/module/account/action/user.go:200-216 | the prefix alone when the length does not exceed it; otherwise the result has the requested length, starts with the prefix, and the rest is URL-safe base64 |
| AccountUser.TestUsernameIsFixed | src/module/account/action/user.go:119 | the generated test username is "testuser" whatever the random bytes |
| AccountUser.TestEmailValid | src/module/account/action/user.go:120 | the generated test email passes email validation for any random bytes |
| AccountUser.TestPasswordValid | src/module/account/action/user.go:121 | the fixed test password passes password validation |
| AccountUser.TestUsernameValid | src/module/account/action/user.go:119 | the test username passes username validation |
| AccountUser.TestCredentialsValid | src/module/account/action/user.go:116-170 | the test user's credentials pass create validation for any random bytes |
| AccountAuth.ExpiresIn | src/module/account/action/auth.go:81 | the lifetime in seconds is hours times 3600, wrapped to a Go int64 |
| AccountAuth.DefaultExpiresIn | src/app/config.go:14 | the default 24 hours is 86400 seconds |
| AccountAuth.Login | src/module/account/action/auth.go:28-86 | binding failure 400 with no call; 401 with one message exactly when the email is unknown or the password does not match; the calls are the lookup, the password check once a user is found, and the token request exactly when both succeed, for that user; 500 with its message exactly when signing fails; 200 exactly when the request authenticates and is signed, with token, user, lifetime and "Bearer" |
| AccountAuth.LoginRefusedIff | src/module/account/action/auth.go:45-59 | in a consistent table a login is refused exactly when no row has the email or the password does not match that row |
| AccountAuth.LoginHidesWhichCredentialFailed | src/module/account/action/auth.go:45-59 | an unknown email and a wrong password give the same response |
| AccountAuth.Logout | src/module/account/action/auth.go:89-100 | always 200 with the logout message and no collaborator call |
| AccountAuth.RefreshToken | src/module/account/action/auth.go:103-153 | 401 with no call exactly when any identity lookup fails; with a full identity the only call is a token request for it; 500 with its message exactly when signing fails; 200 exactly when the identity is full and signed, with token, lifetime and "Bearer" |
| AccountAuth.RefreshAfterGate | src/module/account/action/auth.go:103-153 | behind an admitted gate, refreshing issues a token for exactly the identity the incoming token carried |

## Left out

- gin's JSON binding is not modelled. The body either binds or fails, so the `binding` tags (`required`, `email`, `min`, `max`, `oneof`) are not modelled. The `oneof` tag is the only thing that rejects an unknown gender.
- The bcrypt hasher and checker are oracles. Cost factor and hash format are not modelled.
- The JWT manager is an oracle. The token format, signing, expiry and refresh-token checks are not modelled.
- SQL is abstract. The schema's UNIQUE and `check_gender` constraints, column widths, `ORDER BY created_at DESC` in `List`, and the repository's log lines are not modelled. The table keeps insertion order and enforces nothing.
- Collaborator error texts echoed under "details" are not modelled. The validation details text is.
- The repository's `Update` stamps `updated_at` with its own clock. The model gives it a separate time parameter.
- `time.Now` and `crypto/rand` are parameters. When `crypto/rand` fails, the source ignores the error; the model takes the bytes as given.
- AccountUser.GenerateRandomString: with an empty prefix, a negative length makes `make` panic in the source. The precondition excludes that call instead of modelling the panic.
- ParseGender: `strings.ToLower` is modelled as ASCII lower-casing. No non-ASCII character lowers to a letter of "male" or "female", so no result changes.
- ActionGetProfile, ActionPing, the database test actions, and the email-verification placeholders are not part of this model. ActionCreateTestUser is modelled only through its generated credentials.
- ActionCreateTestUser (src/module/account/action/user.go:116-170) never calls `Validate` or `ParseGender`, so the user it inserts has the empty gender. The `check_gender` constraint (src/database/migrations.go:54-55) admits only "male", "female" and "unknown", so that insert fails in a real database and the endpoint answers 500. The model leaves this endpoint's insert out and proves only that its credentials pass `ValidateCreate`.
- `Value`/`Scan` JSON column conversion, the `String` method, application wiring, routes, configuration loading and database setup are not part of this model.
- Concurrency is not modelled. Two requests racing between the availability check and the insert could still collide in the real service.
