# DocuMind in Dafny

This project models the decision logic of DocuMind (DocIntel), a document-intelligence web application. It covers both halves.

**Backend (Express + Mongoose).** Users register, log in and manage a profile. Authenticated users upload PDF and Word files, list them, fetch, download and delete them, and ask questions about them. The model covers:
- the two Mongoose schemas (`User`, `Document`) with their setters, validators, defaults and unique index;
- the bearer-token `protect` middleware;
- the multer upload configuration: allow-list, stored file name, destination and size limit;
- the three controllers.

**Frontend (React).** The model covers:
- the authentication context and the sign-in page;
- the account page's form logic;
- the question box;
- the upload hook;
- two small classifiers: the progress-bar band and the metric-card trend.

Every request handler is a pure function:
- It takes the state it reads: the user collection as a sequence, the document collection as a map from id to record, and the set of files on disk.
- It returns the state afterwards and either a reply (status and data) or the error it passes to `next`.
- Errors raised with an explicit status are `Http(status, message)`.
- Errors raised by the libraries are kept distinct: `Invalid` for a schema validation error, `Duplicate` for a unique-index violation, `FileTooLarge` for the multer limit and `MissingRecord` for saving a deleted record.

The following are parameters:
- bcrypt is an uninterpreted `hash`; `compare(p, h)` holds exactly when `hash(p) == h`.
- JWT signing and verification are a `sign` function and a partial `verify` returning `Option<Payload>`.
- `Date.now`, `Math.random`, `JSON.stringify`/`JSON.parse` and `path.join`.

The upload hook's type fallback follows the code. It gives "UNKNOWN" for an empty name, and also for a name ending in a dot, whose last dot-separated piece is empty.

The e-mail pattern `^\w+([.-]?\w+)*@\w+([.-]?\w+)*(\.\w{2,3})+$` is written as recursive string predicates. They are proved equal to a non-recursive description of the accepted addresses.

Modules, one per source file, plus four helpers:

| module | file | models |
|---|---|---|
| Wrappers | wrappers.dfy | `Option`, `Result`, `ApiError`, `Reply`, `Step` |
| Text | text.dfy | `trim`, ASCII case mapping, `split`/`join`, `startsWith`, decimal rendering, `parseInt` |
| Email | email.dfy | the schema's e-mail pattern |
| Jwt | utils/jwt.ts | the token payload and what it means for `sign` and `verify` to agree |
| Users | models/User.ts | user schema, pre-save hook, `matchPassword`, lookups, `save` |
| Documents | models/Document.ts | document schema, status enum, defaults, `create` |
| AuthMiddleware | middleware/auth.ts | `protect` |
| UploadMiddleware | middleware/upload.ts | `fileFilter`, `filename`, `destination`, limits, `path.extname` |
| DocumentController | controllers/documentController.ts | upload, processing, list, get, delete, download, ask |
| AuthController | controllers/authController.ts | register, login, getMe, logout |
| UserController | controllers/userController.ts | updateProfile, changePassword |
| AuthContext | contexts/AuthContext.tsx | the client's user-state machine and its `localStorage` mirror |
| LoginPage | pages/LoginPage.tsx | submit validation order, demo login, mode toggle |
| UserAccountPage | pages/UserAccountPage.tsx | input change, profile update, password change, initials |
| QABox | components/QABox.tsx | idle, loading, answered and failed states; button enabling |
| UseUpload | hooks/useUpload.ts | new-document construction, cache prepend |
| ProgressBar | components/ProgressBar.tsx | colour band |
| MetricCard | components/MetricCard.tsx | trend colour, arrow and magnitude |

## Model

| member | source | states |
|---|---|---|
| Users.RoleRoundTrip | docintel-backend/src/models/User.ts:38-42 | a role is stored by its name and read back; only "User" and "Admin" are roles |
| Users.NormalizeEmailFacts | docintel-backend/src/models/User.ts:21-26 | the `lowercase` and `trim` setters commute; the stored address is no longer than the input and holds no upper-case letter |
| Users.NormalizeName | docintel-backend/src/models/User.ts:16-20 | the trimmed name is empty exactly when the input is all whitespace, which the `required` validator then refuses |
| Users.NormalizeNameIdempotent | docintel-backend/src/models/User.ts:19 | trimming a stored name again changes nothing |
| Users.NormalizeEmailIdempotent | docintel-backend/src/models/User.ts:25-26 | normalising a stored address again changes nothing, so lookups by a stored address find it |
| Users.SchemaErrors | docintel-backend/src/models/User.ts:16-37 | the failing paths: "name" iff the name is empty, "email" iff the pattern refuses the address, "password" iff a newly set password is shorter than 8 |
| Users.EmptyEmailInvalid | docintel-backend/src/models/User.ts:21-30 | an empty address never passes the pattern, so `required` adds no case of its own |
| Users.PreSave | docintel-backend/src/models/User.ts:50-57 | the corrected hook: a newly set password is stored hashed; otherwise the stored hash is kept |
| Users.PreSaveAsWritten | docintel-backend/src/models/User.ts:50-57 | the hook as written: a newly set password is stored hashed, and an unmodified one is hashed again |
| Users.PreSaveAsWrittenLocksOut | docintel-backend/src/models/User.ts:51-56 | when hashing the stored hash changes it, re-saving a user under the hook as written makes their password stop matching |
| Users.PreSaveAsWrittenCounterexample | docintel-backend/src/models/User.ts:51-56 | a concrete user whose correct password stops matching after one save under the hook as written |
| Users.PreSaveKeepsLogin | docintel-backend/src/models/User.ts:50-64 | under the corrected hook, a save that does not touch the password keeps exactly the same passwords accepted |
| Users.PreSaveSetsLogin | docintel-backend/src/models/User.ts:50-64 | after a password is set, `matchPassword(p)` holds exactly when p hashes like the new password |
| Users.IndexOfId | docintel-backend/src/controllers/userController.ts:16 | `findById` finds the first record with the id, or reports that none has it |
| Users.IndexOfEmail | docintel-backend/src/controllers/authController.ts:18 | `findOne({ email })` finds the first record with the address, or reports that none has it |
| Users.Put | docintel-backend/src/controllers/userController.ts:25 | writing a record replaces the one with its id or appends it; every other record is untouched |
| Users.Save | docintel-backend/src/models/User.ts:14-57 | `save()`: validation errors first, then the unique index on email; on success a new or modified record is written with the password the corrected hook `PreSave` yields and `updatedAt` stamped now, while a save that modifies nothing writes nothing and keeps `updatedAt` |
| Users.UnmodifiedSaveRewritesSame | docintel-backend/src/models/User.ts:43-57 | a save that modifies nothing leaves the collection as it was, the stored password and `updatedAt` included |
| Users.SavePreservesWellFormed | docintel-backend/src/models/User.ts:21-45 | a successful save keeps ids and addresses unique and every record in schema shape |
| Users.PutPreservesWellFormed | docintel-backend/src/models/User.ts:24 | writing a schema-shaped record whose address no other record holds keeps the collection well formed |
| Users.StoredValidates | docintel-backend/src/models/User.ts:16-37 | a stored record passes validation again unless a too-short password is being set |
| Users.ReplacePreservesWellFormed | docintel-backend/src/models/User.ts:24 | replacing a record in place with a shaped one whose address is free keeps the collection well formed |
| Users.FindByEmailUnique | docintel-backend/src/models/User.ts:24 | with unique addresses, looking up any spelling that normalises to a stored address finds that record |
| Email.ValidEmailIsShape | docintel-backend/src/models/User.ts:27-30 | the pattern accepts exactly the strings with a word-started, word-ended local part and domain, no two separators side by side, and a final dot with two or three word characters |
| Email.ValidEmailFacts | docintel-backend/src/models/User.ts:27-30 | an accepted address has exactly one '@', starts with a word character and ends with a 2–3 character top-level part |
| Email.DemoAddressAccepted | docintel-backend/src/models/User.ts:28 | "demo@example.com" is accepted |
| Email.OneLetterTldRefused | docintel-backend/src/models/User.ts:28 | a one-character top-level part is refused |
| Email.FourLetterTldRefused | docintel-backend/src/models/User.ts:28 | a four-character top-level part is refused |
| Email.DoubleDotRefused | docintel-backend/src/models/User.ts:28 | two separators in a row are refused |
| Documents.StatusRoundTrip | docintel-backend/src/models/Document.ts:32-35 | a status is stored by name and read back; exactly "queued", "processing", "processed" and "error" are statuses |
| Documents.RequiredErrors | docintel-backend/src/models/Document.ts:24-53 | each required path (name, originalName, type, path, user) fails exactly when it is missing; the sixth, `size`, is a number multer always supplies, so it never fails |
| Documents.Create | docintel-backend/src/models/Document.ts:24-76 | `create` refuses exactly the drafts with missing paths; otherwise the record carries the draft's fields, `uploadedAt` and both timestamps are now, and the optional fields are absent |
| Documents.MarkProcessed | docintel-backend/src/controllers/documentController.ts:32-36 | processing sets status "processed", `processedAt` and `updatedAt`, and no other field |
| Documents.MarkProcessedTwice | docintel-backend/src/controllers/documentController.ts:32-36 | processing the same record twice at the same time is the same as once |
| AuthMiddleware.ExtractToken | docintel-backend/src/middleware/auth.ts:14-19 | a token is found only in a header starting with "Bearer"; it is non-empty and holds no space |
| AuthMiddleware.ExtractTokenOfBearer | docintel-backend/src/middleware/auth.ts:18 | the token is the second space-separated field: "Bearer t …" yields t |
| AuthMiddleware.ExtractTokenRejects | docintel-backend/src/middleware/auth.ts:14-23 | no header, an empty header, "Bearer", "Bearer " and a non-Bearer scheme all yield no token |
| AuthMiddleware.Project | docintel-backend/src/middleware/auth.ts:34-39 | `req.user` carries the user's id, email, name and role, and nothing else |
| AuthMiddleware.Protect | docintel-backend/src/middleware/auth.ts:11-47 | the request passes exactly when a token is found, verifies, and names an existing user, who is then projected; every failure is 401 "Not authorized to access this route" |
| AuthMiddleware.Authenticate | docintel-backend/src/middleware/auth.ts:25-44 | the inner block fails with 401 both when verification fails and when the user is missing |
| AuthMiddleware.ProtectNever404 | docintel-backend/src/middleware/auth.ts:30-32 | the inner "User not found" 404 never escapes; every failure is 401 |
| AuthMiddleware.ProtectAcceptsSignedToken | docintel-backend/src/middleware/auth.ts:14-41 | a token signed for a stored user, sent as "Bearer token", lets that user through |
| UploadMiddleware.EnvOr | docintel-backend/src/middleware/upload.ts:9 | an unset or empty environment variable gives the fallback, a set one is used as it is |
| UploadMiddleware.Destination | docintel-backend/src/middleware/upload.ts:8-10 | the destination is "./uploads" unless overridden, and never empty |
| UploadMiddleware.MaxFileSizeDefault | docintel-backend/src/middleware/upload.ts:42 | the default limit is 10 × 1024 × 1024 = 10485760 bytes, and a decimal override is read as its value |
| UploadMiddleware.DefaultLimitLiteral | docintel-backend/src/middleware/upload.ts:42 | the literal "10485760" is the decimal rendering of ten mebibytes |
| UploadMiddleware.FileFilter | docintel-backend/src/middleware/upload.ts:21-37 | a file is accepted exactly when its MIME type is PDF, DOC or DOCX; any other is refused with 400 |
| UploadMiddleware.Extname | docintel-backend/src/middleware/upload.ts:15 | `path.extname`: empty, or a dot followed by characters that are neither dots nor slashes |
| UploadMiddleware.ExtnameOfDoubleExtension | docintel-backend/src/middleware/upload.ts:15 | only the last extension counts: "index.coffee.md" gives ".md" |
| UploadMiddleware.ExtnameOfTrailingDot | docintel-backend/src/middleware/upload.ts:15 | "index." gives "." |
| UploadMiddleware.ExtnameOfNoDot | docintel-backend/src/middleware/upload.ts:15 | "index" gives "" |
| UploadMiddleware.ExtnameOfDotFile | docintel-backend/src/middleware/upload.ts:15 | a leading dot is not an extension: ".index" gives "" |
| UploadMiddleware.ExtnameOfDirectory | docintel-backend/src/middleware/upload.ts:15 | trailing slashes are ignored: "a/b.pdf/" gives ".pdf" |
| UploadMiddleware.StoredFilenameKeepsExtension | docintel-backend/src/middleware/upload.ts:11-17 | the stored name fieldname-timestamp-random+ext keeps the original's extension |
| UploadMiddleware.Receive | docintel-backend/src/middleware/upload.ts:7-45 | multer accepts a file exactly when the filter passes and the size is within the limit; the stored file keeps the upload's metadata, lands in the destination and gets the generated name. The field-name check of `upload.single('file')` belongs to the router and is not part of this model |
| DocumentController.Upload | docintel-backend/src/controllers/documentController.ts:16-41 | no file gives 400 and changes nothing; otherwise the file is on disk, and exactly one record is added when the required fields are present; it is owned by the caller, queued, named from the file, and replied with 201 |
| DocumentController.UploadedDraftValid | docintel-backend/src/controllers/documentController.ts:20-28 | the record built from an uploaded file is valid exactly when the caller and the file's name, original name, type and path are present |
| DocumentController.Process | docintel-backend/src/controllers/documentController.ts:32-36 | the later processing step replaces the record by its processed form (status, `processedAt` and `updatedAt` set, owner, path and names kept) and returns it, changing no other record; for a deleted record the save fails and nothing changes |
| DocumentController.InsertByNewest | docintel-backend/src/controllers/documentController.ts:56-58 | inserting into a newest-first list keeps it newest first, without duplicates, and adds exactly the new record |
| DocumentController.List | docintel-backend/src/controllers/documentController.ts:56-64 | the listing holds exactly the caller's documents, newest `createdAt` first, and its count is its length |
| DocumentController.Authorize | docintel-backend/src/controllers/documentController.ts:79-88 | a missing id is 404 before the ownership check; a document of someone else, or no caller, is 401 |
| DocumentController.Get | docintel-backend/src/controllers/documentController.ts:79-93 | the owner gets the record with 200; otherwise the 404-then-401 outcome |
| DocumentController.Delete | docintel-backend/src/controllers/documentController.ts:108-129 | the owner's delete removes that record and its file and nothing else; a missing or unauthorised delete changes nothing |
| DocumentController.Download | docintel-backend/src/controllers/documentController.ts:144-159 | after the 404-then-401 checks, an absent file is 404; otherwise the stored path is sent under the original name |
| DocumentController.AnswerText | docintel-backend/src/controllers/documentController.ts:187 | the length of the mock answer is the sum of its fixed text, the original name and the rendered question |
| DocumentController.AnswerEmbeds | docintel-backend/src/controllers/documentController.ts:187 | the mock answer embeds the original name and the question at fixed positions |
| DocumentController.AnswerDeterminesQuestion | docintel-backend/src/controllers/documentController.ts:187 | two questions giving the same answer render identically |
| DocumentController.Ask | docintel-backend/src/controllers/documentController.ts:174-203 | after the 404-then-401 checks the reply echoes the question, carries the mock answer and exactly one citation |
| DocumentController.AccessOrder | docintel-backend/src/controllers/documentController.ts:79-184 | for get, delete, download and ask alike: a missing id is 404, and another user's document is 401 |
| DocumentController.HandlersKeepKeyed | docintel-backend/src/controllers/documentController.ts:16-124 | every store-changing handler keeps each record under its own id |
| DocumentController.UploadThenGet | docintel-backend/src/controllers/documentController.ts:16-159 | a document just uploaded can be fetched and downloaded by its owner |
| DocumentController.DeleteThenGet | docintel-backend/src/controllers/documentController.ts:108-124 | after a delete, anyone fetching the id gets 404 |
| DocumentController.ProcessAfterDelete | docintel-backend/src/controllers/documentController.ts:32-36 | when processing fires after a delete, the save fails and the store stays as the delete left it |
| AuthController.Public | docintel-backend/src/controllers/authController.ts:40-46 | the reply's user has id, name, email, role and createdAt, and no password |
| AuthController.NewUser | docintel-backend/src/controllers/authController.ts:25-29 | a created user has the normalised name and address, the default role and the creation time |
| AuthController.Register | docintel-backend/src/controllers/authController.ts:15-49 | an address already held is 400 and creates no one; otherwise the user is created exactly when validation passes, replied with 201 and a token for the new id and address |
| AuthController.RegisterPreservesWellFormed | docintel-backend/src/controllers/authController.ts:18-29 | registration keeps ids and addresses unique and records in schema shape |
| AuthController.Login | docintel-backend/src/controllers/authController.ts:64-103 | a missing field is 400 before any lookup; an unknown address and a wrong password are the same 401; success is 200 with the public user and a token |
| AuthController.LoginFinds | docintel-backend/src/controllers/authController.ts:72-83 | for a found user, login succeeds exactly when a non-empty password hashes to the stored one |
| AuthController.RegisterThenLogin | docintel-backend/src/controllers/authController.ts:15-103 | logging in right after registering, with the same address and password, returns the same user and token |
| AuthController.FindAppended | docintel-backend/src/controllers/authController.ts:18-29 | a newly appended user is found by the address they registered with |
| AuthController.RegisterThenProtect | docintel-backend/src/controllers/authController.ts:32-35 | the token returned by registration passes `protect` as the new user |
| AuthController.GetMe | docintel-backend/src/controllers/authController.ts:118-123 | replies 200 with the caller's record, without the password, or with null when there is none |
| AuthController.Logout | docintel-backend/src/controllers/authController.ts:132-144 | always 200 with empty data, and the state is untouched |
| UserController.Load | docintel-backend/src/controllers/userController.ts:16-20 | the caller's record is found by id, or there is none |
| UserController.Merge | docintel-backend/src/controllers/userController.ts:22-23 | name and address are replaced only by non-empty values, and nothing else changes |
| UserController.UpdateProfile | docintel-backend/src/controllers/userController.ts:14-35 | a missing user is 404; otherwise the merged record is saved exactly when it validates and its address is free, replied with id, name, email and role; a merged record equal to the stored one is not written, so `updatedAt` changes only when a field does |
| UserController.UnchangedProfileKeepsStamp | docintel-backend/src/controllers/userController.ts:22-25 | an update without a name and an e-mail, or with the stored ones, modifies nothing, so the record and its `updatedAt` stay as they were |
| UserController.UpdateProfilePreservesWellFormed | docintel-backend/src/controllers/userController.ts:22-25 | a profile update keeps the collection well formed |
| UserController.UpdateProfileKeepsLogin | docintel-backend/src/controllers/userController.ts:25 | a profile update keeps exactly the same passwords accepted |
| UserController.ChangePassword | docintel-backend/src/controllers/userController.ts:50-71 | a missing user is 404; an absent current password makes `bcryptjs.compare` reject with "Illegal arguments: undefined, string", which is forwarded as it is and not as 401; a wrong current password is 401; every failure changes nothing; on success only the password hash and `updatedAt` change |
| UserController.ChangePasswordSucceeds | docintel-backend/src/controllers/userController.ts:59-66 | the right current password and a new one of at least 8 characters always succeed |
| UserController.ChangePasswordThenLogin | docintel-backend/src/controllers/userController.ts:65-66 | after a change the new password logs in, and the old one no longer does unless it hashes like the new one |
| AuthContext.Initial | frontend/src/contexts/AuthContext.tsx:24-25 | the first render has no user and is loading |
| AuthContext.Restore | frontend/src/contexts/AuthContext.tsx:27-37 | a non-empty stored entry is parsed into the user; one that fails to parse is removed; loading ends either way |
| AuthContext.Login | frontend/src/contexts/AuthContext.tsx:39-54 | only the demo credentials sign in, as user "1", "Demo User", role "Admin", mirrored to storage; anything else rejects with "Invalid email or password" and changes nothing |
| AuthContext.Register | frontend/src/contexts/AuthContext.tsx:56-67 | always signs in a user with the given email and name, role "User" and the random id, mirrored to storage |
| AuthContext.Logout | frontend/src/contexts/AuthContext.tsx:69-72 | the user becomes null and the stored entry is removed |
| AuthContext.UpdateUserProfile | frontend/src/contexts/AuthContext.tsx:74-81 | a null user stays null with storage untouched; otherwise the merged user is set and mirrored |
| AuthContext.OverwriteFields | frontend/src/contexts/AuthContext.tsx:77 | in the spread, a field present in the update wins and an absent one keeps the old value |
| AuthContext.UpdateUserProfileOverwrites | frontend/src/contexts/AuthContext.tsx:74-81 | the updated user is the field-wise overwrite of the old one |
| AuthContext.IsAuthenticated | frontend/src/contexts/AuthContext.tsx:91 | true exactly when there is a user |
| AuthContext.RestoreConsistent | frontend/src/contexts/AuthContext.tsx:27-37 | after the mount effect, the user in memory is what the storage restores |
| AuthContext.OperationsKeepConsistent | frontend/src/contexts/AuthContext.tsx:39-81 | login, register, logout and profile update keep the user and its stored mirror in step |
| AuthContext.ReloadRestores | frontend/src/contexts/AuthContext.tsx:27-81 | reloading the page after any of these operations restores the same user |
| AuthContext.FailedLoginKeepsUser | frontend/src/contexts/AuthContext.tsx:51-53 | a rejected login, whether the address is wrong or the demo address comes with a wrong password, leaves whoever was signed in signed in |
| AuthContext.LogoutThenReload | frontend/src/contexts/AuthContext.tsx:69-72 | after logout a reload finds nobody |
| LoginPage.InitialPage | frontend/src/pages/LoginPage.tsx:7-15 | the page opens in sign-in mode with an empty form, no error and not loading |
| LoginPage.Begin | frontend/src/pages/LoginPage.tsx:18-43 | the error is cleared; sign-up checks the confirmation before the length; a short password stops both modes; sign-up then refuses a blank name; the call is made with loading raised |
| LoginPage.Settle | frontend/src/pages/LoginPage.tsx:45-49 | a rejection shows its message, or "Authentication failed" when it has none; loading drops either way |
| LoginPage.Run | frontend/src/pages/LoginPage.tsx:18-50 | a refused form never reaches the context; a call always ends with loading lowered |
| LoginPage.DemoLogin | frontend/src/pages/LoginPage.tsx:52-61 | the demo button signs in the demo user and leaves the page as it was, error included |
| LoginPage.Toggle | frontend/src/pages/LoginPage.tsx:172-176 | flips the mode, clears the error and empties all four fields |
| LoginPage.ToggleTwice | frontend/src/pages/LoginPage.tsx:172-176 | toggling twice restores the mode with a cleared form |
| LoginPage.SubmitAfterToggleRefused | frontend/src/pages/LoginPage.tsx:22-30 | right after a toggle the empty form is refused by the length check, in either mode |
| LoginPage.RefusedSubmitKeepsContext | frontend/src/pages/LoginPage.tsx:22-30 | a password under 8 characters never calls login or register |
| LoginPage.DemoCredentialsSignIn | frontend/src/pages/LoginPage.tsx:27-49 | typing the demo credentials passes every check and signs the demo admin in with no error |
| LoginPage.WrongCredentialsShowMessage | frontend/src/pages/LoginPage.tsx:34-49 | any other sign-in that passes the checks, the demo address with a wrong password included, shows "Invalid email or password" and changes no user |
| LoginPage.SignUpSignsIn | frontend/src/pages/LoginPage.tsx:38-49 | a sign-up that passes the checks signs in the new user under the typed name and email |
| UserAccountPage.InitialPage | frontend/src/pages/UserAccountPage.tsx:8-14 | the form starts from the user's name and email, or empty strings, with the password fields empty |
| UserAccountPage.InputChange | frontend/src/pages/UserAccountPage.tsx:19-24 | an input change sets the field it names and no other |
| UserAccountPage.InputChangeUndone | frontend/src/pages/UserAccountPage.tsx:19-24 | typing the old value back restores the page |
| UserAccountPage.ProfileUpdate | frontend/src/pages/UserAccountPage.tsx:26-30 | announces "Profile updated successfully!" and hands the context the form's name and email |
| UserAccountPage.ProfileUpdateEffect | frontend/src/pages/UserAccountPage.tsx:26-28 | the signed-in user gets the form's name and email and keeps id and role; with nobody signed in nothing changes, yet success is announced |
| UserAccountPage.PasswordChange | frontend/src/pages/UserAccountPage.tsx:32-51 | a mismatch is refused before the length check; success clears the three password fields and keeps name and email |
| UserAccountPage.PasswordChangeIgnoresCurrent | frontend/src/pages/UserAccountPage.tsx:32-43 | the current-password field never changes the verdict |
| UserAccountPage.SecondChangeRefused | frontend/src/pages/UserAccountPage.tsx:38-49 | submitting the cleared form again is refused by the length check |
| UserAccountPage.ClearMessage | frontend/src/pages/UserAccountPage.tsx:29 | the timer removes the message and keeps the form |
| UserAccountPage.Initials | frontend/src/pages/UserAccountPage.tsx:128 | the initials are never longer than the name |
| UserAccountPage.WordStarts | frontend/src/pages/UserAccountPage.tsx:128 | the reference reading: the non-space characters that follow a space or the start of the name |
| UserAccountPage.InitialsAreWordStarts | frontend/src/pages/UserAccountPage.tsx:128 | the initials are exactly the word starts of the name, in order; empty pieces contribute nothing |
| UserAccountPage.InitialsOfDoubleSpace | frontend/src/pages/UserAccountPage.tsx:128 | "Al  Bo" gives "AB" |
| QABox.Initial | frontend/src/components/QABox.tsx:17-21 | the box starts with no question, answer or citations, idle and not yet asked |
| QABox.Type | frontend/src/components/QABox.tsx:57 | typing changes the question and nothing else |
| QABox.Begin | frontend/src/components/QABox.tsx:23-28 | a whitespace-only question changes nothing and sends nothing; any other is sent as typed, with isLoading and hasAsked raised |
| QABox.Settle | frontend/src/components/QABox.tsx:29-38 | success takes answer and citations from the response; failure shows the apology with no citations; isLoading drops either way |
| QABox.CanSubmit | frontend/src/components/QABox.tsx:65 | the button is enabled exactly when not loading and the trimmed question is non-empty |
| QABox.EnabledButtonAsks | frontend/src/components/QABox.tsx:23-65 | pressing an enabled button sends the question, and the button is disabled while it is out |
| QABox.BlankQuestionIgnored | frontend/src/components/QABox.tsx:25 | a whitespace-only submit leaves the box as it was |
| QABox.SubmitEndsSettled | frontend/src/components/QABox.tsx:27-38 | after a sent question the box is answered or failed, not loading, and can ask again |
| QABox.ReplyOnlyFillsAnswer | frontend/src/components/QABox.tsx:29-38 | the callback's outcome affects only the answer and the citations |
| UseUpload.TypeOf | frontend/src/hooks/useUpload.ts:16 | the MIME type when there is one; otherwise the upper-cased text after the last dot, or "UNKNOWN" when that is empty |
| UseUpload.TypeFallbacks | frontend/src/hooks/useUpload.ts:16 | a dot-free name gives itself upper-cased; an empty name and a name ending in a dot both give "UNKNOWN" |
| UseUpload.TypeOfExtension | frontend/src/hooks/useUpload.ts:16 | with no MIME type, "base.ext" gives EXT whatever the base |
| Text.FirstPieceIsPrefix | frontend/src/hooks/useUpload.ts:14 | the first piece of `split(sep)` is the text before the first separator: a prefix of the input followed by the separator or by nothing |
| UseUpload.DatePart | frontend/src/hooks/useUpload.ts:14 | the date is a prefix of the timestamp that ends at the first 'T' (the whole timestamp when it has none) and contains no 'T' |
| UseUpload.NewDocument | frontend/src/hooks/useUpload.ts:10-17 | the new entry is queued and carries the file's name, the date part of the timestamp, the rendered size and the file's type; its id reads back as the upload time |
| UseUpload.IdsFollowClock | frontend/src/hooks/useUpload.ts:11 | uploads at different times get different ids |
| UseUpload.Prepend | frontend/src/hooks/useUpload.ts:27-30 | the new document comes first, followed by the old list in order; an absent list counts as empty |
| UseUpload.PrependThenDrop | frontend/src/hooks/useUpload.ts:27-30 | dropping the head of the new list gives back the old list |
| UseUpload.TwoUploads | frontend/src/hooks/useUpload.ts:27-30 | after two uploads the later one is first |
| ProgressBar.BandOf | frontend/src/components/ProgressBar.tsx:15-19 | below 30 is warning, from 30 to below 70 is accent, from 70 up is success; each input gets exactly one band |
| ProgressBar.BandMonotone | frontend/src/components/ProgressBar.tsx:15-19 | more progress never moves to an earlier band |
| ProgressBar.ClassNamesBand | frontend/src/components/ProgressBar.tsx:15-19 | two inputs get the same class exactly when they fall in the same band |
| ProgressBar.Boundaries | frontend/src/components/ProgressBar.tsx:16-18 | 30 and 70 belong to the upper band |
| MetricCard.View | frontend/src/components/MetricCard.tsx:16-35 | a non-negative trend, zero included, is success-coloured with the rising arrow, and a negative one is error-coloured with the falling arrow; colour and arrow always agree; the magnitude is never negative |
| MetricCard.ViewRoundTrip | frontend/src/components/MetricCard.tsx:16-35 | the trend is the magnitude under the rising arrow and minus the magnitude under the falling one |
| MetricCard.ZeroIsPositive | frontend/src/components/MetricCard.tsx:16 | a zero trend shows as rising |

## Left out

- Express wiring (`server.ts`, the routers), the error middleware that turns library errors into HTTP statuses, and the `success: true` envelope. `protect` is assumed to run before every private handler.
- The internals of bcrypt, JWT, multer, Mongoose and the file system. Each is abstract: `hash`, `sign`/`verify`, `join`, and the set of files on disk. Token expiry is not modelled.
- A malformed document id (a Mongoose `CastError`). It is outside the model, whose ids are plain strings.
- The `setTimeout` that fires processing. Processing is the explicit transition `DocumentController.Process`. If processing fires after a delete, the failed save is an unhandled rejection. The server's `unhandledRejection` handler (`server.ts`) then closes the server and exits the process, so deleting a document within two seconds of its upload stops the backend. The model records only the failed save (`DocumentController.ProcessAfterDelete`).
- Delays, timers and the React rendering of every page and component.
- Floating point: `toFixed`, `toLocaleString` and the upload size label. The size label is passed in already rendered.
- Case mapping covers ASCII letters only, and string lengths count characters rather than UTF-16 code units. The two agree on every character outside the astral planes.
- `JSON.parse` results that are neither a user object nor `null` are not modelled.
- Request bodies: every body field is modelled as a string, an absent field being `""` (absent and empty are treated alike by each `x || y` and `!x` test and by `required`). The exceptions are `currentPassword`, whose absence makes `bcryptjs.compare` reject, and the question of `askQuestion`, whose absence the answer template renders as `undefined`; both are `Option`s. Non-string JSON values, such as an object `{"$ne": null}` that would reach `User.findOne({ email })` as a query operator, are not modelled.
- Users.Modified: a new password whose plain text equals the stored hash counts as a modification. Mongoose would see the path unchanged, leave `updatedAt` alone and skip the hook.
- Users.Save: it applies the corrected hook `PreSave`, not `PreSaveAsWritten`, and so do `AuthController.Register`, `UserController.UpdateProfile` and `UserController.ChangePassword`, which save through it. Register and ChangePassword always set a new password, and there the two hooks agree. The one save that leaves the password alone is `updateProfile`, which does not load it, so the as-written fall-through is kept to the Findings row.
- UploadMiddleware.Receive: `upload.single('file')` also refuses a file sent under any other field name. That check is made by the router (`routes/document.ts`), which is not part of this model.
- The pre-save hook when `password` was not loaded. `updateProfile` reads the user without the password field, and what bcrypt does with the missing value is not modelled.
- AuthContext.Restore: the storage text is parsed by a parameter, so only `Faithful` parse/stringify pairs are shown to round-trip.
- UploadMiddleware.Extname: its contract states the shape of the result. The exact `path.extname` behaviour is pinned down by the five example lemmas and by `StoredFilenameKeepsExtension`.
- ProgressBar.BandOf: progress is a real number. `NaN`, which `getColorClass` would put in the success band, is not a value of the model.
- The frontend's mock APIs, the dashboard and document pages, and the search page: they hold canned data only.

## Findings

| source | as written | input that shows it | evidently intended | confidence | as-written member | corrected member |
|---|---|---|---|---|---|---|
| docintel-backend/src/models/User.ts:51-56 | when the password is not modified, the hook calls `next()` without returning, falls through and hashes the stored hash again | a user loaded with `.select('+password')`, stored hash hash("password1"), saved with no password change. The hook's rehash lands on the in-memory document, which then holds hash(hash("password1")); because `next()` has already released the save, the stored hash may stay the old one, and the loss shows when that same document is saved again or its `matchPassword` is called. No handler in this code base does this: `updateProfile` saves without loading the password, and every other save sets a new one | return after `next()`: hash only a newly set password | not executed; low — latent in this code base, and the outcome depends on how Mongoose treats an async hook that both calls `next()` and returns a promise | Users.PreSaveAsWrittenCounterexample | Users.PreSaveKeepsLogin |
