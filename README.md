# file-explorer, modelled in Dafny

This project models the core of file-explorer, a small web service in Go. It
stores users' files and directories and serves them over an HTTP API. The
model covers:

- **The file engine** (`services/files.go` over `repository/simple/file.go`).
  Each user owns a tree of nodes. A node is a metadata row (FID, owner, parent
  FID, directory flag, name, materialized directory path, size), and a plain
  file also has a blob on disk. The operations are: create a directory, upload
  a file, delete a subtree, move, rename, download, and the listings. They run
  under a per-owner named lock (`internal/locker/glocker.go`) and, for delete,
  move and rename, inside a unit of work (a transaction) that is committed only
  when the work succeeds. Moves and renames rewrite the stored paths of the
  whole subtree (`adjustFilePath`).
- **The user service** (`services/users.go`). It covers registration with an
  e-mail verification code, password reset with a reset code, login with a
  signed token, and lookup by id. It is built on the user repository
  (`repository/simple/user.go`) and on the verification-code repository over
  the Redis cache (`repository/cachedrepository/verification_code.go`,
  `cache/redis/redis.go`).
- **The API layer** (`web/api/v1`). This is the error types, the mapping from
  error type to HTTP status, release-mode masking of internal errors, the
  dispatch of a handler's result (`Gin`), and the file and user error tables
  with the handlers built on them. It also covers the authorization middleware
  (`middleware/authorization.go`): token extraction, decoding and the role
  check.
- **The utilities the core uses.** These are configuration defaulting
  (`config/config.go`), the ordered action executor, the code generators in
  `random`, the `stdlog` field decoration, and the e-mail and username
  validators.

Modelling choices:

- **Pure code and state.** Pure code becomes functions and lemmas. Objects whose
  fields change become classes: the repositories, the cache, the lock table,
  the executor, the configuration and the services.
- **Faults.** Every store call of the source may fail, so each is a
  nondeterministic outcome (`x := *`). The contracts state what holds on every
  outcome.
- **Event order.** A ghost journal (`Journal.Log`) records the order of lock,
  write, commit and rollback events, so contracts can state facts such as
  "the blob is written before the lock is taken" and "a no-op move never
  commits".
- **The tree invariant.** `FileTree.WellFormed` says:
  - every row is keyed by its FID;
  - parents are directories;
  - the parent relation is acyclic, witnessed by a ghost ranking;
  - every stored path is the path the tree gives;
  - sibling names are unique.

  Each successful write keeps it.
- **Inputs from outside.** Identifiers from the uuid generator, the clock and
  random draws are parameters.

The repository has two store back-ends, `repository/simple` and
`repository/sqlrepository`. Their file and user repositories are textually
the same code, so one model covers both.

## Model

| member | source | states |
|---|---|---|
| Paths.Join | services/files.go:135-141 | `path.Join` of a directory and a name: each of them alone when the other is empty; otherwise the result starts with the directory and ends with the name |
| Paths.JoinAbsolute | services/files.go:135-141 | joining an absolute clean path with a plain name gives an absolute clean path whose last segment is that name |
| Paths.LastSegmentOfJoin | services/files.go:135-141 | the last segment of a join is the name that was joined |
| Errors.SentinelTextsDistinct | services/files.go:20-34 | no two file sentinels and no two user sentinels share a text |
| Errors.PathMessageDeterminesCause | services/files.go:37-46 | a path error's message determines its cause |
| Errors.UserMessageDeterminesReason | services/users.go:43-51 | a user error's message determines its reason |
| FileTree.NotUnderSelf | models/file.go:6-18 | the parent relation of a ranked table is acyclic: no row lies below itself |
| FileTree.UnderTrans | models/file.go:6-18 | lying below is transitive |
| FileTree.UnderLinear | models/file.go:6-18 | the ancestors of a row form a chain |
| FileTree.ChildSubtreesDisjoint | models/file.go:6-18 | the subtrees of two different children of a node do not meet |
| FileTree.DescUnfold | repository/simple/file.go:18-31 | the descendants of a node are its children plus the descendants of its children, which is what the recursive delete visits |
| FileTreeWalks.SiblingWalksDisjoint | repository/simple/file.go:18-31 | the recursive walks from two different children visit disjoint rows |
| FileTreeWalks.ChildWalkInside | repository/simple/file.go:18-31 | the walk from a child stays strictly inside the parent's subtree, which is why the recursive delete terminates |
| FileTreePaths.PathIsAncestry | services/files.go:135-141 | in a well-formed table a row's stored directory is "/" joined with the names of its ancestors, outermost first |
| FileTreePaths.AdjustStep | services/files.go:598-614 | rewriting the subtree of the next child, after the earlier children are rewritten, gives the table rewritten up to that child |
| Locker.Acquired | internal/locker/glocker.go:24-35 | after `Lock(name)`, name has one more reference and every other name keeps its count |
| Locker.Released | internal/locker/glocker.go:38-49 | after `UnLock(name)`, name has one fewer reference, its entry is removed at zero, and no other name changes |
| Locker.ReleaseUndoesAcquire | internal/locker/glocker.go:24-49 | a lock followed by its unlock returns the lock table to what it was, so entries never leak |
| Locker.GLocker.Lock | internal/locker/glocker.go:24-35 | the table becomes `Acquired` of the old one, and a lock event is recorded |
| Locker.GLocker.UnLock | internal/locker/glocker.go:38-49 | the table becomes `Released` of the old one, and an unlock event is recorded |
| FileStore.BlobStore.Save | services/files.go:170-191 | on success the blob set gains the FID; on failure it gains at most that FID (a partial write); a save event is recorded only on success |
| FileStore.BlobStore.Remove | repository/simple/file.go:32-43 | on success the blob was there and is gone; on failure nothing changes |
| FileStore.BlobStore.Open | services/files.go:325-335 | the open reports a missing file exactly when the blob set lacks the FID |
| FileStore.WindowSize | repository/simple/file.go:83-101 | the size of a limit/offset page: never more than the rows or the limit, zero past the end, everything when both are zero |
| FileStore.Window | repository/simple/file.go:83-101 | a page is the rows from the offset on, as many as `WindowSize` says |
| FileStore.WalkedAllCoversDesc | repository/simple/file.go:18-31 | the walks from all children of a directory together cover exactly its descendants |
| FileStore.Enumerate | repository/simple/file.go:50-69 | lists every row of the set once, each as the table holds it |
| FileStore.FileRepository.CreateFile | repository/simple/file.go:13-15 | an insert keeps the repository's invariant; on success the row is added under its fresh FID; on failure nothing changes |
| FileStore.FileRepository.UpdateFile | repository/simple/file.go:46-48 | the row is replaced on success; the table is unchanged on failure |
| FileStore.FileRepository.DeleteRow | repository/simple/file.go:32-43 | removes the owner's row with that FID, and nothing when there is none |
| FileStore.FileRepository.GetFilesByPFID | repository/simple/file.go:83-101 | the page holds distinct rows, all children of (owner, pfid) as stored, of the window's size; without paging it is exactly the children |
| FileStore.FileRepository.GetFileByOwner | repository/simple/file.go:115-139 | the same for the owner's rows, optionally only directories |
| FileStore.FileRepository.GetFileList | repository/simple/file.go:50-69 | the same for all rows |
| FileStore.FileRepository.GetFileByID | repository/simple/file.go:103-113 | finds a row exactly when the owner has a row with that FID, and returns it |
| FileStore.FileRepository.GetFileByPFIDAndName | repository/simple/file.go:71-81 | finds nothing exactly when no child of (owner, pfid) has the name; otherwise returns such a child |
| FileStore.FileRepository.DeleteFile | repository/simple/file.go:17-44 | removes only rows the walk from the node visits and only their blobs; a complete run removes exactly the walk and records a blob removal for every plain file in it; the journal holds only deletions within it; a plain file's row goes before its blob, and a directory's own row goes last, after its children |
| FileStore.FileRepository.DeleteLeaf | repository/simple/file.go:32-43 | deletes the plain file's row, then its blob; a failed row delete touches nothing |
| FileStore.FileRepository.DeleteDirectory | repository/simple/file.go:18-31 | deletes the children's subtrees, then the directory's row; the row goes last; a complete run records a blob removal for every plain file below the directory |
| FileStore.FileRepository.DeleteChildren | repository/simple/file.go:20-29 | the loop over the children removes only rows below the directory, and on a complete run exactly the children's walks, with a blob removal recorded for every plain file in them; a failing child is skipped, as the source ignores its error |
| FileStore.UnitOfWork.Commit | repository/simple/unixofwork.go:24-26 | on success the live table becomes the transaction's table; on failure it is unchanged |
| FileStore.UnitOfWork.Rollback | repository/simple/unixofwork.go:28-30 | the live table is untouched and a rollback is recorded |
| FileStore.Unit | repository/simple/unixofwork.go:11-22 | a begun unit of work holds a fresh copy of the live table |
| FileRules.CreateParentChecked | services/files.go:107-124 | the corrected parent check passes exactly when the parent is the owner's root or one of the owner's directories, and then yields the parent's path |
| FileRules.CreateBelowDirectoryIsSilentAsWritten | services/files.go:110-113 | as written, every creation below a non-root parent returns no node and no error |
| FileRules.CreateInDocsAsWritten | services/files.go:110-113 | a file created in an existing directory "docs" is silently dropped as written, while the corrected check places it at "/docs" |
| FileRules.MoveParentChecked | services/files.go:496-511 | the corrected move check passes exactly when the new parent is the owner's root or one of the owner's directories |
| FileRules.MoveUnderPlainFileAsWritten | services/files.go:496-511 | as written, a node can be moved under a plain file; the resulting table has a plain file as a parent, which breaks the tree invariant |
| FileRules.InsertKeepsWellFormed | services/files.go:126-141 | inserting a row under a valid parent, with the parent's path and a free name, keeps the table well-formed |
| FileRules.CreatedStopped | services/files.go:107-124 | a store failure or a bad parent is an outcome `Created` allows, with the table unchanged |
| FileRules.CreatedTaken | services/files.go:126-133 | a sibling with the same name gives the "already exists" error, carrying that sibling's path |
| FileRules.CreatedInserted | services/files.go:135-141 | inserting under a valid parent with a free name, at the parent's path, is a successful `Created` |
| FileRules.RemoveWalkKeepsWellFormed | repository/simple/file.go:17-44 | removing exactly the walk from a row keeps the table well-formed |
| FileRules.RenamedKeepsWellFormed | services/files.go:457-483 | renaming to a free name, with the subtree's paths rewritten, keeps the table well-formed |
| FileRules.MovedKeepsWellFormed | services/files.go:485-516 | moving a node under a valid parent with a free name, with the subtree's paths rewritten, keeps the table well-formed |
| FileRules.RehomedKeepsWellFormed | services/files.go:598-614 | replacing a row by a version placed under a valid parent, and rewriting the paths below it, keeps the table well-formed |
| FileRules.RehomedPaths | services/files.go:598-614 | that rewrite keeps every stored path consistent |
| FileRules.RehomedSiblings | services/files.go:598-614 | that rewrite keeps sibling names unique |
| FileRules.RaisedKeepsRanked | services/files.go:485-516 | lifting the rank of a moved subtree gives a valid ranking again, which shows a move creates no cycle |
| FileService.Conclude | services/files.go:259-294 | commits exactly when the work succeeded and a commit was asked for; otherwise it rolls back and keeps the live table; a failing commit is a store failure |
| FileService.DeleteTree | services/files.go:259-294 | a missing node is "file not found" (and only then); success removes the node and only rows of its walk, and only their blobs; a complete run records a blob removal for every plain file of the walk; the work never commits |
| FileService.DeleteTransaction | services/files.go:259-294 | the same as one unit of work: any error leaves the live table as it was; a complete delete keeps the table well-formed and has removed the blob of every plain file of the walk |
| FileService.FileService.CreateFileModel | services/files.go:88-142 | without an id generated it fails with the uuid error; otherwise it creates exactly as `Created` says: success only with a valid parent and a free name; a bad parent is "not a directory", a clash "already exists", and with a valid parent and a free name the only possible error is a store failure; it keeps the table well-formed |
| FileService.FileService.CheckPlacement | services/files.go:107-133 | a stop is a permitted `Created` error: "not a directory" only for a bad parent, "already exists" only for a sibling of that name, otherwise a store failure; a pass means the parent is valid, the path is the parent's and the name is free |
| FileService.FileService.CreateDirectory | services/files.go:145-168 | an empty owner or name is an argument error with nothing changed; otherwise it is `Created` (both directions: a valid parent and a free name fail only on a store failure) under the given directory or the owner's root, inside the owner's lock |
| FileService.FileService.CreateFile | services/files.go:194-245 | the argument errors in source order; otherwise the blob is saved before the lock, the row is `Created` (a valid parent and a free name fail only on a store failure), and when the row fails the blob is removed again; on success the blob set gains exactly the new FID |
| FileService.FileService.CreateUploaded | services/files.go:235-243 | under the lock: create the row as `Created` says, or remove the uploaded blob when that fails |
| FileService.FileService.DeleteFile | services/files.go:248-295 | the argument errors; "file not found" exactly for a node the owner lacks; success removes the node and only its walk; a complete run records a blob removal for every plain file of the walk; any error leaves the table unchanged; it runs in one unit of work under the owner's lock and commits only on success |
| FileService.FileService.MoveFile | services/files.go:340-396 | the argument errors (under the caller name "Download", as written); a missing node is "file not found"; a node already under the target succeeds or fails only by a store failure, with the table unchanged, no row or blob written and nothing committed; else the node moves and its subtree is rewritten (`Moved`); a taken name is "already exists" (or a store failure) and "already exists" only for a taken name; a bad parent with a free name is "not a directory" (or a store failure) and "not a directory" only for a bad parent; a move keeps the table well-formed |
| FileService.FileService.MoveTransaction | services/files.go:356-395 | the transaction of a move: when the node already has that parent it succeeds or fails only by a store failure, writes nothing and does not commit; commit only when it moved; the same attribution of "already exists" to a taken name and of "not a directory" to a bad parent, a store failure being the only other outcome in those cases |
| FileService.FileService.RenameFile | services/files.go:399-455 | the argument errors; "file not found"; renaming to the same name succeeds or fails only by a store failure, with the table unchanged, nothing written and nothing committed; a taken name is "already exists" (or a store failure) and "already exists" only for a taken name; success rewrites the subtree (`Renamed`) and keeps the tree well-formed |
| FileService.FileService.RenameTransaction | services/files.go:428-454 | the transaction of a rename: on the same name it succeeds or fails only by a store failure, writes nothing and does not commit; commit only when it renamed; "already exists" exactly for a taken name, unless a store failure comes first |
| FileService.FileService.Download | services/files.go:298-337 | returns the owner's plain file when the row and its blob exist; a directory cannot be downloaded; a missing node is "file not found"; a lost blob is "file is missing" and deletes its row, while every other path leaves the table alone |
| FileService.FileService.DeleteMissing | services/files.go:325-335 | the self-healing delete removes the row (the blob is already gone) and keeps the tree well-formed |
| FileService.FileService.GetFileByID | services/files.go:519-544 | the argument errors; returns the owner's node exactly when it exists; otherwise "file not found" or a store failure |
| FileService.FileService.GetFileByPID | services/files.go:547-572 | the argument errors (named "GetFileByID", as written); a page of the owner's nodes directly under pid |
| FileService.FileService.GetFileListsByOwner | services/files.go:575-596 | every node of the owner, files and directories, each once |
| FileService.FileService.Move | services/files.go:485-516 | refuses a taken name (exactly when one is taken) and an invalid parent; success re-homes the node under the new parent, at its path, and rewrites the subtree; only rows of the walk are updated |
| FileService.FileService.Rename | services/files.go:457-483 | refuses a taken name (exactly then); success renames and rewrites the subtree; only rows of the walk are updated |
| FileService.FileService.AdjustFilePath | services/files.go:598-614 | on success the table is the old one with the node at its new directory and every row below it at the path the tree gives; the node's own row is written last, after its children |
| FileService.FileService.AdjustChildren | services/files.go:599-611 | the loop over the children: on success every row is rewritten as `Rewritten` says; a failure keeps every link and name |
| Validation.Count | internal/utils/validation/validtion.go:10-17 | the number of occurrences of a character: zero exactly when the character does not occur |
| Validation.EmailOfParts | internal/utils/validation/validtion.go:10-17 | three words joined by '@' and '.' always form an email address |
| Validation.EmailHasParts | internal/utils/validation/validtion.go:10-17 | every email address is three words joined by '@' and '.' |
| Validation.EmailSeparatorsUnique | internal/utils/validation/validtion.go:10-17 | an email address holds exactly one '@' and one '.' |
| Validation.NoUsernameIsEmail | internal/utils/validation/validtion.go:10-27 | no text is both a username and an email address, so the login's choice of lookup is unambiguous |
| UserStore.HashMatchesOnlyItsPassword | internal/utils/password/password.go:9-21 | a password matches its own hash and no other password matches it |
| UserStore.AdmissibleKeepsUnique | repository/simple/user.go:8-32 | storing a row that clashes with no other row keeps the keys and both unique indexes |
| UserStore.Enumerate | repository/simple/user.go:70-91 | lists every user once, as the table holds it |
| UserStore.UserRepository.CreateUser | repository/simple/user.go:8-10 | the row gets the generated id; on success it was admissible and is added; on failure nothing changes |
| UserStore.UserRepository.UpdateUser | repository/simple/user.go:30-32 | on success the row under the user's key becomes the user; on failure nothing changes |
| UserStore.UserRepository.DeleteUser | repository/simple/user.go:12-28 | removes the user or nothing; only when a row went does the owner's file tree get deleted, and then only rows of the owner's root walk |
| UserStore.UserRepository.GetUser | repository/simple/user.go:34-44 | finds the user exactly when the id is a key |
| UserStore.UserRepository.GetUserByUsername | repository/simple/user.go:46-56 | finds nothing exactly when no user has the name; otherwise a user with it |
| UserStore.UserRepository.GetUserByEmail | repository/simple/user.go:58-68 | finds nothing exactly when no user has the address; otherwise a user with it |
| UserStore.UserRepository.GetUserList | repository/simple/user.go:70-91 | every user once, whatever the limit and offset |
| UserStore.UserRepository.CheckUserExists | repository/simple/user.go:93-110 | "" exactly when no user has the username or the email; "username" names a user with that username; "email" names a user with that email and a different username |
| UserStore.ConflictOutcomes | repository/simple/user.go:93-110 | a taken username with a free email always answers "username", and a taken email with a free username always answers "email" |
| CodeStore.Wildcarded | repository/cachedrepository/verification_code.go:66-88 | an empty argument becomes "*"; others are kept |
| CodeStore.CodeKeyInjective | repository/cachedrepository/verification_code.go:35-37 | the key determines type, code and target when neither the type nor the code contains a dot |
| CodeStore.CodeKeyCollides | repository/cachedrepository/verification_code.go:35-37 | without that restriction two different codes share a key |
| CodeStore.WildcardIsLiteral | repository/cachedrepository/verification_code.go:66-88 | a delete with an empty code builds a key no stored code has, because "*" is not a pattern for the cache |
| CodeStore.DeleteMatchesGet | repository/cachedrepository/verification_code.go:35-121 | with three non-empty arguments, delete, lookup and create all use the same key |
| CodeStore.Cache.Set | cache/redis/redis.go:37-45 | on success the entry is stored under its key; on failure nothing changes |
| CodeStore.Cache.Get | cache/redis/redis.go:47-72 | a hit returns the stored entry and "not found" means the key is missing; the call may fail for any key, and when it does not fail it hits exactly when the key is held |
| CodeStore.Cache.Del | cache/redis/redis.go:74-81 | on success exactly that key is removed |
| CodeStore.VerificationCodeRepository.CreateVerificationCode | repository/cachedrepository/verification_code.go:40-63 | a nil code is an argument error; a zero creation time becomes now; the code is stored under its key with its own lifetime |
| CodeStore.VerificationCodeRepository.DeleteVerificationCode | repository/cachedrepository/verification_code.go:66-88 | all three empty is an argument error; otherwise exactly the wildcarded key is removed |
| CodeStore.VerificationCodeRepository.GetVerificationCodeByCodeTypeTarget | repository/cachedrepository/verification_code.go:91-121 | the argument errors in order type, code, target; a missing key gives no code (a cache failure is an error); without an error a code is found exactly when its key is held, and it is the stored code |
| UserService.UnixSeconds | services/users.go:371-390 | Unix seconds of a time in nanoseconds, rounded down |
| UserService.WholeSeconds | services/users.go:371-390 | a duration in whole seconds, truncated toward zero for either sign |
| UserService.TokenExpiry | services/users.go:371-390 | a token's claimed expiry lies between the issue second plus its lifetime and one second later |
| UserService.UserService.CreateVerificationCode | services/users.go:392-464 | an invalid address is a field error; a registration code needs a free address and a reset code a registered one; on success a six-digit code from the draws is stored under its key; a mail failure is an error |
| UserService.UserService.CreateEmailVerificationCode | services/users.go:95-110 | nil params are an argument error; success stores a registration code with the configured type and lifetime |
| UserService.UserService.CreateResetPWDVerificationCode | services/users.go:118-132 | the same for a reset code, which needs a registered address |
| UserService.UserService.ConsumeCode | services/users.go:165-186 | a code is accepted only when its key is in the cache, and it is then removed; "invalid code" only when it is absent, and an absent code is "invalid code" or a cache failure |
| UserService.UserService.ResetPassword | services/users.go:142-201 | the argument and field errors; a missing code is invalid (or a cache failure) and changes nothing, and "invalid code" for a given code means it is missing; success consumes the code and re-hashes only the password of the user with that address; an unknown address is "email not found" after the code is consumed |
| UserService.UserService.InsertUnique | services/users.go:276-295 | inserts the candidate under the new id exactly when no user shares its username or email; otherwise reports which one clashes |
| UserService.UserService.RegisterUser | services/users.go:213-296 | "field is invalid" exactly for a malformed form; a missing code is invalid (or a cache failure) and changes nothing, and "invalid code" means it is missing; success consumes the code and adds exactly the new user with the hashed password and the role (default "user"); clashes are reported; only a registration writes under the lock |
| UserService.UserService.LoginUser | services/users.go:305-346 | the argument errors; an identity that is neither an address nor a username is refused; when no user authenticates the answer is "incorrect username or password" (or a store failure), and that answer only when no user authenticates; a token is issued only to a user it authenticates, with that user's claims |
| UserService.UserService.GetUserByID | services/users.go:349-369 | an empty id is an argument error; a user is returned only when the id is a key, and it is that row; "user not found" exactly for a missing id, unless a store failure comes first; no other error |
| Authorization.JoinSplit | middleware/authorization.go:63-74 | joining the pieces of a split gives the header back |
| Authorization.SplitJoin | middleware/authorization.go:63-74 | splitting pieces without a separator gives them back |
| Authorization.ToLower | middleware/authorization.go:63-74 | lower-casing keeps the length and maps each character by itself |
| Authorization.LowerIsBearer | middleware/authorization.go:63-74 | lower-casing gives "bearer" exactly for the spellings of "bearer" in any case |
| Authorization.BearerHeader | middleware/authorization.go:63-74 | a bearer header yields its token whatever follows; a header with another scheme yields nothing |
| Authorization.BearerParts | middleware/authorization.go:63-74 | a header of space-free pieces yields its second piece exactly when the first is the scheme |
| Authorization.NoSpaceNoToken | middleware/authorization.go:63-74 | a header without a space carries no bearer token |
| Authorization.TokenPrecedence | middleware/authorization.go:86-97 | the bearer token wins over the X-REQUEST-TOKEN header, which wins over the query parameter; the token is empty only when every source is |
| Authorization.DecodeUserToken | middleware/authorization.go:123-148 | a valid token for "user_auth" names a user by id and role; another subject names no one; a decoding error is passed on |
| Authorization.IssuedTokenDecodes | middleware/authorization.go:123-148 | the claims of a token issued at login decode to that user's id and role |
| Authorization.VerifyAndTest | middleware/authorization.go:99-121 | no token or no user is "not authenticated"; a decoding error is passed on; another role is "permission denied" exactly when the decoded role differs |
| Authorization.HandlerFunc | middleware/authorization.go:43-61 | an authenticated user of the role passes to the next handler; every refusal aborts with its result |
| Authorization.HandlerStatuses | middleware/authorization.go:43-61 | a missing token gives 401, another role gives 403, a decoding error gives 500 |
| Authorization.LoginTokenAdmits | middleware/authorization.go:43-121 | a token issued at login and sent as a bearer header admits its user to a route of their role, and gives 403 on any other role |
| Api.ErrorTypeToName | web/api/v1/api.go:42-47 | a known type's name from the table; "unknow" past the last type |
| Api.NamesIdentifyTypes | web/api/v1/api.go:16-47 | the name tells the known types apart, and no known type is "unknow" |
| Api.HttpStatus | web/api/v1/api.go:159-178 | 200 exactly for no error; 400 for failed precondition, already exists and invalid argument; 401, 403 and 404 for their types; 500 for internal and unknown types |
| Api.RespondError | web/api/v1/api.go:135-157 | the type's status, code and name; the message is the error's own text except for a 500 in release mode |
| Api.ReleaseMasksInternal | web/api/v1/api.go:135-157 | in release mode a 500 response's message is a type name, never the error's text |
| Api.Gin | web/api/v1/api.go:96-117 | a nil result passes on exactly when it is nil; every other result aborts |
| Api.GinPrecedence | web/api/v1/api.go:96-117 | a responder beats an error, which beats data; a success is a 200 with the data, only for a result with neither |
| Api.OkMeansNoError | web/api/v1/api.go:96-178 | a 200 answer is a success or an error of type "none" |
| Api.ConstructorReplies | web/api/v1/api.go:181-263 | each result constructor yields its own status, code and name |
| FileApi.FileErrorToAPIResult | web/api/v1/fileapi.go:14-30 | exactly which path errors are failed precondition, not found and already exists; everything else is internal |
| FileApi.FileErrorStatus | web/api/v1/fileapi.go:14-30 | a file error answers 400, 404 or 500 exactly as its kind says, never a success; only a release-mode 500 hides the text |
| FileApi.DirectoryOrRoot | web/api/v1/fileapi.go:34-56 | an empty directory means the caller's root |
| FileApi.MoveTarget | web/api/v1/fileapi.go:153-165 | "@" means the caller's root; every other target is passed on |
| FileApi.DefaultAgreesWithEngine | web/api/v1/fileapi.go:34-149 | defaulting in the handler places a node where the engine would, and it is idempotent |
| FileApi.MoveTargetCases | web/api/v1/fileapi.go:153-165 | the target is the root exactly for "@" or the owner's id; it is empty only for an empty target |
| FileApi.FileMkdir | web/api/v1/fileapi.go:135-149 | success is a `Created` directory under the given directory or the root ("/" when none is given), and a valid parent with a free name fails only on a store failure; an error leaves the table alone and is answered by the error table |
| FileApi.FileUpload | web/api/v1/fileapi.go:34-56 | an upload that cannot be opened is an invalid argument; success is a `Created` file whose blob was added, and a valid parent with a free name fails only on a store failure |
| FileApi.FileMove | web/api/v1/fileapi.go:153-165 | success means the node was already there or was `Moved` under the target; a node already under the target is answered with success (or internal for a store failure) and the table unchanged; an error leaves the table alone; a taken name is answered "already exists" (or internal for a store failure) and only a taken name is; a bad parent with a free name is a failed precondition (or internal) and only a bad parent is |
| UserApi.UserErrorToAPIResult | web/api/v1/userapi.go:10-28 | exactly which user errors are not found, already exists and invalid argument; everything else, "email not found" included, is internal |
| UserApi.UserErrorStatus | web/api/v1/userapi.go:10-28 | a user error answers 404, 400 or 500 by its kind; an argument error of the service is a 500 |
| UserApi.UserRegister | web/api/v1/userapi.go:45-59 | registers with the role "user" only; success adds exactly that user; a malformed form is an invalid argument and changes nothing |
| UserApi.UserLogin | web/api/v1/userapi.go:63-74 | a token only for an authenticated user; an empty field is an internal error; when no user authenticates the answer is an invalid argument carrying "incorrect username or password" (or internal for a store failure), and an invalid argument only when no user authenticates |
| Config.DefaultedIsFilled | config/config.go:151-211 | after defaulting, every setting the service needs is set, and the absolute base path is joined on the working directory |
| Config.DefaultedKeepsSetFields | config/config.go:151-211 | defaulting keeps every field that was already set, and the Prometheus gateway and TLS cache only apply when enabled |
| Config.DefaultedIdempotent | config/config.go:151-211 | defaulting twice is defaulting once |
| Config.Config.InitializeConfig | config/config.go:151-211 | the configuration becomes the defaulted one |
| Config.Config.DefaultFileService | config/config.go:158-162 | the base path defaults to "files", and the absolute path follows it |
| Config.Config.DefaultJWT | config/config.go:164-169 | a two-hour expiry and the key "golang-service" by default |
| Config.Config.DefaultVerificationCodes | config/config.go:171-183 | both code types get their names and two-hour lifetimes |
| Config.Config.DefaultRegisterCode | config/config.go:172-177 | "register" with two hours by default |
| Config.Config.DefaultResetCode | config/config.go:178-183 | "reset_password" with two hours by default |
| Config.Config.DefaultEmail | config/config.go:185-187 | a queue of 1024 by default |
| Config.Config.DefaultPrometheus | config/config.go:189-197 | gateway and interval defaults only when enabled; otherwise nothing changes |
| Config.Config.DefaultHTTP | config/config.go:199-207 | port "8080" by default, and the TLS cache directory only with AutoTLS |
| Executor.FirstFailure | internal/utils/executor/executor.go:33-46 | the first failing position: every earlier action succeeds and that one fails |
| Executor.FailuresAreTheErrors | internal/utils/executor/executor.go:33-46 | the callback sees exactly the failing actions, each with its error, in list order |
| Executor.NoFailuresIffAllSucceed | internal/utils/executor/executor.go:33-46 | no callback call exactly when every action succeeds |
| Executor.FirstFailureIs | internal/utils/executor/executor.go:33-46 | a failure whose predecessors all succeed is the first failure |
| Executor.Executor.Add | internal/utils/executor/executor.go:18-20 | appends the action |
| Executor.Executor.AddFuncWithTag | internal/utils/executor/executor.go:23-25 | appends a tagged function action |
| Executor.Executor.AddFunc | internal/utils/executor/executor.go:28-30 | appends an untagged function action |
| Executor.Executor.Execute | internal/utils/executor/executor.go:33-46 | stopping on error runs up to the first failure and returns its error; otherwise it runs all and reports each failure to the callback |
| Random.DigitString | internal/utils/random/random.go:21-29 | a string of the requested length, each character the decimal digit of its draw |
| Random.String | internal/utils/random/random.go:11-18 | the requested number of bytes from the source, or nothing when the read fails |
| StdLog.Decorate | internal/log/stdlog.go:46-67 | the loop computes the decorated map |
| StdLog.AppendLevel | internal/log/stdlog.go:39-44 | the level, then the decorated fields |
| StdLog.PairedKeys | internal/log/stdlog.go:46-67 | the keys of the first pairs are the values at even positions |
| StdLog.PairedLastWins | internal/log/stdlog.go:46-67 | a repeated key keeps the value of its last pair |
| StdLog.DecoratedKeys | internal/log/stdlog.go:46-67 | the keys are exactly the even-position arguments; a dangling last argument maps to "non-value" |
| StdLog.DecoratedValue | internal/log/stdlog.go:46-67 | each key maps to the value after its last occurrence as a key |

## Left out

- Disk I/O: `saveFile`, `os.Remove` and `os.Open` act on a set of blob ids, and each may fail. File contents, the upload stream and partial writes beyond "maybe the id" are not modelled.
- gorm internals: a transaction is a working copy committed by replacement. Soft delete (`DeletedAt`) is plain removal. Row order in lists is left to the store, so `First` returns some matching row.
- The goroutine concurrency behind `GLocker` and its mutexes: the lock table is modelled as reference counts with lock/unlock events. Mutual exclusion of concurrent callers is not modelled.
- JWT signing and parsing: only claims are modelled, and a decoded token is an input. A parse that returns no token, which the Go code would dereference, is not modelled.
- bcrypt: a hash is a symbolic value of its password. The mailer and its templates are a possible failure input to the code generators.
- Redis: key expiry (TTL) is recorded but time passing is not. `List` is not modelled; nothing calls it in the core.
- JSON encoding of data and of responses: a response carries the data value itself.
- `path.Join` cleaning: names are treated as plain segments, and the join drops nothing else.
- Authorization.ToLower: lower-cases ASCII letters only, not all the Unicode letters `strings.ToLower` handles.
- FileService.FileService.MoveFile: requires that the target is neither the node nor below it. The source does not check this, and such a move would make the tree cyclic. FileApi.FileMove carries the same precondition.
- FileService.FileService.DeleteFile: a child delete that fails is skipped, as the source ignores its error. WellFormed is promised again only for a complete run, because a partial walk can leave orphaned rows.
- FileService.FileService.CreateFileModel: requires that a new FID is fresh (FileRules.FreshId): it is not the owner and not the parent, and no row sits below it. This is how the model reads the uniqueness of the uuid generator. FileService.FileService.CreateDirectory, FileService.FileService.CreateFile, FileService.FileService.CreateUploaded, FileApi.FileMkdir and FileApi.FileUpload carry the same precondition.
- FileService.FileService.GetFileByPID and FileService.FileService.GetFileListsByOwner: the branch that reports "file not found" for a nil list (services/files.go:567-569 and 591-593) is left out. The repository starts from an empty, non-nil slice, and gorm's `Find` into a slice does not report a missing record (repository/simple/file.go:95-99), so the branch cannot be taken. Limits and offsets are `nat`: a negative value, which gorm ignores, is written 0.
- FileStore.FileRepository.DeleteFile: the promise that a complete run records the blob removal of every plain file in the walk is made for a node whose directory flag matches its own row, as it does for every caller, which reads the node from the table. FileStore.FileRepository.DeleteDirectory carries the same condition.
- UserService.WholeSeconds: `int64(d.Seconds())` goes through a float64; the model truncates exactly. Rounding for durations beyond 2^53 nanoseconds is not modelled.
- Api.ErrorTypeToName: requires a non-negative type, because a negative one indexes outside the table and panics in Go. Api.RespondError and Api.Gin carry the same condition.
- The user repository's `UpdateUser` with a blank id (gorm would insert), the viper loading and unmarshalling of the configuration, and the data-context errors of the simple back-end (which never fail) are not modelled.
- Configuration is read once, as the settings of the service objects.
- The handlers FileDownload (streaming by a responder), FileGetRootList, FileGetInfo, FileGetList, FileDelete, FileRename, UserEmailCodeGenerator, UserResetPassword, UserResetPasswordCode and UserCurrentInfo are not modelled. Each binds a form and passes it to a modelled service operation, then to the modelled error table.
- Routing, reflection binding (`apifunc.go`), CORS, Prometheus metrics, the request logger, the zap logger and `main.go` are not modelled.

## Findings

| source | as written | input that shows it | evidently intended | confidence | as-written member | corrected member |
|---|---|---|---|---|---|---|
| services/files.go:110-113 | `createFileModel` looks the parent up by the new node's own FID, and returns when that lookup succeeds and fails only when the lookup errs | user "u" with a directory "d" named "docs": creating "a.txt" under "d" returns no node and no error, and nothing is created | look the parent up by PFID and refuse it unless it exists and is a directory; then place the node at the parent's path | high (not executed) | FileRules.CreateInDocsAsWritten | FileRules.CreateParentChecked |
| services/files.go:496-515 | `move` checks only that the new parent exists, not that it is a directory | plain files "p" and "n" at the root: moving "n" under "p" succeeds and stores "n" with directory "/a.txt" below a plain file | refuse a parent that is not a directory, as `createFileModel` does | high (not executed) | FileRules.MoveUnderPlainFileAsWritten | FileRules.MoveParentChecked |
