# Password server: device credentials over a shared SQL store

The server keeps one vault of passwords per user, sealed under a database secret. A device greets with
an X25519 public key, signs up or signs in as a user, waits until an admin confirms it, and then reads
and writes that user's passwords under a key shared with the server. Fifteen or so handlers drive four
tables (users, identities, groups, passwords). Each handler reads, checks and then writes by uuid; only
sign-up runs in a transaction. What has to be right is therefore right only under interleaving, and
that is what this project proves.

## How the model is built

- `Schema`, `Statements`: the four tables, what SQLite enforces on them (primary keys, UNIQUE, foreign
  keys), and every SQL statement the handlers execute, with partial updates that skip absent fields.
- `Protocol`: each handler as a program counter. `Next` executes one SQL statement; what a handler
  computes between two statements belongs to the step before. `Handle` runs a request to its reply with
  nobody else at the tables.
- `Guarantee`: rely and guarantee. `PcOk` is what a request knows between two statements; no statement of
  another request takes it away (rely), and every statement keeps the database invariant (guarantee).
- `World`, `Runs`, `Window`, `Atomic`: database generations behind the pool lock, any number of requests
  in flight, exports, imports and single migrations at any point; safety over whole runs of any length,
  and what holds between two migrations of an imported database.
- `Crypto`, `Hex`, `Bits`: the library primitives as functions of which only published laws are used
  (authenticated encryption, Diffie-Hellman of section 6.1 of RFC 7748), the `nonce + ciphertext`
  envelope, the clamp of section 5 of RFC 7748 on bytes and on numbers.
- `Vault`: the plaintext vault that the encrypted store implements. `Isolation`,
  `Undisturbed`: what one user's requests can touch or depend on. `Races`, `LateWrites`: when a request
  that checks first and writes later amounts to an atomic one. `SignUps`, `Credentials`, `Recovery`,
  `SoftDelete`, `Effects`: what the credential and admin requests do, exactly. `Replies`: what replies
  show, field by field and from one request to a later one, and which error each refusal is.
- `Expiry`, `Listing`: validity windows, list filter and pages. `ArchiveEnv`: the `.env` of an archive.
  `AdminAccess`: subnet mask (section 3.1 of RFC 4632) and admin key.
- `Migrations`, `MigrationScript`: the migration chain as functions on whole databases, and the same
  scripts as ordered statements that rewrite tables in place. `Upgrade`: what becomes of the users and
  devices of an old database.
- `Server`: the store and the application state as classes whose methods change fields in place; each
  handler method is proved equal to `Handle`. `AdminCli`: the state of the admin terminal as a class.

## Findings

- Import accepts a database of the first schema, swaps it in, and only then runs three migrations that
  are committed one by one, outside the lock. Between the first two, every table but `passwords` has the
  columns the handlers name: greet, sign-up, sign-in, confirm and the rest work, without a unique index
  on the address. Two requests then give an address two rows: a greet whose address was taken since its
  check (`Window.TwoGreetsTwoRows`), and, without any race, a re-sign from an address that another device
  holds (`Window.ResignTakesAddress`); the next migration deletes whichever row is older. Up to that
  migration, addresses are unique at every point if and only if they were unique in the file and no such
  statement is executed (`Window.ImportedStaysUniqueExactly`). A device confirmed in the window can be
  deleted by the next migration (`Window.ConfirmedThenDropped`). Everything else of the invariant holds
  throughout, and the second migration restores the rest with requests in flight
  (`Window.RunMeetsStages`).
- A refresh proves the token and the ehlo of the user of the row it read and then writes by uuid. If a
  sign-in links the device to another user in between, the refresh still succeeds and its token is live
  on a device of that other user (`LateWrites.RefreshAfterRelink`); two refreshes past the token check
  both succeed and the first token is dead (`LateWrites.TwoRefreshesOneToken`). The write is the atomic
  refresh if and only if the proof still stands (`LateWrites.RefreshLinearizesExactly`); the same is
  proved for sign-in and re-sign, with a failing run each (`LateWrites.SignInAfterDelete`,
  `LateWrites.ResignAfterRelink`).
- A list request reads the user's groups and then the passwords of those groups, in two statements. If
  another device of the same user makes a group and moves a password into it in between, the password
  is missing from the reply although it was the user's all along. `Listing.ListRowsAreOwned` says exactly
  when the rows are complete, `Listing.MovedPasswordIsMissed` gives the failing case from any database.
- Sign-up decodes the request against a device row outside its transaction and then writes by uuid. It
  is an atomic sign-up at the transaction if and only if the name is free and the device still holds the
  address, or the name is taken and the device that holds the address decodes to a taken name
  (`Races.SignUpLinearizesExactly`). `Races.DeviceDeletedBetween` is the failing run.
- A request that was past the deletion check when its user was deleted still lands
  (`SoftDelete.LateUpdateLands`). The user is frozen if and only if no such write succeeds
  (`SoftDelete.FrozenExactly`), and only requests that were late can execute one
  (`SoftDelete.DeletedUserIsFrozen`).
- A data request that authenticates on one database and is served on the next, because an import came
  between its two connections, is served by a database that may not know its device at all
  (`Runs.ServedByAnother`). Without an import in between it cannot happen (`Runs.CurrentStaysExactly`).
- The "every blob opens" invariant survives an import only because of the check of the archive's two
  secrets: `World.ForeignArchiveWouldNotOpen` gives an archive that would break it and is refused.
- docs/API.md:199 shows the token of `/re-sign` as sealed; the code takes it as plain hex
  (src/routes/resign.rs:28-31). docs/API.md:474 counts expiry from `created_at`; the code counts from
  `valid_since` (src/routes/passwords.rs:99-106). The model follows the code in both.
- An admin may confirm a device that has only greeted, so a confirmed device need not be linked; linking
  it drops the confirmation. After the migrations a device may have a user and no token; only "a token
  implies a user" is invariant. The model has all three.

## Model

| member | source | states |
|---|---|---|
| Crypto.EnvelopeOpens | src/crypto/keys.rs:43-64 | what was sealed under a key opens under it, through the 12-byte nonce framing |
| Crypto.EnvelopeIsSealed | src/crypto/keys.rs:54-64 | an envelope opens to a text exactly when it is at least 12 bytes and is the sealing of that text under its own nonce; otherwise the error is the one of the cipher |
| Crypto.KeysAgree | src/crypto/keys.rs:32-41 | server and device derive the same 32-byte key from each other's points |
| Crypto.KeyLengthsAreExact | src/crypto/keys.rs:32-41 | a shared key is derived exactly from two keys of 32 bytes |
| Crypto.BaseIsNine | src/crypto/keys.rs:6-8 | the base point is the number 9 in 32 bytes, little-endian |
| Crypto.LawsAreConsistent | src/crypto/keys.rs:10-12 | the laws asked of the primitives have an instance |
| Crypto.ClampInPlace | src/crypto/keys.rs:20-23 | the three masking assignments leave the clamped bytes in the array |
| Crypto.ClampArithmetic | src/crypto/keys.rs:20-23 | as a little-endian number the clamp is 2^254 plus the low 254 bits of the input without the lowest three |
| Crypto.ClampIsScalar | src/crypto/keys.rs:20-23 | a clamped key is a multiple of 8 in [2^254, 2^255) |
| Crypto.ClampIsIdempotent | src/crypto/keys.rs:20-23 | clamping twice is clamping once |
| Hex.RoundTrip | src/routes/passwords.rs:77-85 | decoding encoded bytes gives the same bytes |
| Hex.Injective | src/routes/admin.rs:304-309 | equal hex texts come from equal bytes |
| Hex.HighDigitFirst | src/routes/passwords.rs:85 | each byte is written as its high and then its low digit, in lower case |
| Hex.DecodeAcceptsExactly | src/routes/passwords.rs:93-94 | exactly the texts of even length of hex digits decode |
| Hex.CaseDoesNotMatter | src/routes/passwords.rs:93-94 | an upper-case digit decodes as its lower-case one |
| AdminAccess.AdmitsExactlyTheBlock | src/routes/mod.rs:92-120 | the mask comparison admits exactly the 2^(32 - prefix) aligned IPv4 addresses around the base, for every prefix, and refuses all others as unauthorized |
| AdminAccess.MalformedSubnetIsInternal | src/routes/mod.rs:94-105 | an internal error is returned exactly for a subnet that does not parse or a prefix over 32 |
| AdminAccess.KeyIsTheSecret | src/routes/mod.rs:122-132 | for every request, with or without the header: it is let in exactly when the header is the hex text of the software secret, and refused as unauthorized otherwise |
| AdminAccess.OnlyTheSecretsText | src/routes/mod.rs:122-132 | the hex text of a key is let in exactly when the key is the secret |
| Schema.EmptyDbInv | src/db/mod.rs:32-38 | the empty database meets the runtime invariant |
| Statements.InsertIdentityKeeps | src/domain/identity.rs:75-80 | inserting a device with good keys keeps the invariant and the rely relation |
| Statements.UpdateIdentityKeeps | src/domain/identity.rs:38-47 | a partial update by uuid keeps the invariant if it sets a token only on a device with a user; it never touches key columns |
| Statements.DeleteIdentityKeeps | src/domain/identity.rs:100-102 | deleting a device keeps the invariant and everything owned by users |
| Statements.InsertUserKeeps | src/domain/user.rs:53-58 | inserting a user keeps the invariant |
| Statements.UpdateUserKeeps | src/domain/user.rs:60-70 | toggling a user keeps the invariant, names and secrets |
| Statements.InsertGroupKeeps | src/domain/group.rs:38-43 | inserting a group keeps the invariant |
| Statements.InsertPasswordKeeps | src/domain/password.rs:59-64 | inserting a password whose blob opens keeps the invariant |
| Statements.UpdatePasswordKeeps | src/domain/password.rs:66-80 | updating a password within its owner's groups keeps the invariant and the owner of every password |
| Protocol.StepsEnd | src/routes/passwords.rs:215-270 | every statement brings a request strictly closer to its reply, so no handler runs for ever |
| Guarantee.KnowledgeIsStable | src/routes/refresh.rs:34-96 | what a request learned from its reads stays true whatever statements other requests execute |
| Guarantee.ReadsLearn | src/routes/passwords.rs:173-201 | each reading step establishes what the next statement of the handler needs |
| Guarantee.WritesKeep | src/routes/signin.rs:104-120 | each writing statement, the sign-up transaction included, keeps the database invariant and the rely relation |
| Guarantee.StepKeeps | src/routes/resign.rs:33-77 | one statement of any request, in any state and any stage of the schema, keeps the uniqueness that the stage enforces, foreign keys, token-implies-user and every-blob-opens |
| World.InitialInv | src/db/mod.rs:23-38 | a fresh server meets the invariant |
| World.OthersUndisturbed | src/routes/mod.rs:49-52 | a step on one generation leaves the knowledge of every other request standing |
| World.ExecKeepsInv | src/routes/mod.rs:140-161 | one statement of one request on whatever generation it is connected to keeps the whole server's invariant |
| World.AcceptedContentOk | src/routes/admin.rs:304-313 | a genuine archive that passes the secret check holds a database this server can open |
| World.ExportIsGenuine | src/routes/admin.rs:207-217 | an export of a good database is a genuine archive that this server's own check accepts |
| Runs.ExportIsBackup | src/routes/admin.rs:199-217 | a file exported now is kept by every run and, imported at any later point, makes a generation whose database is the current one at the export |
| World.ForeignArchiveWouldNotOpen | src/routes/admin.rs:304-313 | a concrete genuine archive of another server that would break the invariant is refused by the check |
| World.ImportKeepsInv | src/routes/admin.rs:315-326 | an accepted import, of a database in any schema from the first to the runtime one, keeps the invariant of every generation and of every request in flight |
| World.MigrateKeepsInv | src/routes/admin.rs:328-331 | each of the three migrations, committed on its own after the swap and outside the lock, keeps the invariant of every generation and of every request in flight |
| World.RunKeepsInv | src/routes/mod.rs:48-67 | over every interleaved run with imports and single migrations every generation meets the invariant of its stage |
| Window.RunMeetsStages | src/routes/admin.rs:326-331 | at every point of every run: the first schema is well-formed; from add_users_table on all of the invariant but one device per address; that from unique_identity_ip on; the runtime invariant exactly from the last migration on |
| Window.WindowIsReached | src/routes/admin.rs:326-331 | from every state an import and its first migration lead to a database where one device per address holds exactly if it held in the file |
| Window.TwoGreetsTwoRows | src/routes/greet.rs:38-66 | the first failing run of the window: two greets past the check both insert a row of one address |
| Window.ResignTakesAddress | src/routes/resign.rs:66-77 | the second failing run, without a race: a re-sign from an address another device holds succeeds, the address has two rows, and the next migration deletes the device with the older row |
| Window.StepKeepsUniqueExactly | migrations/20260622000001_unique_identity_ip/up.sql:15 | in the window a statement that finds addresses unique leaves them so if and only if it is no greet insert and no re-sign write that takes a held address |
| Window.RunKeepsUniqueExactly | src/routes/admin.rs:326-331 | over a run addresses are unique at every point if and only if they are at the start and nobody takes a held address in the window |
| Window.ImportedStaysUniqueExactly | src/routes/admin.rs:326-331 | from the first migration of an import on, they are so if and only if they were unique in the file and nobody takes a held one before the second migration |
| Window.ConfirmedThenDropped | src/routes/admin.rs:57-73 | in that window a device can be confirmed and then be deleted, with its token, by the next migration |
| Window.PasswordsWait | src/schema.rs:40-51 | over every run that ends before the last migration no password is added, changed or lost |
| Runs.AcceptedDeviceWasApproved | src/routes/mod.rs:141-150 | a device that passes the checks was, at its latest admin confirm, a device of that user at that address |
| Runs.TokensLeaveForGood | src/routes/refresh.rs:83-96 | a token hash once in the table stays in it or is retired for ever, over every run with single migrations |
| Runs.LeftTokenIsDead | src/routes/signin.rs:65-77 | after a token left by refresh, relink, delete or migration, no request that starts afterwards on that database is authenticated by it or finds a device to re-sign with it |
| Runs.TokenStaysOnDevice | src/domain/identity.rs:82-92 | over every run a token seen on one device is never on another |
| Runs.EveryTokenWasIssued | src/routes/mod.rs:141-142 | every live token of every generation was drawn by a sign-up, sign-in or refresh, or known at the start |
| Runs.ConnectionsNeverGoBack | src/routes/mod.rs:49-67 | the generations seen by one request never go backwards, and after an import every new connection is to the new database |
| Runs.CurrentStaysExactly | src/routes/mod.rs:49-67 | the current database stays the same over a run if and only if nothing is imported, so authentication and service use one database unless an import comes between |
| Runs.ServedByAnother | src/routes/group.rs:70-77 | the failing run: an import comes between the two connections of a request, and it is served by a database in which its device is not there or not confirmed |
| Runs.AuthenticatedReconnects | src/routes/mod.rs:49-67 | a request gives its connection back exactly when it has been authenticated, so that its service runs on whatever is current by then |
| Runs.OldGenerationFrozen | src/routes/mod.rs:60-66 | a replaced, migrated database nobody is connected to never changes again |
| Runs.DataLasts | src/domain/group.rs:29-44 | over every run device keys and groups are fixed, no password is lost, and no password changes its owner |
| Runs.RunRefinesVault | src/routes/passwords.rs:180-201 | every run of the encrypted server is a run of the plaintext vault, with only allowed moves |
| Runs.LastWriteWins | src/routes/passwords.rs:253-267 | after a sequence of vault moves an item holds the text last sent for it |
| Runs.OwnerReadsLastSent | src/routes/passwords.rs:286-294 | after any run the owner's device opens, with its own key, the text last sent by any of the owner's devices, and is shown the vault item's name, extra text, group and days left |
| Undisturbed.ListShowsLastSent | src/routes/passwords.rs:126-155 | after any run every entry of a list opens, with the device's own key, to the text last sent for it |
| Runs.RunKeepsRange | src/routes/passwords.rs:198 | windows stay within 1 to 365 days over every run |
| Atomic.AloneIsHandler | src/routes/mod.rs:48-52 | from any reachable state, a request nobody interrupts has exactly the effect and reply of its atomic handler |
| Vault.StepRefinesVault | src/routes/passwords.rs:180-201 | a statement is exactly one vault move by the authenticated user, or none; a create adds the item of the request's own fields (group, text sent, name or "", extra or "{}", days asked, now) |
| Vault.DeviceKeyIsClientKey | src/routes/passwords.rs:91-95 | the key the server derives for a device is the key the device derives, for the whole life of the identity |
| Vault.ServerReadsWhatDeviceSealed | src/routes/passwords.rs:88-97 | the server reads a text exactly when the device sealed that text under the shared key |
| Vault.DeviceSealIsRead | src/routes/passwords.rs:88-97 | whatever the device seals, the server reads |
| Vault.DeviceOpensStored | src/routes/passwords.rs:76-86 | a stored blob always re-encrypts, and the device opens the result to the stored text |
| Vault.GetReturnsVaultItem | src/routes/passwords.rs:286-308 | with other requests between its two reads, a get shows the vault's item (text, name, extra, group, days left of its window, rounded up) exactly when it was the user's own, and refuses otherwise |
| Vault.EveryRowOpens | src/routes/passwords.rs:138-153 | listing never fails on a row; each entry opens under the device's key to the stored text, shows the days left (0 in the expired list), and has a nonce of its own |
| Isolation.StepTouchesOwnDataOnly | src/routes/passwords.rs:239-267 | no statement changes what any other user owns |
| Isolation.RequestsDependOnOwnDataOnly | src/routes/passwords.rs:126-128 | on two databases that agree on one user's data, that user's requests get the same replies and leave the data in agreement |
| Undisturbed.OthersLeaveData | src/routes/passwords.rs:239-267 | over every run in which no statement writes the user's data, the user's groups and passwords are the same |
| Undisturbed.GetIsUndisturbed | src/routes/passwords.rs:286-294 | any run of other users' requests between the two statements of a get leaves its reply the one of the handler alone |
| Undisturbed.ListIsUndisturbed | src/routes/passwords.rs:126-155 | any run of other users' requests between the two statements of a list leaves its reply the one of the handler alone |
| Isolation.DataIsAuthThenServe | src/routes/mod.rs:134-162 | a data request is the length checks, then authentication, then service; the first failure is the reply and nothing changes |
| Isolation.GetResult | src/routes/passwords.rs:286-309 | what an undisturbed get replies, field by field, with the days left counted from the start of the window, for the owner and for everybody else |
| Isolation.ListResult | src/routes/passwords.rs:126-155 | what an undisturbed list replies |
| Isolation.CreateResult | src/routes/passwords.rs:180-212 | what an undisturbed create stores and replies, field by field from what was asked, with its error cases |
| Replies.CreateShows | src/routes/passwords.rs:180-212 | the owner's create succeeds, and its reply opens under the device's key to the text sent and shows the whole window |
| Replies.CreatedIsGot | src/routes/passwords.rs:191-212 | what one device creates, every device of the user gets: group, name or "", extra or "{}", text and window as sent |
| Replies.UpdatedIsGot | src/routes/passwords.rs:253-267 | what one device updates, every device of the user gets: the text and group sent, name and extra if sent, the days left counted from the update |
| Replies.GroupListIsExact | src/routes/group.rs:77-87 | a list of groups is exactly the user's groups |
| Replies.LengthsAreExact | src/routes/passwords.rs:164-171 | exactly group names over 128 bytes, password names over 256 and extra texts over 4096 are refused, as invalid |
| Replies.AuthenticationFailsAlike | src/routes/mod.rs:134-162 | whatever is wrong, a request that is not authenticated gets the one error |
| Replies.SignInFailsAlike | src/routes/signin.rs:135-147 | unknown name, deleted user and wrong ehlo get the one error |
| Replies.TextErrors | src/routes/passwords.rs:88-97 | a text that is not hex is invalid, one the device did not seal fails in the cipher |
| Replies.ClaimErrors | src/routes/signin.rs:39-57 | the error of each claim that does not decode |
| Replies.RefreshErrors | src/routes/refresh.rs:34-81 | the error of each refresh that is refused for what was sent or for the device's row |
| Replies.ResignErrors | src/routes/resign.rs:44-65 | the error of each re-sign whose ehlo or user is missing |
| Replies.NobodyIsUnauthorized | src/routes/signin.rs:39-42 | a request from an address, or with a token, that nobody has is unauthorized and changes nothing; a token that is not hex is invalid |
| Isolation.UpdateResult | src/routes/passwords.rs:239-269 | what an undisturbed update stores, with its error cases |
| Isolation.GroupCreateResult | src/routes/group.rs:46-62 | what a group creation stores and replies |
| Races.GreetIsLinearizable | src/routes/greet.rs:38-66 | in every stage of the schema, whatever happens between check and insert, a greet refused at its check is the atomic greet there, and one that passed is the atomic greet at its insert if and only if the unique index is there or the address is free |
| Races.InsertDecides | src/routes/greet.rs:59-66 | in every stage the insert adds the row, or replies precondition failed exactly when the address is taken and the unique index is there |
| Replies.GreetIsExact | src/routes/greet.rs:30-72 | a greet is refused exactly for a key that is not the hex of 32 bytes, then for a taken address; otherwise one row is added and its public key is the reply |
| Replies.GreetRowIsExact | src/routes/greet.rs:42-57 | the row is unlinked and unconfirmed, has the key sent, and its stored private key opens to a clamped scalar (a multiple of 8 in [2^254, 2^255)) that makes its public key |
| Races.SignUpAllOrNothing | src/routes/signin.rs:104-120 | the transaction makes one user with one linked device or changes nothing, with the exact conditions |
| Races.SignUpLinearizesIfDeviceStays | src/routes/signin.rs:96-120 | if the device still holds the address at the transaction, the sign-up is an atomic one at that point |
| Races.SignUpLinearizesOnlyIfDeviceStays | src/routes/signin.rs:96-120 | with the name free, a sign-up is an atomic one at its transaction only then |
| Races.SignUpConflictLinearizes | src/routes/signin.rs:96-107 | with the name taken, the reply is a conflict, and an atomic sign-up replies so exactly if the device then at the address decodes to a taken name |
| Races.AtomicConflict | src/routes/signin.rs:96-107 | the points at which an atomic sign-up replies with a conflict: exactly where the device at the address decodes to a taken name |
| Races.SignUpConflictAtDecode | src/routes/signin.rs:96-107 | at the decode that is exactly when the name was taken already then |
| Races.SignUpLinearizesExactly | src/routes/signin.rs:96-120 | a sign-up is the atomic one at its transaction if and only if the name is free and the device stays, or the name is taken and the device at the address decodes to a taken name |
| Races.DeviceDeletedBetween | src/routes/signin.rs:96-120 | the failing run: the device is deleted before the transaction, and the reply is a database error |
| Races.AtomicSignUpFindsItsDevice | src/routes/signin.rs:96-120 | no atomic sign-up on any database gives that reply |
| Credentials.SignInIsExact | src/routes/signin.rs:133-152 | accepted exactly when the device sealed the name and ehlo of a live user; then links that device, drops its approval and changes nothing else |
| SignUps.SignUpIsExact | src/routes/signin.rs:89-124 | a token exactly when the device sealed a name of 1 to 64 bytes that is free and an ehlo; then one new live user has that name and is proved by exactly that ehlo, and the device is linked to it, unconfirmed; a refused one changes nothing |
| SignUps.SignUpComesTo | src/routes/signin.rs:96-107 | the error of each sign-up that is refused: the one of the claim, invalid for the length of the name, conflict for a taken name |
| SignUps.NewUserSignsIn | src/routes/signin.rs:99-120 | from then on any device that seals the same name and ehlo signs in as that user |
| Credentials.RefreshIsExact | src/routes/refresh.rs:34-100 | accepted exactly when the device sealed its current token and its live user's ehlo; then only the token changes |
| Credentials.ResignIsExact | src/routes/resign.rs:28-81 | accepted exactly when the token's device sealed its live user's ehlo and the address is free; then address and approval change |
| Credentials.AuthenticationIsExact | src/routes/mod.rs:134-162 | a token authenticates a device exactly when it is the device's, from its address, confirmed, with a live user |
| Credentials.WritesNeedProof | src/routes/signin.rs:135-149 | a linking write follows a proof of the ehlo of the user it links; a refreshing or re-signing write follows a proof of the ehlo of the user the device had when its row was read |
| Credentials.LateRefresh | src/routes/refresh.rs:85-96 | under any interleaving the refresh writes the token of the row as it is by then and nothing else, or fails if the row is gone |
| Credentials.LateResign | src/routes/resign.rs:66-77 | under any interleaving the re-sign writes address and approval of the row as it is by then, or fails if the row is gone or the address taken |
| Credentials.LateLink | src/routes/signin.rs:66-77 | under any interleaving the sign-in links the row as it is by then to the proved user, or fails if the row is gone |
| LateWrites.RefreshLinearizesExactly | src/routes/refresh.rs:34-96 | the late write of a refresh is the atomic refresh at that moment if and only if the device still has the address and what it sealed still proves its token and its user |
| LateWrites.RefreshStillStands | src/routes/refresh.rs:34-96 | of what a refresh read and opened, exactly the address, the token and the live owner of the ehlo are left to check at the write |
| LateWrites.RefreshAfterRelink | src/routes/refresh.rs:69-96 | the failing run, from any good database: a relink to another user between proof and write, and the refresh still hands out a live token of a device of that other user |
| LateWrites.TwoRefreshesOneToken | src/routes/refresh.rs:55-96 | two refreshes past the token check both succeed, and the token of the first is dead |
| LateWrites.SignInLinearizesExactly | src/routes/signin.rs:133-149 | the late write of a sign-in is the atomic sign-in at that moment if and only if the device still has the address and still proves the user |
| LateWrites.SignInStillStands | src/routes/signin.rs:133-149 | of what a sign-in proved, exactly the address and the deletion of the user are left to check at the write |
| LateWrites.SignInProves | src/routes/signin.rs:135-147 | the first half of a failing run: a sign-in proves the ehlo of a live user |
| LateWrites.SignInAfterDelete | src/routes/signin.rs:149 | the second half: the user is deleted in between, and the write links the device to the deleted user |
| LateWrites.ResignLinearizesExactly | src/routes/resign.rs:33-77 | the late write of a re-sign is the atomic re-sign at that moment, also when the address is taken, if and only if the device still has the token and still proves its user |
| LateWrites.ResignAfterRelink | src/routes/resign.rs:52-77 | the failing run: a relink to another user comes between proof and write, and the re-sign moves a device of that other user |
| Credentials.OnlyLinkChangesUser | src/routes/signin.rs:66-77 | only sign-in and sign-up change a device's user, and they drop the approval in the same statement |
| Effects.OnlyConfirmApproves | src/routes/admin.rs:57-73 | a device is confirmed after a step only by an admin's confirm, or for the same user and address as before |
| Effects.OnlyLinkAndRefreshMint | src/routes/refresh.rs:83-96 | a step brings at most one new token into the table, and only sign-up, sign-in and refresh do |
| Recovery.ConfirmWorks | src/routes/admin.rs:57-73 | confirm and unconfirm write one flag of one device, or report a missing device |
| Recovery.DeleteWorks | src/routes/admin.rs:84-91 | deleting a device removes its row and nothing else, or reports a missing device |
| Recovery.GreetWorks | src/routes/greet.rs:38-72 | a greet of a free address adds one row and replies with its public key |
| Recovery.RecoverySucceeds | docs/CLIENT.md:239-246 | delete, greet, sign-in and confirm all succeed from every good database where the address is free but for the stale device |
| Recovery.RecoveryKeepsData | docs/CLIENT.md:241-246 | the recovered device reads exactly what the user owned before, and nothing else |
| SoftDelete.DeletedUserIsFrozen | src/routes/admin.rs:149-170 | along any interleaved run without restore and import in which no late request executes a thawing write with success: the user's groups and passwords stay, no device is newly linked or gets a token or an address, and no other request gets past the check |
| SoftDelete.StepThawsExactly | src/routes/passwords.rs:239-267 | a statement of any request leaves a deleted user frozen if and only if it is not a successful write of the listed kinds; a re-sign to the same address and an update that changes nothing are not |
| SoftDelete.FrozenExactly | src/routes/admin.rs:149-170 | over every run without import a deleted user is frozen throughout if and only if no such write is executed with success |
| SoftDelete.FrozenToTheEnd | src/routes/admin.rs:149-170 | frozen throughout, everything is at the end as it was at the start |
| SoftDelete.OnlyLateThaw | src/routes/mod.rs:155-159 | only a request that is past the deletion check, or read the device for another user, can write so |
| SoftDelete.DeletedUserNeverAuthenticates | src/routes/mod.rs:155-159 | no token from any address authenticates a device of a deleted user, and every token of such a device is refused |
| SoftDelete.DeletionCheckRefuses | src/routes/mod.rs:155-159 | nor when the deletion comes between the two statements of the check |
| SoftDelete.LateUpdateLands | src/routes/passwords.rs:253-267 | the failing case: an update past the check when the user was deleted still lands |
| SoftDelete.RestoreUndoesDelete | src/routes/admin.rs:149-170 | restore after delete gives back the very same database |
| SoftDelete.FlagWorks | src/routes/admin.rs:159-173 | the request writes one flag of one user or reports a missing user |
| Expiry.RemainingIsCeiling | src/routes/passwords.rs:99-106 | remaining days are the days to the end of the window rounded up, within 0 and the window |
| Expiry.RemainingNeverRises | src/routes/passwords.rs:99-106 | remaining days never rise as time goes on |
| Expiry.ExpiredExactlyAtEnd | src/routes/passwords.rs:108-110 | expired exactly from the instant on that is the window's days, of 86400 seconds each, after its start |
| Expiry.ListsPartition | src/routes/passwords.rs:133-135 | the expired and the valid list together are the user's passwords, as multisets |
| Expiry.SelectExact | src/routes/passwords.rs:135 | a list holds exactly the rows of its kind |
| Expiry.PagesAreSuffix | src/routes/passwords.rs:136-137 | pages from an offset on concatenate to the rest of the list |
| Listing.PagesConcatenate | src/routes/passwords.rs:130-137 | for every page size from 1 to 200 successive pages are exactly the filtered list |
| Listing.PageIsBounded | src/routes/passwords.rs:130-137 | whatever is asked for, a page has at most 200 rows, all of the filtered list |
| Listing.PageIsClamped | src/routes/passwords.rs:130-137 | a size under 1 is as 1, a size over 200 as 200, a negative offset as 0, and what is not given is 50 rows from the first of the list that is not expired |
| Listing.PageIsExact | src/routes/passwords.rs:133-137 | a page of a size from 1 to 200 is the rows of the filtered list from the offset on, as many as asked for while there are some |
| Listing.DefaultPage | src/routes/passwords.rs:118-137 | without parameters the page is the first 50 rows that are not expired |
| Listing.CreatedHasWholeWindow | src/routes/passwords.rs:190-201 | a created password has a window of 1 to 365 days, as asked for when in range, all of it left |
| Listing.UpdatedHasWholeWindow | src/domain/password.rs:66-80 | the row an update writes has its whole window again, expires exactly at its end, and keeps its days and creation time |
| Listing.RowsAreExact | src/domain/password.rs:50-57 | the rows of some groups are exactly the passwords in them, each once |
| Listing.ListRowsAreOwned | src/routes/passwords.rs:126-128 | with other requests between the two reads, the rows are the user's own, each once, and complete if and only if none moved into a newer group |
| Listing.MovedPasswordIsMissed | src/routes/passwords.rs:126-128 | the failing case of completeness, from any database |
| Listing.ListedEntriesOpen | src/routes/passwords.rs:126-155 | every listed entry opens under the device's own key to the vault's text and shows the item's days left, 0 in the expired list |
| ArchiveEnv.ReadSecrets | src/routes/admin.rs:290-298 | the line loop finds the last value of each of the two prefixes |
| ArchiveEnv.LastValueMeaning | src/routes/admin.rs:292-298 | only the last line with a prefix counts |
| ArchiveEnv.LinesOfUnlines | src/routes/admin.rs:292 | splitting joined lines gives the lines back |
| ArchiveEnv.LinesAreStripped | src/routes/admin.rs:292 | joined lines come back without a carriage return at their end |
| ArchiveEnv.OpenLastLine | src/routes/admin.rs:290-303 | a last line without a line ending is a line too, with its carriage return kept |
| ArchiveEnv.PrintedNamesItsSecrets | src/routes/admin.rs:215-217 | reading back the printed `.env` gives the same two secrets, for all secrets |
| ArchiveEnv.AcceptsExactlyOwnSecrets | src/routes/admin.rs:299-313 | an exported `.env` is accepted exactly when both secrets are the importing server's own, and refused as unauthorized otherwise |
| ArchiveEnv.ExtraLinesDoNotMatter | src/routes/admin.rs:292-313 | lines without the two prefixes, whatever they hold, the order of the two secret lines and carriage returns at line ends change nothing |
| ArchiveEnv.AcceptsExactlyLastLines | src/routes/admin.rs:290-313 | any text is accepted exactly when the last line with each of the two literal prefixes carries the server's own secret; a text without one of them is invalid, any other unauthorized |
| Migrations.DownUndoesUp | migrations/20260621000001_add_users_table/down.sql:7-33 | down after up is the identity on every database of the first schema |
| Migrations.KeepsExactlyTheLatest | migrations/20260622000001_unique_identity_ip/up.sql:9-15 | the rows kept are exactly the latest of each address, one each |
| Migrations.IpsKept | migrations/20260622000001_unique_identity_ip/up.sql:9-12 | no address vanishes |
| Migrations.DeleteLeavesLatest | migrations/20260622000001_unique_identity_ip/up.sql:9-12 | keeping the rowids that are the maximum of their group is keeping the rows whose address no later row has |
| Migrations.MigrationEstablishesInvariant | migrations/20260621000001_add_users_table/up.sql:28-57 | the chain takes every well-formed database of the first schema to one that meets the runtime invariant |
| Upgrade.UserOfDevice | migrations/20260621000001_add_users_table/up.sql:36-37 | after the chain the user of each old device is there, not deleted, with the device's uuid and ehlo and a name made of the uuid |
| Upgrade.OnlyDevicesBecomeUsers | migrations/20260621000001_add_users_table/up.sql:36-37 | and there are no other users |
| Upgrade.EhloStillProves | migrations/20260621000001_add_users_table/up.sql:36-37 | exactly what proved the device's ehlo before proves that user |
| Upgrade.KeptDeviceAuthenticates | migrations/20260622000001_unique_identity_ip/up.sql:10-15 | a device whose address no later row has keeps its row and, with its old token from its address, authenticates exactly if it was confirmed |
| Upgrade.DataKeepsEveryField | migrations/20260621000001_add_users_table/up.sql:51-52 | every group and password keeps every field, and its window starts at its creation |
| Migrations.ChainIsMigrateUp | src/db/mod.rs:32-38 | the three migrations committed one by one, with nobody in between, are the chain |
| Migrations.UsersStageOk | migrations/20260621000001_add_users_table/up.sql:16-67 | after add_users_table everything of the runtime invariant holds but one device per address |
| Migrations.UsersStageIps | migrations/20260621000001_add_users_table/up.sql:62 | there one device per address holds exactly if it held in the first schema |
| Migrations.CollapseKeepsExactly | migrations/20260622000001_unique_identity_ip/up.sql:9-15 | whatever requests wrote in between, a device row stays, unchanged, exactly when no later row has its address; addresses are unique then and none vanishes |
| Migrations.CollapseKeeps | migrations/20260622000001_unique_identity_ip/up.sql:9-15 | the second migration restores one device per address and does only what requests in flight rely on |
| Migrations.AddWindowsKeeps | migrations/20260622000002_password_valid_since/up.sql:11-12 | the third migration makes the runtime invariant hold and changes no window |
| Migrations.MigrationKeepsWindows | migrations/20260622000002_password_valid_since/up.sql:11-12 | the days left of a migrated password are counted from its creation, as before |
| Migrations.MigrationKeepsData | migrations/20260621000001_add_users_table/up.sql:51-54 | every group and password survives with its contents and its owner's uuid |
| Migrations.MigrationKeepsLatestDevices | migrations/20260622000001_unique_identity_ip/up.sql:9-12 | a device survives exactly when no later row has its address, and every address keeps a device |
| MigrationScript.Tables.AddUsersTable | migrations/20260621000001_add_users_table/up.sql:28-57 | the ordered statements amount to one live user for each device, linked to it; the meaning of the function they are proved equal to is in `Upgrade` |
| MigrationScript.Tables.DropUsersTable | migrations/20260621000001_add_users_table/down.sql:7-33 | the ordered statements amount to the inverse function |
| MigrationScript.Tables.CollapseDuplicates | migrations/20260622000001_unique_identity_ip/up.sql:9-12 | the DELETE of every rowid that is not the MAX(rowid) of its address group leaves the latest row of each address |
| MigrationScript.Tables.AddValidSince | migrations/20260622000002_password_valid_since/up.sql:11-12 | every password starts its window at its creation time, keeps its days left at every instant, and is otherwise unchanged |
| MigrationScript.Tables.RunPending | src/db/mod.rs:32-38 | the scripts run in order are the whole chain |
| Server.Store.ChangeIdentity | src/domain/identity.rs:82-92 | the update in place is the statement, and leaves everything alone when it fails |
| Server.Store.ChangePassword | src/domain/password.rs:66-80 | the update in place is the statement |
| Server.Store.CountByUser | src/routes/admin.rs:115-120 | the counting loop gives every user the number of rows linked to it, as the size of the set of their positions |
| Server.LinkedCountIs | src/routes/admin.rs:115-120 | the count is the size of that set |
| Server.AppState.Greet | src/routes/greet.rs:23-73 | the handler run on the store is the atomic greet |
| Server.AppState.SignUp | src/routes/signin.rs:89-124 | the handler run on the store is the atomic sign-up, rolled back when linking fails; what that stores is `SignUps.SignUpIsExact` |
| Server.AppState.SignIn | src/routes/signin.rs:126-153 | the handler run on the store is the atomic sign-in |
| Server.AppState.Refresh | src/routes/refresh.rs:27-101 | the handler run on the store is the atomic refresh |
| Server.AppState.Resign | src/routes/resign.rs:21-82 | the handler run on the store is the atomic re-sign |
| Server.AppState.SetConfirm | src/routes/admin.rs:57-73 | the handler run on the store is the atomic confirm |
| Server.AppState.DeleteIdentity | src/routes/admin.rs:75-92 | the handler run on the store is the atomic delete |
| Server.AppState.ToggleUser | src/routes/admin.rs:140-174 | the handler run on the store is the atomic toggle |
| Server.AppState.ValidateAuth | src/routes/mod.rs:134-162 | the checks on the store find exactly the authenticated device |
| Server.AppState.CreateGroup | src/routes/group.rs:33-63 | the handler run on the store is the atomic group creation |
| Server.AppState.CreatePassword | src/routes/passwords.rs:158-213 | the handler run on the store is the atomic create; what that stores and replies is `Isolation.CreateResult` |
| Server.AppState.UpdatePassword | src/routes/passwords.rs:215-270 | the handler run on the store is the atomic update; what that stores is `Isolation.UpdateResult` |
| Server.AppState.GetPassword | src/routes/passwords.rs:272-310 | the handler run on the store is the atomic get; what that replies is `Isolation.GetResult` |
| Server.AppState.ListPasswords | src/routes/passwords.rs:112-156 | the handler run on the store is the atomic list; what that replies is `Listing.ListedEntriesOpen` and `Listing.PageIsExact` |
| Server.AppState.ListGroups | src/routes/group.rs:65-88 | the handler run on the store is the atomic list of groups |
| Server.AppState.Import | src/routes/admin.rs:285-334 | the pool is swapped exactly when both secrets match and a database is staged, and the pending migrations then make of the file, whatever its schema, a database that meets what the engine enforces at runtime; otherwise the pool stays; the old database is untouched either way |
| Server.Store.RunMigrations | src/db/mod.rs:32-38 | the pending migrations run in place on a file in any schema make of it what the chain makes of it |
| AdminCli.App.FetchAll | src/bin/admin_cli.rs:148-199 | a successful fetch pulls page and selection into the new list; a failed one leaves them alone |
| AdminCli.App.FetchUsers | src/bin/admin_cli.rs:268-313 | the selected user is clamped into the new list, nobody in an empty one; a failed fetch leaves list and selection alone |
| AdminCli.App.ToggleSelected | src/bin/admin_cli.rs:201-228 | the unchecked index is in range, and one flag flips on both sides exactly when the server agreed |
| AdminCli.App.ArmDelete | src/bin/admin_cli.rs:230-241 | the device armed for deletion is the selected one |
| AdminCli.App.UserConf | src/bin/admin_cli.rs:348-360 | counts the confirmed and all devices of a user, as sizes of sets of positions in the list |
| AdminCli.App.SetFlags | src/bin/admin_cli.rs:391-413 | after any mix of successes and failures exactly the devices posted with success have the new flag, and the cache agrees with the server |
| AdminCli.App.ToggleUserApproval | src/bin/admin_cli.rs:365-420 | approves all devices of the selected user, or revokes all if all were approved, leaves every other device alone, fetches the list again if there was a device, and keeps the cache in agreement |
| AdminCli.App.NextPage | src/bin/admin_cli.rs:438-443 | the page moves on only while there is one, to its first row; otherwise nothing moves |
| AdminCli.App.PrevPage | src/bin/admin_cli.rs:445-450 | the page moves back only while there is one, to its first row; otherwise nothing moves |
| AdminCli.App.NextRow | src/bin/admin_cli.rs:452-463 | the selection moves down by one and stops at the last row of the page or of the list |
| AdminCli.App.OnKey | src/bin/admin_cli.rs:1105-1258 | every key in every mode keeps the selection within the list and, with honest replies and no other writer, the cached flags in agreement with the server; which key does what is in its parts |
| AdminCli.App.OnDeleteQuestion | src/bin/admin_cli.rs:1126-1135 | only y carries out an armed delete; every other key disarms it and leaves list and server alone |
| AdminCli.App.OnFreeKey | src/bin/admin_cli.rs:1146-1257 | what each key does with no question open |
| AdminCli.App.OnArrow | src/bin/admin_cli.rs:1219-1238 | which arrow moves what on which tab |
| AdminCli.App.OnDeleteKey | src/bin/admin_cli.rs:1246-1252 | d arms the delete of the selected device, or deletes the selected user |
| AdminCli.App.ToggleUserDeleted | src/bin/admin_cli.rs:315-343 | the list of users is fetched again exactly when the server agreed |
| AdminCli.EveryRowHasAPage | src/bin/admin_cli.rs:438-443 | every device is on some page of ten, and the last page is not empty if there is a device |
| AdminCli.OfUserIsExact | src/bin/admin_cli.rs:374-380 | the devices posted are exactly those of the user |
| AdminCli.DevicesOfUser | src/bin/admin_cli.rs:374-390 | and the flag posted is the opposite of all being approved |
| Server.Store.FindIdentityByIp | src/domain/identity.rs:50-55 | finds the one device of the address, if there is one |
| Server.Store.FindIdentityByToken | src/domain/identity.rs:57-65 | finds the one device that holds the token hash, if there is one |
| Server.Store.FindUserByName | src/domain/user.rs:42-47 | finds the one user of the name, if there is one |
| Server.Store.GroupIds | src/routes/passwords.rs:126-127 | the ids of groups such that a password is in one of them exactly if the user is its owner |
| Server.Store.CreateIdentity | src/domain/identity.rs:75-80 | the insert in place is the statement, refused on a taken uuid, address or token |
| Server.Store.RemoveIdentity | src/domain/identity.rs:100-102 | the delete in place is the statement |
| Server.Store.CreateUser | src/domain/user.rs:53-58 | the insert in place is the statement, refused on a taken uuid or name |
| Server.Store.ChangeUser | src/domain/user.rs:60-70 | the update in place is the statement, refused for a missing user |
| Server.Store.CreateGroup | src/domain/group.rs:38-43 | the insert in place is the statement, refused without its user |
| Server.Store.CreatePassword | src/domain/password.rs:59-64 | the insert in place is the statement, refused without its group |
| Server.AppState.LinkDevice | src/routes/signin.rs:59-80 | one statement sets user and new token and drops the approval, or nothing changes |
| Server.AppState.DeviceToResign | src/routes/resign.rs:28-51 | finds the device by the token sent in plain hex and opens the ehlo with its key, with each error case |
| AdminCli.App.SelectedIndex | src/bin/admin_cli.rs:144-146 | the index of a selected row is in range |
| AdminCli.App.DeletePending | src/bin/admin_cli.rs:243-266 | the armed delete is used up; exactly that device leaves the server if it agreed, and the selection stays a device |
| AdminCli.App.NextUser | src/bin/admin_cli.rs:422-429 | the selected user moves down by one and stops at the last |
| AdminCli.App.PrevUser | src/bin/admin_cli.rs:431-436 | the selected user moves up and stops at the first |
| AdminCli.App.PrevRow | src/bin/admin_cli.rs:465-470 | the selection moves up and stops at the first row |
| AdminCli.App.FinishImport | src/bin/admin_cli.rs:1193-1199 | after an import the imported list is shown from the first page, and the selection is a device |
| AdminCli.Session | src/bin/admin_cli.rs:1090-1261 | over every sequence of keys and replies, page times ten plus the selected row is a device, and with honest replies the cached flags agree with the server |
| AdminCli.WithFlagRows | src/bin/admin_cli.rs:408-410 | the cached update changes the flag of that device only |

## Left out

- Guarantee.StepKeeps: pool and busy errors are not replies of a step; a request that meets one is a request that leaves the server at that statement.
- World.RunKeepsInv: a failing migration is one that never happens, and the record of applied migrations is not modelled apart from the schema itself.
- World.ImportKeepsInv: an archive is a database plus its `.env`; it is assumed to be what some server with the named secrets exported (`Genuine`), and the rename and the new pool are assumed to succeed.
- Runs.LeftTokenIsDead: a request that looked the token up before it left goes on; a re-sign among them still writes, as `Credentials.LateResign` says.
- Runs.EveryTokenWasIssued: holds for imports of files that this server exported; a genuine archive from elsewhere brings its own tokens, which count as known from the import on.
- Runs.AcceptedDeviceWasApproved: the confirmed devices of an imported database count as approved as they stand at the import.
- Runs.OwnerReadsLastSent: speaks about one database generation; a request that authenticates on one generation and writes on the next is in the model, and keeps the next one's invariants.
- LateWrites.ResignLinearizesExactly: takes as given that no other device holds the token sent, which `Runs.TokenStaysOnDevice` gives for every run.
- Credentials.RefreshIsExact: is about an uninterrupted refresh; the interleaved one is the subject of `LateWrites`.
- SoftDelete.DeletedUserIsFrozen: covers runs without import; an import replaces the database the user was deleted in.
- Migrations.DownUndoesUp: covers databases that came up from the first schema; on others a device whose user row is missing would make the down script fail on NOT NULL, where the model writes the empty text.
- Listing.PagesConcatenate: the pages are of one list, that is one clock instant, one load order and no write in between.
- Internals of AES-GCM, X25519, SHA-256, UUIDs, random numbers and constant-time comparison: laws of `Crypto.Suite`; a toy instance shows the laws are consistent. Encryption of inputs beyond the library's size limit is not modelled as failing.
- Hash collisions: instead of injectivity of the hash, a fresh token is one whose hash was never in a table.
- SQLite and r2d2 internals: a statement is atomic, a transaction is all or nothing, a swapped pool opens the new file.
- HTTP routing (with the action word in an admin path), JSON, CORS, timeouts, body and rate limits, logging, shutdown: plumbing.
- On a database still in the first schema every statement fails; a request that is refused before its first statement, for its hex or its lengths, is modelled as failing at the statement.
- Admin requests in the step machine have passed the key and subnet checks, which are modelled on their own in `AdminAccess`; parsing the subnet text is a parameter.
- `reload_pool` (nothing calls it), the read-only admin lists, `pending_handler`, and `approve_handler`, which is a confirm.
- `created_at` and `updated_at` columns other than the creation time of passwords, their texts in replies, and the `extra` columns of users and identities: no request depends on them.
- tar, gzip, temporary files and file I/O of export and import.
- Drawing, key reading, HTTP calls, messages and the export path of the admin terminal: its server replies are parameters.
- While an address has two rows, which of them a look-up by address returns is some fixed choice for each content of the tables; nothing is assumed about it.
- The order in which the engine returns rows and the clock are parameters of a step; a list uses one clock instant where the code reads the clock again for each row.
