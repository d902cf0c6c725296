/** Every handler as a program whose steps are single SQL statements (src/routes).

    `Next` runs one step against the tables; what lies between two statements is computed in the
    step before. `Finish` runs a request to its reply with nobody else at the tables. */
module Protocol {
  import opened Wrappers
  import opened Hex
  import opened Crypto
  import opened Schema
  import opened Statements
  import opened Expiry

  const MAX_NAME_LEN := 64
  const MAX_GROUP_NAME_LEN := 128
  const MAX_PASSWORD_NAME_LEN := 256
  const MAX_PASSWORD_EXTRA_LEN := 4096

  datatype Request =
    | Greet(ip: Ip, pubKey: string)
    | SignUp(ip: Ip, name: string, ehlo: string)
    | SignIn(ip: Ip, name: string, ehlo: string)
    | Refresh(ip: Ip, token: string, ehlo: string)
    | Resign(ip: Ip, token: string, ehlo: string)
    | SetConfirm(uuid: Id, flag: bool)
    | DeleteDevice(uuid: Id)
    | SetDeleted(uuid: Id, flag: bool)
    | Data(deviceToken: Option<string>, ip: Ip, op: DataOp)

  /** The requests that go through `validate_auth`. */
  datatype DataOp =
    | Verify
    | GroupCreate(name: string, extra: Option<string>)
    | GroupList
    | PwdCreate(pwd: string, groupId: Id, pname: Option<string>, pextra: Option<string>, days: Option<int>)
    | PwdUpdate(pid: Id, pwd: string, groupId: Id, pname: Option<string>, pextra: Option<string>)
    | PwdGet(pid: Id)
    | PwdList(expired: Option<bool>, take: Option<int>, size: Option<int>)

  datatype Entry = Entry(uuid: Id, pwd: string, expires: int, days: int)

  datatype Reply =
    | Failed(error: AppError)
    | Unit
    | ServerKey(publicKey: string)
    | Token(token: string)
    | GroupReply(group: Group)
    | Groups(groups: set<Group>)
    | Created(entry: Entry)
    | Detail(entry: Entry, name: string, extra: string, groupName: string, groupExtra: string)
    | Entries(entries: seq<Entry>)

  /** What a step may draw: a fresh uuid, a fresh token, a random private key, random nonces, the
      clock, and the order in which the engine returns the password rows. */
  datatype Inputs = Inputs(
    id: Id,
    token: string,
    private: Bytes,
    nonce: nat -> Bytes,
    now: int,
    order: seq<Id>
  )

  ghost predicate ValidInputs(rnd: Inputs) {
    |rnd.private| == KEY_LEN && forall i :: |rnd.nonce(i)| == NONCE_LEN
  }

  datatype Pc =
    | Start(req: Request)
    | GreetInsert(ip: Ip, clientKey: Bytes)
    | SignUpTx(uuid: Id, name: string, ehloSecret: string)
    | SignInUser(uuid: Id, name: string, ehlo: Bytes)
    | LinkWrite(uuid: Id, userId: Id)
    | RefreshUser(row: Identity, ehlo: Bytes)
    | RefreshWrite(uuid: Id)
    | ResignUser(row: Identity, ip: Ip, ehlo: Bytes)
    | ResignWrite(uuid: Id, ip: Ip)
    | ConfirmWrite(uuid: Id, flag: bool)
    | DeleteWrite(uuid: Id)
    | UserWrite(uuid: Id, flag: bool)
    | AuthUser(row: Identity, op: DataOp)
    | Authed(row: Identity, op: DataOp)
    | GroupInsert(user: Id, gname: string, gextra: string)
    | ListPasswords(row: Identity, gids: set<Id>, op: DataOp)
    | CheckGroup(row: Identity, op: DataOp, blob: string)
    | PwdInsert(row: Identity, op: DataOp, blob: string)
    | ReadGroup(row: Identity, found: Password)
    | CheckOwner(row: Identity, op: DataOp, groupId: Id)
    | CheckTarget(row: Identity, op: DataOp)
    | PwdWrite(row: Identity, op: DataOp, blob: string)
    | Done(reply: Reply)

  // ----- computations between statements -----

  /** The key shared with the device, derived on the server's side. */
  function DeviceKey(c: Config, row: Identity): Result<Bytes, AppError> {
    var private :- Decrypt(c.suite, c.secret, row.serverPrivate);
    DeriveShared(c.suite, private, row.clientPublic)
  }

  function DecodeHex(text: string): Result<Bytes, AppError> {
    Decode(text).ToResult(Validation)
  }

  function FromUtf8(c: Config, data: Bytes, error: AppError): Result<string, AppError> {
    c.suite.utf8(data).ToResult(error)
  }

  function EncryptForClient(c: Config, text: string, row: Identity, nonce: Bytes): Result<string, AppError> {
    var data :- Unsealed(c, text);
    var key :- DeviceKey(c, row);
    Success(Encode(Encrypt(c.suite, key, nonce, data)))
  }

  function DecryptFromClient(c: Config, text: string, row: Identity): Result<Bytes, AppError> {
    var data :- DecodeHex(text);
    var key :- DeviceKey(c, row);
    Decrypt(c.suite, key, data)
  }

  /** A column of hex text sealed under the database secret. */
  function SealColumn(c: Config, data: Bytes, nonce: Bytes): string {
    Encode(Encrypt(c.suite, c.secret, nonce, data))
  }

  datatype Claim = Claim(row: Identity, name: string, nameLen: nat, ehlo: Bytes)

  /** Everything sign-up and sign-in do with the device row once it is found. */
  function DecodeClaim(c: Config, row: Identity, nameHex: string, ehloHex: string): Result<Claim, AppError> {
    var key :- DeviceKey(c, row);
    var nameData :- DecodeHex(nameHex);
    var ehloData :- DecodeHex(ehloHex);
    var nameBytes :- Decrypt(c.suite, key, nameData);
    var ehlo :- Decrypt(c.suite, key, ehloData);
    var name :- FromUtf8(c, nameBytes, Validation);
    Success(Claim(row, name, |nameBytes|, ehlo))
  }

  /** Everything refresh does with the device row once it is found; the result is the ehlo sent. */
  function DecodeRefresh(c: Config, row: Identity, tokenHex: string, ehloHex: string): Result<Bytes, AppError> {
    var key :- DeviceKey(c, row);
    var tokenData :- DecodeHex(tokenHex);
    var ehloData :- DecodeHex(ehloHex);
    var tokenBytes :- Decrypt(c.suite, key, tokenData);
    var ehlo :- Decrypt(c.suite, key, ehloData);
    var token :- FromUtf8(c, tokenBytes, Validation);
    var _ :- Need(c.suite.hash(token) == row.token.GetOr(""), Unauthorized);
    var _ :- Need(row.userId.Some?, Unauthorized);
    Success(ehlo)
  }

  function DecodeResignEhlo(c: Config, row: Identity, ehloHex: string): Result<Bytes, AppError> {
    var key :- DeviceKey(c, row);
    var ehloData :- DecodeHex(ehloHex);
    var ehlo :- Decrypt(c.suite, key, ehloData);
    var _ :- Need(row.userId.Some?, Unauthorized);
    Success(ehlo)
  }

  /** The user is there, is not deleted, and the ehlo sent is the stored one. */
  function ProveEhlo(c: Config, user: Option<User>, ehlo: Bytes): Result<(), AppError> {
    var u :- user.ToResult(Unauthorized);
    var _ :- Need(!u.isDeleted, Unauthorized);
    var data :- Decode(u.ehloSecret).ToResult(AppError.Crypto);
    var stored :- Decrypt(c.suite, c.secret, data);
    Need(ehlo == stored, Unauthorized)
  }

  /** Length limits checked before authentication. */
  function CheckLengths(c: Config, op: DataOp): Result<(), AppError> {
    match op
    case GroupCreate(name, _) => Need(c.suite.byteLen(name) <= MAX_GROUP_NAME_LEN, Validation)
    case PwdCreate(_, _, name, extra, _) =>
      Need(c.suite.byteLen(name.GetOr("")) <= MAX_PASSWORD_NAME_LEN
           && (extra.Some? ==> c.suite.byteLen(extra.value) <= MAX_PASSWORD_EXTRA_LEN), Validation)
    case PwdUpdate(_, _, _, name, extra) =>
      Need(c.suite.byteLen(name.GetOr("")) <= MAX_PASSWORD_NAME_LEN
           && (extra.Some? ==> c.suite.byteLen(extra.value) <= MAX_PASSWORD_EXTRA_LEN), Validation)
    case _ => Success(())
  }

  /** The checks of `validate_auth` on the device row found by token. */
  function CheckDevice(found: Option<Identity>, ip: Ip): Result<Identity, AppError> {
    var row :- found.ToResult(Unauthorized);
    var _ :- Need(row.ip == ip, Unauthorized);
    var _ :- Need(row.confirmed, Unauthorized);
    var _ :- Need(row.userId.Some?, Unauthorized);
    Success(row)
  }

  function CheckUser(user: Option<User>): Result<(), AppError> {
    var u :- user.ToResult(Unauthorized);
    Need(!u.isDeleted, Unauthorized)
  }

  /** The group is there and belongs to the device's user. */
  function OwnGroup(group: Option<Group>, row: Identity): Result<Group, AppError> {
    var g :- group.ToResult(Unauthorized);
    var _ :- Need(Some(g.userId) == row.userId, Unauthorized);
    Success(g)
  }

  function ToEntry(p: Password, blob: string, now: int): Entry {
    Entry(p.uuid, blob, DaysRemaining(p.validSince, p.days, now), p.days)
  }

  /** A listed entry shows no remaining days when the expired passwords were asked for. */
  function ToListed(p: Password, blob: string, expired: bool, now: int): Entry {
    if expired then ToEntry(p, blob, now).(expires := 0) else ToEntry(p, blob, now)
  }

  function ClampTo(x: int, low: int, high: int): int {
    if x < low then low else if x > high then high else x
  }

  /** Encrypt every row of the page for the device; the first failure fails the request. */
  function EncryptRows(c: Config, rows: seq<Password>, row: Identity, expired: bool, rnd: Inputs, k: nat)
    : Result<seq<Entry>, AppError>
  {
    if rows == [] then Success([])
    else
      var blob :- EncryptForClient(c, rows[0].pwd, row, rnd.nonce(k));
      var rest :- EncryptRows(c, rows[1..], row, expired, rnd, k + 1);
      Success([ToListed(rows[0], blob, expired, rnd.now)] + rest)
  }

  /** Rows of the given groups in the order the engine returns them. */
  function RowsOf(db: Db, order: seq<Id>, gids: set<Id>): seq<Password> {
    if order == [] then []
    else
      var rest := RowsOf(db, order[1..], gids);
      if order[0] in db.passwords && db.passwords[order[0]].groupId in gids
      then [db.passwords[order[0]]] + rest
      else rest
  }

  ghost function GroupsOf(db: Db, user: Id): set<Group> {
    set g | g in db.groups && db.groups[g].userId == user :: db.groups[g]
  }

  ghost function GroupIdsOf(db: Db, user: Id): set<Id> {
    set g | g in db.groups && db.groups[g].userId == user
  }

  /** The page of a list request: filter by expiry at one instant, then skip and take. */
  function ListPage(rows: seq<Password>, op: DataOp, now: int): seq<Password>
    requires op.PwdList?
  {
    var size := ClampTo(op.size.GetOr(50), 1, 200);
    var take := if op.take.GetOr(0) < 0 then 0 else op.take.GetOr(0);
    Take(Skip(Select(rows, op.expired.GetOr(false), now), take), size)
  }

  /** How many steps at most are left. */
  function Rank(pc: Pc): nat {
    match pc
    case Start(_) => 7
    case AuthUser(_, _) => 6
    case Authed(_, _) => 5
    case CheckOwner(_, _, _) => 3
    case CheckTarget(_, _) => 2
    case SignInUser(_, _, _) | RefreshUser(_, _) | ResignUser(_, _, _) => 2
    case ListPasswords(_, _, _) | CheckGroup(_, _, _) | ReadGroup(_, _) => 2
    case Done(_) => 0
    case _ => 1
  }

  // ----- reading steps -----

  predicate Reads(pc: Pc) {
    pc.Start? || pc.SignInUser? || pc.RefreshUser? || pc.ResignUser? || pc.AuthUser? || pc.Authed?
    || pc.ListPasswords? || pc.CheckGroup? || pc.ReadGroup? || pc.CheckOwner? || pc.CheckTarget?
  }

  ghost function ReadStart(c: Config, db: Db, req: Request, rnd: Inputs): (next: Result<Pc, AppError>)
    ensures next.Success? ==> !next.value.Start?
  {
    match req
    case Greet(ip, pubKey) =>
      var key :- DecodeHex(pubKey);
      var _ :- Need(|key| == KEY_LEN, Validation);
      var _ :- Need(FindByIp(db, ip).None?, PreconditionFailed);
      Success(GreetInsert(ip, key))
    case SignUp(ip, name, ehlo) =>
      var row :- FindByIp(db, ip).ToResult(Unauthorized);
      var claim :- DecodeClaim(c, row, name, ehlo);
      var _ :- Need(0 < claim.nameLen <= MAX_NAME_LEN, Validation);
      Success(SignUpTx(row.uuid, claim.name, SealColumn(c, claim.ehlo, rnd.nonce(0))))
    case SignIn(ip, name, ehlo) =>
      var row :- FindByIp(db, ip).ToResult(Unauthorized);
      var claim :- DecodeClaim(c, row, name, ehlo);
      Success(SignInUser(row.uuid, claim.name, claim.ehlo))
    case Refresh(ip, token, ehlo) =>
      var row :- FindByIp(db, ip).ToResult(Unauthorized);
      var sent :- DecodeRefresh(c, row, token, ehlo);
      Success(RefreshUser(row, sent))
    case Resign(ip, token, ehlo) =>
      var data :- DecodeHex(token);
      var text :- FromUtf8(c, data, Unauthorized);
      var row :- FindByToken(db, c.suite.hash(text)).ToResult(Unauthorized);
      var sent :- DecodeResignEhlo(c, row, ehlo);
      Success(ResignUser(row, ip, sent))
    case SetConfirm(uuid, flag) =>
      var _ :- Lookup(db.identities, uuid).ToResult(IdentityNotFound);
      Success(ConfirmWrite(uuid, flag))
    case DeleteDevice(uuid) =>
      var _ :- Lookup(db.identities, uuid).ToResult(IdentityNotFound);
      Success(DeleteWrite(uuid))
    case SetDeleted(uuid, flag) =>
      var _ :- Lookup(db.users, uuid).ToResult(AppError.NotFound);
      Success(UserWrite(uuid, flag))
    case Data(token, ip, op) =>
      var _ :- CheckLengths(c, op);
      var t :- token.ToResult(Unauthorized);
      var row :- CheckDevice(FindByToken(db, c.suite.hash(t)), ip);
      Success(AuthUser(row, op))
  }

  /** Every select on passwords names all their columns. */
  function PasswordsReadable(db: Db): Result<(), AppError> {
    Need(db.stage.Runtime?, Database(SchemaMismatch))
  }

  /** The first step of a data request after authentication. */
  ghost function ReadAuthed(c: Config, db: Db, row: Identity, op: DataOp, rnd: Inputs): (next: Result<Pc, AppError>)
    ensures next.Success? ==> Rank(next.value) < 5
  {
    var user :- row.userId.ToResult(Unauthorized);
    match op
    case Verify => Success(Done(Unit))
    case GroupCreate(name, extra) => Success(GroupInsert(user, name, extra.GetOr("{}")))
    case GroupList => Success(Done(Groups(GroupsOf(db, user))))
    case PwdCreate(pwd, groupId, _, _, _) =>
      var text :- DecryptFromClient(c, pwd, row);
      Success(CheckGroup(row, op, SealColumn(c, text, rnd.nonce(0))))
    case PwdUpdate(pid, _, _, _, _) =>
      var _ :- PasswordsReadable(db);
      var found :- Lookup(db.passwords, pid).ToResult(Unauthorized);
      Success(CheckOwner(row, op, found.groupId))
    case PwdGet(pid) =>
      var _ :- PasswordsReadable(db);
      var found :- Lookup(db.passwords, pid).ToResult(Unauthorized);
      Success(ReadGroup(row, found))
    case PwdList(_, _, _) => Success(ListPasswords(row, GroupIdsOf(db, user), op))
  }

  /** The second look-up of a credential request or of authentication. */
  ghost function ReadUser(c: Config, db: Db, pc: Pc): (next: Result<Pc, AppError>)
    requires pc.SignInUser? || pc.RefreshUser? || pc.ResignUser? || pc.AuthUser?
    ensures next.Success? ==> Rank(next.value) < Rank(pc)
  {
    match pc
    case SignInUser(uuid, name, ehlo) =>
      var user := FindByName(db, name);
      var _ :- ProveEhlo(c, user, ehlo);
      Success(LinkWrite(uuid, user.value.uuid))
    case RefreshUser(row, ehlo) =>
      var _ :- ProveEhlo(c, Lookup(db.users, row.userId.GetOr(Id(""))), ehlo);
      Success(RefreshWrite(row.uuid))
    case ResignUser(row, ip, ehlo) =>
      var _ :- ProveEhlo(c, Lookup(db.users, row.userId.GetOr(Id(""))), ehlo);
      Success(ResignWrite(row.uuid, ip))
    case AuthUser(row, op) =>
      var _ :- CheckUser(Lookup(db.users, row.userId.GetOr(Id(""))));
      Success(if op.Verify? then Done(Unit) else Authed(row, op))
  }

  /** The group look-ups of the password requests. */
  ghost function ReadGroups(c: Config, db: Db, pc: Pc): (next: Result<Pc, AppError>)
    requires pc.CheckGroup? || pc.CheckOwner?
    ensures next.Success? ==> Rank(next.value) < Rank(pc)
  {
    match pc
    case CheckGroup(row, op, blob) =>
      if !op.PwdCreate? then Failure(Internal) else
      var _ :- OwnGroup(Lookup(db.groups, op.groupId), row);
      Success(PwdInsert(row, op, blob))
    case CheckOwner(row, op, groupId) =>
      var _ :- OwnGroup(Lookup(db.groups, groupId), row);
      Success(CheckTarget(row, op))
  }

  /** The last look-up of an update, and the re-encryption of what the device sent. */
  ghost function ReadTarget(c: Config, db: Db, row: Identity, op: DataOp, rnd: Inputs): (next: Result<Pc, AppError>)
    ensures next.Success? ==> next.value.PwdWrite?
  {
    if !op.PwdUpdate? then Failure(Internal) else
    var _ :- OwnGroup(Lookup(db.groups, op.groupId), row);
    var text :- DecryptFromClient(c, op.pwd, row);
    Success(PwdWrite(row, op, SealColumn(c, text, rnd.nonce(0))))
  }

  /** The reads that end a list or a get. */
  ghost function ReadReply(c: Config, db: Db, pc: Pc, rnd: Inputs): (next: Result<Pc, AppError>)
    requires pc.ListPasswords? || pc.ReadGroup?
    ensures next.Success? ==> next.value.Done?
  {
    match pc
    case ListPasswords(row, gids, op) =>
      if !op.PwdList? then Failure(Internal) else
      var _ :- PasswordsReadable(db);
      var page := ListPage(RowsOf(db, rnd.order, gids), op, rnd.now);
      var entries :- EncryptRows(c, page, row, op.expired.GetOr(false), rnd, 1);
      Success(Done(Entries(entries)))
    case ReadGroup(row, found) =>
      var g :- OwnGroup(Lookup(db.groups, found.groupId), row);
      var blob :- EncryptForClient(c, found.pwd, row, rnd.nonce(1));
      Success(Done(Detail(ToEntry(found, blob, rnd.now), found.name, found.extra, g.name, g.extra)))
  }

  ghost function Read(c: Config, db: Db, pc: Pc, rnd: Inputs): Result<Pc, AppError>
    requires Reads(pc)
  {
    match pc
    case Start(req) => ReadStart(c, db, req, rnd)
    case Authed(row, op) => ReadAuthed(c, db, row, op, rnd)
    case SignInUser(_, _, _) | RefreshUser(_, _) | ResignUser(_, _, _) | AuthUser(_, _) => ReadUser(c, db, pc)
    case CheckGroup(_, _, _) | CheckOwner(_, _, _) => ReadGroups(c, db, pc)
    case CheckTarget(row, op) => ReadTarget(c, db, row, op, rnd)
    case ListPasswords(_, _, _) | ReadGroup(_, _) => ReadReply(c, db, pc, rnd)
  }

  // ----- writing steps -----

  function OnSuccess(result: Result<Db, DbError>, reply: Reply): Result<(Db, Reply), AppError> {
    if result.Success? then Success((result.value, reply)) else Failure(Database(result.error))
  }

  function LinkChanges(c: Config, userId: Id, token: string): IdentityChanges {
    IdentityChanges(Some(userId), None, Some(c.suite.hash(token)), Some(false))
  }

  function RefreshChanges(c: Config, token: string): IdentityChanges {
    IdentityChanges(None, None, Some(c.suite.hash(token)), None)
  }

  function ResignChanges(ip: Ip): IdentityChanges {
    IdentityChanges(None, Some(ip), None, Some(false))
  }

  function ConfirmChanges(flag: bool): IdentityChanges {
    IdentityChanges(None, None, None, Some(flag))
  }

  function GreetRow(c: Config, ip: Ip, clientKey: Bytes, rnd: Inputs): Identity
    requires |rnd.private| == KEY_LEN
  {
    var private := Clamped(rnd.private);
    Identity(rnd.id, None, ip, None, Encrypt(c.suite, c.secret, rnd.nonce(0), private),
             c.suite.dh(private, BASE), clientKey, false)
  }

  function CreatedRow(op: DataOp, blob: string, rnd: Inputs): Password
    requires op.PwdCreate?
  {
    var days := if op.days.Some? then ClampTo(op.days.value, 1, 365) else 30;
    Password(rnd.id, op.groupId, blob, op.pname.GetOr(""), op.pextra.GetOr("{}"), days, rnd.now, rnd.now)
  }

  function CreatedReply(c: Config, p: Password, row: Identity, rnd: Inputs): Reply {
    var blob := EncryptForClient(c, p.pwd, row, rnd.nonce(1));
    if blob.Success? then Created(ToEntry(p, blob.value, rnd.now)) else Failed(blob.error)
  }

  function UpdateChanges(op: DataOp, blob: string): PasswordChanges
    requires op.PwdUpdate?
  {
    PasswordChanges(Some(blob), Some(op.groupId), op.pname, op.pextra)
  }

  /** The sign-up transaction: both writes or neither. */
  ghost function SignUpTransaction(c: Config, db: Db, uuid: Id, name: string, ehloSecret: string, rnd: Inputs)
    : Result<(Db, Reply), AppError>
  {
    if FindByName(db, name).Some? then Failure(Conflict)
    else
      var created := InsertUser(db, User(rnd.id, name, ehloSecret, false));
      if created.Failure? then Failure(Database(created.error))
      else OnSuccess(UpdateIdentity(created.value, uuid, LinkChanges(c, rnd.id, rnd.token)), Token(rnd.token))
  }

  ghost function Write(c: Config, db: Db, pc: Pc, rnd: Inputs): Result<(Db, Reply), AppError>
    requires !Reads(pc) && !pc.Done? && |rnd.private| == KEY_LEN
  {
    match pc
    case GreetInsert(ip, clientKey) =>
      var row := GreetRow(c, ip, clientKey, rnd);
      var result := InsertIdentity(db, row);
      if result == Failure(UniqueViolation) then Failure(PreconditionFailed)
      else OnSuccess(result, ServerKey(Encode(row.serverPublic)))
    case SignUpTx(uuid, name, ehloSecret) => SignUpTransaction(c, db, uuid, name, ehloSecret, rnd)
    case LinkWrite(uuid, userId) =>
      OnSuccess(UpdateIdentity(db, uuid, LinkChanges(c, userId, rnd.token)), Token(rnd.token))
    case RefreshWrite(uuid) =>
      OnSuccess(UpdateIdentity(db, uuid, RefreshChanges(c, rnd.token)), Token(rnd.token))
    case ResignWrite(uuid, ip) => OnSuccess(UpdateIdentity(db, uuid, ResignChanges(ip)), Unit)
    case ConfirmWrite(uuid, flag) => OnSuccess(UpdateIdentity(db, uuid, ConfirmChanges(flag)), Unit)
    case DeleteWrite(uuid) => Success((DeleteIdentity(db, uuid), Unit))
    case UserWrite(uuid, flag) => OnSuccess(UpdateUser(db, uuid, flag), Unit)
    case GroupInsert(user, name, extra) =>
      var g := Group(rnd.id, user, name, extra);
      OnSuccess(InsertGroup(db, g), GroupReply(g))
    case PwdInsert(row, op, blob) =>
      if !op.PwdCreate? then Failure(Internal) else
      var p := CreatedRow(op, blob, rnd);
      OnSuccess(InsertPassword(db, p), CreatedReply(c, p, row, rnd))
    case PwdWrite(row, op, blob) =>
      if !op.PwdUpdate? then Failure(Internal) else
      OnSuccess(UpdatePassword(db, op.pid, UpdateChanges(op, blob), rnd.now), Unit)
  }

  // ----- one step, and a whole request -----

  ghost function Next(c: Config, db: Db, pc: Pc, rnd: Inputs): (Db, Pc)
    requires !pc.Done? && |rnd.private| == KEY_LEN
  {
    if Reads(pc) then
      var r := Read(c, db, pc, rnd);
      (db, if r.Success? then r.value else Done(Failed(r.error)))
    else
      var r := Write(c, db, pc, rnd);
      if r.Success? then (r.value.0, Done(r.value.1)) else (db, Done(Failed(r.error)))
  }

  lemma StartsEnd(c: Config, db: Db, pc: Pc, rnd: Inputs)
    requires pc.Start? && Read(c, db, pc, rnd).Success?
    ensures Rank(Read(c, db, pc, rnd).value) < Rank(pc)
  {
    NothingOutranksStart(pc, ReadStart(c, db, pc.req, rnd));
  }

  lemma NothingOutranksStart(pc: Pc, next: Result<Pc, AppError>)
    requires pc.Start? && (next.Success? ==> !next.value.Start?)
    ensures next.Success? ==> Rank(next.value) < Rank(pc)
  {
  }

  lemma UserReadsEnd(c: Config, db: Db, pc: Pc, rnd: Inputs)
    requires pc.SignInUser? || pc.RefreshUser? || pc.ResignUser? || pc.AuthUser?
    requires Read(c, db, pc, rnd).Success?
    ensures Rank(Read(c, db, pc, rnd).value) < Rank(pc)
  {
  }

  lemma RepliesEnd(c: Config, db: Db, pc: Pc, rnd: Inputs)
    requires pc.ListPasswords? || pc.ReadGroup?
    requires Read(c, db, pc, rnd).Success?
    ensures Rank(Read(c, db, pc, rnd).value) < Rank(pc)
  {
    var next := ReadReply(c, db, pc, rnd);
    assert Read(c, db, pc, rnd) == next;
    DoneRanks(next.value, pc);
  }

  lemma DoneRanks(next: Pc, pc: Pc)
    requires next.Done? && (pc.ListPasswords? || pc.ReadGroup?)
    ensures Rank(next) < Rank(pc)
  {
  }

  lemma DataReadsEnd(c: Config, db: Db, pc: Pc, rnd: Inputs)
    requires pc.Authed? || pc.CheckGroup? || pc.CheckOwner?
    requires Read(c, db, pc, rnd).Success?
    ensures Rank(Read(c, db, pc, rnd).value) < Rank(pc)
  {
  }

  lemma TargetsEnd(c: Config, db: Db, pc: Pc, rnd: Inputs)
    requires pc.CheckTarget? && Read(c, db, pc, rnd).Success?
    ensures Rank(Read(c, db, pc, rnd).value) < Rank(pc)
  {
    WriteIsNext(pc, ReadTarget(c, db, pc.row, pc.op, rnd));
  }

  lemma WriteIsNext(pc: Pc, next: Result<Pc, AppError>)
    requires pc.CheckTarget? && (next.Success? ==> next.value.PwdWrite?)
    ensures next.Success? ==> Rank(next.value) < Rank(pc)
  {
  }

  lemma ReadsEnd(c: Config, db: Db, pc: Pc, rnd: Inputs)
    requires Reads(pc) && Read(c, db, pc, rnd).Success?
    ensures Rank(Read(c, db, pc, rnd).value) < Rank(pc)
  {
    if pc.Start? {
      StartsEnd(c, db, pc, rnd);
    } else if pc.SignInUser? || pc.RefreshUser? || pc.ResignUser? || pc.AuthUser? {
      UserReadsEnd(c, db, pc, rnd);
    } else if pc.ListPasswords? || pc.ReadGroup? {
      RepliesEnd(c, db, pc, rnd);
    } else if pc.CheckTarget? {
      TargetsEnd(c, db, pc, rnd);
    } else {
      DataReadsEnd(c, db, pc, rnd);
    }
  }

  lemma StepsEnd(c: Config, db: Db, pc: Pc, rnd: Inputs)
    requires !pc.Done? && |rnd.private| == KEY_LEN
    ensures Rank(Next(c, db, pc, rnd).1) < Rank(pc)
  {
    if Reads(pc) && Read(c, db, pc, rnd).Success? {
      ReadsEnd(c, db, pc, rnd);
    }
  }

  ghost function Finish(c: Config, db: Db, pc: Pc, rnd: Inputs): (Db, Reply)
    requires |rnd.private| == KEY_LEN
    decreases Rank(pc)
  {
    if pc.Done? then (db, pc.reply)
    else
      StepsEnd(c, db, pc, rnd);
      var (db', pc') := Next(c, db, pc, rnd);
      Finish(c, db', pc', rnd)
  }

  lemma FinishStep(c: Config, db: Db, pc: Pc, rnd: Inputs)
    requires !pc.Done? && |rnd.private| == KEY_LEN
    ensures Finish(c, db, pc, rnd) == Finish(c, Next(c, db, pc, rnd).0, Next(c, db, pc, rnd).1, rnd)
  {
  }

  lemma FinishDone(c: Config, db: Db, reply: Reply, rnd: Inputs)
    requires |rnd.private| == KEY_LEN
    ensures Finish(c, db, Done(reply), rnd) == (db, reply)
  {
  }

  /** A reading step goes on, or ends the request with its error. */
  lemma FinishRead(c: Config, db: Db, pc: Pc, rnd: Inputs)
    requires Reads(pc) && |rnd.private| == KEY_LEN
    ensures Finish(c, db, pc, rnd) ==
            var r := Read(c, db, pc, rnd);
            if r.Success? then Finish(c, db, r.value, rnd) else (db, Failed(r.error))
  {
    FinishStep(c, db, pc, rnd);
    var r := Read(c, db, pc, rnd);
    if r.Failure? {
      FinishDone(c, db, Failed(r.error), rnd);
    }
  }

  /** A writing step is the last. */
  lemma FinishWrite(c: Config, db: Db, pc: Pc, rnd: Inputs)
    requires !Reads(pc) && !pc.Done? && |rnd.private| == KEY_LEN
    ensures Finish(c, db, pc, rnd) ==
            var r := Write(c, db, pc, rnd);
            if r.Success? then r.value else (db, Failed(r.error))
  {
    FinishStep(c, db, pc, rnd);
    var r := Write(c, db, pc, rnd);
    if r.Success? {
      FinishDone(c, r.value.0, r.value.1, rnd);
    } else {
      FinishDone(c, db, Failed(r.error), rnd);
    }
  }

  /** A request handled with nobody else at the tables. */
  ghost function Handle(c: Config, db: Db, req: Request, rnd: Inputs): (Db, Reply)
    requires |rnd.private| == KEY_LEN
  {
    Finish(c, db, Start(req), rnd)
  }
}
