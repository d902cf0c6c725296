/** Rely and guarantee for one request: what it knows between two of its statements, why other
    requests cannot spoil that, and that each of its own statements keeps the database invariant. */
module Guarantee {
  import opened Wrappers
  import opened Hex
  import opened Crypto
  import opened Schema
  import opened Statements
  import opened Protocol

  // ----- what a request knows between two statements -----

  /** The device row, if it is still there, has its user. */
  ghost predicate HasUser(issued: set<Id>, db: Db, uuid: Id) {
    uuid in issued && (uuid in db.identities ==> db.identities[uuid].userId.Some?)
  }

  ghost predicate Bearer(c: Config, row: Identity) {
    DeviceKeysOk(c, row) && row.userId.Some?
  }

  ghost predicate OwnedGroup(db: Db, gid: Id, user: Option<Id>) {
    gid in db.groups && Some(db.groups[gid].userId) == user
  }

  /** The column to be stored holds exactly the text the device sent. */
  ghost predicate HoldsWhatClientSent(c: Config, row: Identity, pwd: string, blob: string) {
    DecryptFromClient(c, pwd, row).Success? && Unsealed(c, blob) == DecryptFromClient(c, pwd, row)
  }

  ghost predicate PcOk(c: Config, issued: set<Id>, db: Db, pc: Pc) {
    match pc
    case GreetInsert(_, clientKey) => |clientKey| == KEY_LEN
    case SignUpTx(_, _, ehloSecret) => Unsealed(c, ehloSecret).Success?
    case RefreshUser(row, _) => HasUser(issued, db, row.uuid)
    case RefreshWrite(uuid) => HasUser(issued, db, uuid)
    case AuthUser(row, _) => Bearer(c, row)
    case Authed(row, _) => Bearer(c, row)
    case ListPasswords(row, gids, _) => Bearer(c, row) && forall g | g in gids :: OwnedGroup(db, g, row.userId)
    case CheckGroup(row, op, blob) =>
      Bearer(c, row) && op.PwdCreate? && HoldsWhatClientSent(c, row, op.pwd, blob)
    case PwdInsert(row, op, blob) =>
      && Bearer(c, row) && op.PwdCreate? && HoldsWhatClientSent(c, row, op.pwd, blob)
      && OwnedGroup(db, op.groupId, row.userId)
    case ReadGroup(row, found) => Bearer(c, row) && Unsealed(c, found.pwd).Success?
    case CheckOwner(row, op, groupId) =>
      && Bearer(c, row) && op.PwdUpdate?
      && OwnedGroup(db, groupId, Owner(db, op.pid))
    case CheckTarget(row, op) => Bearer(c, row) && op.PwdUpdate? && Owner(db, op.pid) == row.userId
    case PwdWrite(row, op, blob) =>
      && Bearer(c, row) && op.PwdUpdate? && Owner(db, op.pid) == row.userId
      && HoldsWhatClientSent(c, row, op.pwd, blob)
      && OwnedGroup(db, op.groupId, row.userId)
    case _ => true
  }

  // ----- rely -----

  /** No statement of any other request, and no uuid issued meanwhile, takes that knowledge away. */
  lemma KnowledgeIsStable(c: Config, issued: set<Id>, issued': set<Id>, db: Db, db': Db, pc: Pc)
    requires PcOk(c, issued, db, pc) && Evolves(issued, db, db') && issued <= issued'
    ensures PcOk(c, issued', db', pc)
  {
    match pc
    case CheckOwner(row, op, groupId) =>
      assert op.pid in db.passwords;
    case CheckTarget(row, op) =>
      assert op.pid in db.passwords;
    case PwdWrite(row, op, blob) =>
      assert op.pid in db.passwords;
    case _ =>
  }

  // ----- guarantee: reading steps -----

  lemma SealedColumnOpens(c: Config, data: Bytes, nonce: Bytes)
    requires ValidConfig(c) && |nonce| == NONCE_LEN
    ensures Unsealed(c, SealColumn(c, data, nonce)) == Success(data)
  {
    RoundTrip(Encrypt(c.suite, c.secret, nonce, data));
    EnvelopeOpens(c.suite, c.secret, nonce, data);
  }

  lemma SignUpLearns(c: Config, row: Identity, name: string, ehlo: string, rnd: Inputs)
    requires ValidConfig(c) && ValidInputs(rnd) && DecodeClaim(c, row, name, ehlo).Success?
    ensures Unsealed(c, SealColumn(c, DecodeClaim(c, row, name, ehlo).value.ehlo, rnd.nonce(0))).Success?
  {
    SealedColumnOpens(c, DecodeClaim(c, row, name, ehlo).value.ehlo, rnd.nonce(0));
  }

  lemma RefreshLearns(c: Config, issued: set<Id>, db: Db, req: Request, rnd: Inputs)
    requires DeviceRowsOk(db.identities, db.users) && TokensHaveUsers(db.identities) && Ids(db) <= issued
    requires req.Refresh? && ReadStart(c, db, req, rnd).Success?
    ensures PcOk(c, issued, db, ReadStart(c, db, req, rnd).value)
  {
    var row := FindByIp(db, req.ip).value;
    assert row.uuid in db.identities && db.identities[row.uuid] == row;
    DecodedHasUser(c, row, req.token, req.ehlo);
  }

  lemma DecodedHasUser(c: Config, row: Identity, token: string, ehlo: string)
    requires DecodeRefresh(c, row, token, ehlo).Success?
    ensures row.userId.Some?
  {
  }

  lemma DataLearns(c: Config, db: Db, token: string, ip: Ip)
    requires DeviceRowsOk(db.identities, db.users) && DevicesSealed(c, db.identities)
    requires CheckDevice(FindByToken(db, token), ip).Success?
    ensures Bearer(c, CheckDevice(FindByToken(db, token), ip).value)
  {
    var row := FindByToken(db, token).value;
    assert row.uuid in db.identities && db.identities[row.uuid] == row;
  }

  lemma SignUpStarts(c: Config, issued: set<Id>, db: Db, req: Request, rnd: Inputs)
    requires ValidConfig(c) && ValidInputs(rnd)
    requires req.SignUp? && ReadStart(c, db, req, rnd).Success?
    ensures PcOk(c, issued, db, ReadStart(c, db, req, rnd).value)
  {
    SignUpLearns(c, FindByIp(db, req.ip).value, req.name, req.ehlo, rnd);
  }

  lemma DataStarts(c: Config, issued: set<Id>, db: Db, req: Request, rnd: Inputs)
    requires DeviceRowsOk(db.identities, db.users) && DevicesSealed(c, db.identities)
    requires req.Data? && ReadStart(c, db, req, rnd).Success?
    ensures PcOk(c, issued, db, ReadStart(c, db, req, rnd).value)
  {
    DataLearns(c, db, c.suite.hash(req.deviceToken.value), req.ip);
  }

  /** The first statement of the other requests leaves nothing to know but the length of a key. */
  lemma OthersStart(c: Config, issued: set<Id>, db: Db, req: Request, rnd: Inputs)
    requires !req.SignUp? && !req.Refresh? && !req.Data? && ReadStart(c, db, req, rnd).Success?
    ensures PcOk(c, issued, db, ReadStart(c, db, req, rnd).value)
  {
  }

  lemma StartLearns(c: Config, issued: set<Id>, db: Db, req: Request, rnd: Inputs)
    requires ValidConfig(c) && StoreOk(c, db) && Ids(db) <= issued && ValidInputs(rnd)
    requires ReadStart(c, db, req, rnd).Success?
    ensures PcOk(c, issued, db, ReadStart(c, db, req, rnd).value)
  {
    match req
    case SignUp(_, _, _) => SignUpStarts(c, issued, db, req, rnd);
    case Refresh(_, _, _) => RefreshLearns(c, issued, db, req, rnd);
    case Data(_, _, _) => DataStarts(c, issued, db, req, rnd);
    case _ => OthersStart(c, issued, db, req, rnd);
  }

  lemma AuthedLearns(c: Config, issued: set<Id>, db: Db, row: Identity, op: DataOp, rnd: Inputs)
    requires ValidConfig(c) && StoreOk(c, db) && ValidInputs(rnd) && Bearer(c, row)
    requires ReadAuthed(c, db, row, op, rnd).Success?
    ensures PcOk(c, issued, db, ReadAuthed(c, db, row, op, rnd).value)
  {
    match op
    case PwdCreate(pwd, _, _, _, _) =>
      SealedColumnOpens(c, DecryptFromClient(c, pwd, row).value, rnd.nonce(0));
    case _ =>
  }

  lemma TargetLearns(c: Config, issued: set<Id>, db: Db, pc: Pc, rnd: Inputs)
    requires ValidConfig(c) && StoreOk(c, db) && ValidInputs(rnd) && PcOk(c, issued, db, pc)
    requires pc.CheckTarget? && Read(c, db, pc, rnd).Success?
    ensures PcOk(c, issued, db, Read(c, db, pc, rnd).value)
  {
    SealedColumnOpens(c, DecryptFromClient(c, pc.op.pwd, pc.row).value, rnd.nonce(0));
  }

  lemma DataReadsLearn(c: Config, issued: set<Id>, db: Db, pc: Pc, rnd: Inputs)
    requires StoreOk(c, db) && PcOk(c, issued, db, pc)
    requires pc.CheckGroup? || pc.CheckOwner?
    requires Read(c, db, pc, rnd).Success?
    ensures PcOk(c, issued, db, Read(c, db, pc, rnd).value)
  {
  }

  lemma LastReadsLearn(c: Config, issued: set<Id>, db: Db, pc: Pc, rnd: Inputs)
    requires StoreOk(c, db) && PcOk(c, issued, db, pc)
    requires pc.SignInUser? || pc.RefreshUser? || pc.ResignUser? || pc.AuthUser? || pc.ListPasswords? || pc.ReadGroup?
    requires Read(c, db, pc, rnd).Success?
    ensures PcOk(c, issued, db, Read(c, db, pc, rnd).value)
  {
  }

  lemma ReadsLearn(c: Config, issued: set<Id>, db: Db, pc: Pc, rnd: Inputs)
    requires ValidConfig(c) && StoreOk(c, db) && Ids(db) <= issued && ValidInputs(rnd)
    requires PcOk(c, issued, db, pc) && Reads(pc) && Read(c, db, pc, rnd).Success?
    ensures PcOk(c, issued, db, Read(c, db, pc, rnd).value)
  {
    if pc.Start? {
      StartLearns(c, issued, db, pc.req, rnd);
    } else if pc.Authed? {
      AuthedLearns(c, issued, db, pc.row, pc.op, rnd);
    } else if pc.CheckTarget? {
      TargetLearns(c, issued, db, pc, rnd);
    } else if pc.CheckGroup? || pc.CheckOwner? {
      DataReadsLearn(c, issued, db, pc, rnd);
    } else {
      LastReadsLearn(c, issued, db, pc, rnd);
    }
  }

  // ----- guarantee: writing steps -----

  lemma GreetRowKeysOk(c: Config, ip: Ip, clientKey: Bytes, rnd: Inputs)
    requires ValidConfig(c) && ValidInputs(rnd) && |clientKey| == KEY_LEN
    ensures DeviceKeysOk(c, GreetRow(c, ip, clientKey, rnd))
  {
    EnvelopeOpens(c.suite, c.secret, rnd.nonce(0), Clamped(rnd.private));
  }

  lemma SignUpKeeps(c: Config, issued: set<Id>, db: Db, uuid: Id, name: string, ehloSecret: string, rnd: Inputs)
    requires StoreOk(c, db) && Unsealed(c, ehloSecret).Success?
    requires SignUpTransaction(c, db, uuid, name, ehloSecret, rnd).Success?
    ensures var db' := SignUpTransaction(c, db, uuid, name, ehloSecret, rnd).value.0;
            StoreOk(c, db') && Evolves(issued, db, db')
  {
    var row := User(rnd.id, name, ehloSecret, false);
    var mid := InsertUser(db, row).value;
    InsertUserKeeps(c, issued, db, row);
    UpdateIdentityKeeps(c, issued, mid, uuid, LinkChanges(c, rnd.id, rnd.token));
    EvolvesTwice(issued, db, mid, UpdateIdentity(mid, uuid, LinkChanges(c, rnd.id, rnd.token)).value);
  }

  /** Two statements of one transaction, the first of which leaves the devices alone. */
  lemma EvolvesTwice(issued: set<Id>, a: Db, b: Db, d: Db)
    requires Evolves(issued, a, b) && Evolves(issued, b, d)
    requires a.identities == b.identities
    ensures Evolves(issued, a, d)
  {
    assert forall p | p in a.passwords :: p in b.passwords && Owner(d, p) == Owner(b, p) == Owner(a, p);
  }

  lemma UpdateWritesKeep(c: Config, issued: set<Id>, db: Db, pc: Pc, rnd: Inputs)
    requires StoreOk(c, db) && |rnd.private| == KEY_LEN
    requires pc.LinkWrite? || pc.RefreshWrite? || pc.ResignWrite? || pc.ConfirmWrite?
    requires PcOk(c, issued, db, pc) && Write(c, db, pc, rnd).Success?
    ensures StoreOk(c, Write(c, db, pc, rnd).value.0) && Evolves(issued, db, Write(c, db, pc, rnd).value.0)
  {
    var changes :=
      if pc.LinkWrite? then LinkChanges(c, pc.userId, rnd.token)
      else if pc.RefreshWrite? then RefreshChanges(c, rnd.token)
      else if pc.ResignWrite? then ResignChanges(pc.ip)
      else ConfirmChanges(pc.flag);
    UpdateIdentityKeeps(c, issued, db, pc.uuid, changes);
  }

  lemma RowWritesKeep(c: Config, issued: set<Id>, db: Db, pc: Pc, rnd: Inputs)
    requires ValidConfig(c) && StoreOk(c, db) && ValidInputs(rnd) && rnd.id !in issued
    requires (pc.GreetInsert? || pc.DeleteWrite?) && PcOk(c, issued, db, pc) && Write(c, db, pc, rnd).Success?
    ensures StoreOk(c, Write(c, db, pc, rnd).value.0) && Evolves(issued, db, Write(c, db, pc, rnd).value.0)
  {
    if pc.GreetInsert? {
      GreetRowKeysOk(c, pc.ip, pc.clientKey, rnd);
      InsertIdentityKeeps(c, issued, db, GreetRow(c, pc.ip, pc.clientKey, rnd));
    } else {
      DeleteIdentityKeeps(c, issued, db, pc.uuid);
    }
  }

  lemma UserWritesKeep(c: Config, issued: set<Id>, db: Db, pc: Pc, rnd: Inputs)
    requires StoreOk(c, db) && |rnd.private| == KEY_LEN
    requires pc.SignUpTx? || pc.UserWrite? || pc.GroupInsert?
    requires PcOk(c, issued, db, pc) && Write(c, db, pc, rnd).Success?
    ensures StoreOk(c, Write(c, db, pc, rnd).value.0) && Evolves(issued, db, Write(c, db, pc, rnd).value.0)
  {
    if pc.SignUpTx? {
      SignUpKeeps(c, issued, db, pc.uuid, pc.name, pc.ehloSecret, rnd);
    } else if pc.UserWrite? {
      UpdateUserKeeps(c, issued, db, pc.uuid, pc.flag);
    } else {
      InsertGroupKeeps(c, issued, db, Group(rnd.id, pc.user, pc.gname, pc.gextra));
    }
  }

  lemma PasswordWritesKeep(c: Config, issued: set<Id>, db: Db, pc: Pc, rnd: Inputs)
    requires StoreOk(c, db) && |rnd.private| == KEY_LEN && (pc.PwdInsert? || pc.PwdWrite?)
    requires PcOk(c, issued, db, pc) && Write(c, db, pc, rnd).Success?
    ensures StoreOk(c, Write(c, db, pc, rnd).value.0) && Evolves(issued, db, Write(c, db, pc, rnd).value.0)
  {
    if pc.PwdInsert? {
      InsertPasswordKeeps(c, issued, db, CreatedRow(pc.op, pc.blob, rnd));
    } else {
      UpdatePasswordKeeps(c, issued, db, pc.op.pid, UpdateChanges(pc.op, pc.blob), rnd.now);
    }
  }

  lemma WritesKeep(c: Config, issued: set<Id>, db: Db, pc: Pc, rnd: Inputs)
    requires ValidConfig(c) && StoreOk(c, db) && ValidInputs(rnd) && rnd.id !in issued
    requires PcOk(c, issued, db, pc) && !Reads(pc) && !pc.Done? && Write(c, db, pc, rnd).Success?
    ensures var db' := Write(c, db, pc, rnd).value.0;
            StoreOk(c, db') && Evolves(issued, db, db')
  {
    if pc.SignUpTx? || pc.UserWrite? || pc.GroupInsert? {
      UserWritesKeep(c, issued, db, pc, rnd);
    } else if pc.PwdInsert? || pc.PwdWrite? {
      PasswordWritesKeep(c, issued, db, pc, rnd);
    } else if pc.GreetInsert? || pc.DeleteWrite? {
      RowWritesKeep(c, issued, db, pc, rnd);
    } else {
      UpdateWritesKeep(c, issued, db, pc, rnd);
    }
  }

  // ----- guarantee: one step -----

  lemma ReadStepKeeps(c: Config, issued: set<Id>, db: Db, pc: Pc, rnd: Inputs)
    requires ValidConfig(c) && StoreOk(c, db) && Ids(db) <= issued && ValidInputs(rnd)
    requires PcOk(c, issued, db, pc) && Reads(pc)
    ensures Next(c, db, pc, rnd).0 == db && PcOk(c, issued, db, Next(c, db, pc, rnd).1)
  {
    if Read(c, db, pc, rnd).Success? {
      ReadsLearn(c, issued, db, pc, rnd);
    }
  }

  /** One statement of one request keeps the database invariant, does to the tables only what every
      other request can rely on, and leaves the request knowing what its next statement needs. */
  lemma StepKeeps(c: Config, issued: set<Id>, db: Db, pc: Pc, rnd: Inputs)
    requires ValidConfig(c) && StoreOk(c, db) && Ids(db) <= issued
    requires ValidInputs(rnd) && rnd.id !in issued
    requires PcOk(c, issued, db, pc) && !pc.Done?
    ensures var (db', pc') := Next(c, db, pc, rnd);
            StoreOk(c, db') && Evolves(issued, db, db') && PcOk(c, issued, db', pc')
  {
    if Reads(pc) || Write(c, db, pc, rnd).Failure? {
      QuietStepKeeps(c, issued, db, pc, rnd);
    } else {
      WritesKeep(c, issued, db, pc, rnd);
    }
  }

  /** A step that changes nothing in the tables. */
  lemma QuietStepKeeps(c: Config, issued: set<Id>, db: Db, pc: Pc, rnd: Inputs)
    requires ValidConfig(c) && StoreOk(c, db) && Ids(db) <= issued && ValidInputs(rnd)
    requires PcOk(c, issued, db, pc) && !pc.Done? && (Reads(pc) || Write(c, db, pc, rnd).Failure?)
    ensures Next(c, db, pc, rnd).0 == db && Evolves(issued, db, db)
    ensures PcOk(c, issued, db, Next(c, db, pc, rnd).1)
  {
    EvolvesReflexive(issued, db);
    if Reads(pc) {
      ReadStepKeeps(c, issued, db, pc, rnd);
    }
  }
}
