/** A user's data is touched by that user's own requests only, and what a user's requests see and do
    depends on that user's data only. */
module Isolation {
  import opened Wrappers
  import opened Crypto
  import opened Schema
  import opened Statements
  import opened Protocol
  import opened Guarantee
  import opened Expiry

  ghost function GroupsView(db: Db, user: Id): map<Id, Group> {
    map g | g in db.groups && db.groups[g].userId == user :: db.groups[g]
  }

  ghost function PasswordsView(db: Db, user: Id): map<Id, Password> {
    map p | p in db.passwords && Owner(db, p) == Some(user) :: db.passwords[p]
  }

  /** The groups and passwords of two databases are the same as far as this user is concerned. */
  ghost predicate SameView(a: Db, b: Db, user: Id) {
    GroupsView(a, user) == GroupsView(b, user) && PasswordsView(a, user) == PasswordsView(b, user)
  }

  /** The user whose data the next statement writes. */
  function WritesFor(pc: Pc): Option<Id> {
    match pc
    case GroupInsert(user, _, _) => Some(user)
    case PwdInsert(row, _, _) => row.userId
    case PwdWrite(row, _, _) => row.userId
    case _ => None
  }

  lemma SameDataSameView(a: Db, b: Db, user: Id)
    requires a.groups == b.groups && a.passwords == b.passwords
    ensures SameView(a, b, user)
  {
    assert forall p :: Owner(a, p) == Owner(b, p);
  }

  lemma GroupInsertKeepsOthers(db: Db, row: Group, user: Id)
    requires Stored(db) && InsertGroup(db, row).Success? && row.userId != user
    ensures SameView(db, InsertGroup(db, row).value, user)
  {
    var db' := InsertGroup(db, row).value;
    assert forall p | p in db.passwords :: Owner(db', p) == Owner(db, p);
  }

  lemma PasswordInsertKeepsOthers(db: Db, row: Password, user: Id)
    requires Stored(db) && InsertPassword(db, row).Success? && db.groups[row.groupId].userId != user
    ensures SameView(db, InsertPassword(db, row).value, user)
  {
    var db' := InsertPassword(db, row).value;
    assert forall p | p in db.passwords :: Owner(db', p) == Owner(db, p);
  }

  lemma PasswordUpdateKeepsOthers(db: Db, pid: Id, ch: PasswordChanges, now: int, user: Id)
    requires Stored(db) && UpdatePassword(db, pid, ch, now).Success?
    requires Owner(db, pid) != Some(user)
    requires ch.groupId.Some? && db.groups[ch.groupId.value].userId != user
    ensures SameView(db, UpdatePassword(db, pid, ch, now).value, user)
  {
    OtherRowKeepsView(db, pid, ApplyPassword(db.passwords[pid], ch, now), user);
  }

  /** A row that is not the user's before or after is not in the user's view. */
  lemma OtherRowKeepsView(db: Db, pid: Id, row: Password, user: Id)
    requires pid in db.passwords && Owner(db, pid) != Some(user)
    requires row.groupId in db.groups && db.groups[row.groupId].userId != user
    ensures SameView(db, db.(passwords := db.passwords[pid := row]), user)
  {
    var db' := db.(passwords := db.passwords[pid := row]);
    assert Owner(db', pid) == Some(db.groups[row.groupId].userId);
    assert forall p | p != pid :: Owner(db', p) == Owner(db, p);
  }

  /** Under any interleaving, a statement leaves the data of every user alone but the one user the
      request was authenticated for. */
  lemma StepTouchesOwnDataOnly(c: Config, issued: set<Id>, db: Db, pc: Pc, rnd: Inputs, user: Id)
    requires Stored(db) && PcOk(c, issued, db, pc) && !pc.Done? && |rnd.private| == KEY_LEN
    requires WritesFor(pc) != Some(user)
    ensures SameView(db, Next(c, db, pc, rnd).0, user)
  {
    SameDataSameView(db, db, user);
    if !Reads(pc) && Write(c, db, pc, rnd).Success? {
      if pc.GroupInsert? || pc.PwdInsert? || pc.PwdWrite? {
        DataWritesKeepOthers(c, issued, db, pc, rnd, user);
      } else {
        AccountWritesKeepData(c, db, pc, rnd, user);
      }
    }
  }

  lemma DataWritesKeepOthers(c: Config, issued: set<Id>, db: Db, pc: Pc, rnd: Inputs, user: Id)
    requires Stored(db) && PcOk(c, issued, db, pc) && |rnd.private| == KEY_LEN
    requires pc.GroupInsert? || pc.PwdInsert? || pc.PwdWrite?
    requires WritesFor(pc) != Some(user) && Write(c, db, pc, rnd).Success?
    ensures SameView(db, Write(c, db, pc, rnd).value.0, user)
  {
    if pc.GroupInsert? {
      GroupInsertKeepsOthers(db, Group(rnd.id, pc.user, pc.gname, pc.gextra), user);
    } else if pc.PwdInsert? {
      PasswordInsertKeepsOthers(db, CreatedRow(pc.op, pc.blob, rnd), user);
    } else {
      PasswordUpdateKeepsOthers(db, pc.op.pid, UpdateChanges(pc.op, pc.blob), rnd.now, user);
    }
  }

  lemma AccountWritesKeepData(c: Config, db: Db, pc: Pc, rnd: Inputs, user: Id)
    requires !Reads(pc) && !pc.Done? && |rnd.private| == KEY_LEN
    requires !pc.GroupInsert? && !pc.PwdInsert? && !pc.PwdWrite?
    requires Write(c, db, pc, rnd).Success?
    ensures SameView(db, Write(c, db, pc, rnd).value.0, user)
  {
    SameDataSameView(db, Write(c, db, pc, rnd).value.0, user);
  }

  // ----- two runs -----

  /** A group this user owns is there in both databases or in neither. */
  lemma OwnGroupSame(a: Db, b: Db, row: Identity, gid: Id)
    requires row.userId.Some? && SameView(a, b, row.userId.value)
    ensures OwnGroup(Lookup(a.groups, gid), row) == OwnGroup(Lookup(b.groups, gid), row)
    ensures OwnGroup(Lookup(a.groups, gid), row).Success? <==> gid in GroupsView(a, row.userId.value)
  {
    var u := row.userId.value;
    assert gid in GroupsView(a, u) <==> gid in GroupsView(b, u);
    if gid in GroupsView(a, u) {
      assert a.groups[gid] == GroupsView(a, u)[gid] == GroupsView(b, u)[gid] == b.groups[gid];
    }
  }

  lemma OwnPasswordSame(a: Db, b: Db, user: Id, pid: Id)
    requires SameView(a, b, user)
    ensures (pid in a.passwords && Owner(a, pid) == Some(user)) <==> (pid in b.passwords && Owner(b, pid) == Some(user))
    ensures pid in a.passwords && Owner(a, pid) == Some(user) ==> a.passwords[pid] == b.passwords[pid]
  {
    assert pid in PasswordsView(a, user) <==> pid in PasswordsView(b, user);
    if pid in PasswordsView(a, user) {
      assert PasswordsView(a, user)[pid] == PasswordsView(b, user)[pid];
    }
  }

  lemma {:induction false} RowsSame(a: Db, b: Db, order: seq<Id>, user: Id)
    requires Consistent(a) && Consistent(b) && SameView(a, b, user)
    ensures RowsOf(a, order, GroupIdsOf(a, user)) == RowsOf(b, order, GroupIdsOf(b, user))
  {
    if order != [] {
      RowsSame(a, b, order[1..], user);
      OwnPasswordSame(a, b, user, order[0]);
    }
  }

  lemma GroupIdsSame(a: Db, b: Db, user: Id)
    requires SameView(a, b, user)
    ensures GroupIdsOf(a, user) == GroupIdsOf(b, user) && GroupsOf(a, user) == GroupsOf(b, user)
  {
    assert GroupIdsOf(a, user) == GroupsView(a, user).Keys;
    assert GroupIdsOf(b, user) == GroupsView(b, user).Keys;
    GroupRows(a, user);
    GroupRows(b, user);
  }

  lemma GroupRows(db: Db, user: Id)
    ensures GroupsOf(db, user) == set g | g in GroupsView(db, user) :: GroupsView(db, user)[g]
  {
    forall x | x in GroupsOf(db, user) ensures exists g :: g in GroupsView(db, user) && GroupsView(db, user)[g] == x {
      var g :| g in db.groups && db.groups[g].userId == user && db.groups[g] == x;
      assert GroupsView(db, user)[g] == x;
    }
  }

  /** The result of a whole data request after authentication. */
  ghost function Serve(c: Config, db: Db, row: Identity, op: DataOp, rnd: Inputs): (Db, Reply)
    requires |rnd.private| == KEY_LEN
  {
    Finish(c, db, Authed(row, op), rnd)
  }

  /** The tables and the reply after the last statement of a request. */
  function Settled(db: Db, result: Result<Db, DbError>, reply: Reply): (Db, Reply) {
    if result.Success? then (result.value, reply) else (db, Failed(Database(result.error)))
  }

  /** Same reply, and the two databases still agree for this user. */
  ghost predicate Agree(c: Config, a: Db, b: Db, row: Identity, op: DataOp, rnd: Inputs)
    requires |rnd.private| == KEY_LEN && row.userId.Some?
  {
    && Serve(c, a, row, op, rnd).1 == Serve(c, b, row, op, rnd).1
    && SameView(Serve(c, a, row, op, rnd).0, Serve(c, b, row, op, rnd).0, row.userId.value)
  }

  /** What `validate_auth` finds. */
  ghost function Authenticate(c: Config, db: Db, token: Option<string>, ip: Ip): Result<Identity, AppError> {
    var t :- token.ToResult(Unauthorized);
    var row :- CheckDevice(FindByToken(db, c.suite.hash(t)), ip);
    var _ :- CheckUser(Lookup(db.users, row.userId.GetOr(Id(""))));
    Success(row)
  }

  lemma DataIsAuthThenServe(c: Config, db: Db, token: Option<string>, ip: Ip, op: DataOp, rnd: Inputs)
    requires |rnd.private| == KEY_LEN
    ensures Handle(c, db, Data(token, ip, op), rnd) ==
            var lengths := CheckLengths(c, op);
            var auth := Authenticate(c, db, token, ip);
            if lengths.Failure? then (db, Failed(lengths.error))
            else if auth.Failure? then (db, Failed(auth.error))
            else if op.Verify? then (db, Unit)
            else Serve(c, db, auth.value, op, rnd)
  {
    var req := Data(token, ip, op);
    FinishRead(c, db, Start(req), rnd);
    var first := ReadStart(c, db, req, rnd);
    if first.Success? {
      FinishRead(c, db, first.value, rnd);
      if op.Verify? {
        FinishDone(c, db, Unit, rnd);
      }
    }
  }

  lemma GetAgrees(c: Config, a: Db, b: Db, row: Identity, op: DataOp, rnd: Inputs)
    requires Consistent(a) && Consistent(b) && |rnd.private| == KEY_LEN
    requires row.userId.Some? && SameView(a, b, row.userId.value) && op.PwdGet?
    ensures Agree(c, a, b, row, op, rnd)
  {
    OwnPasswordSame(a, b, row.userId.value, op.pid);
    GetResult(c, a, row, op, rnd);
    GetResult(c, b, row, op, rnd);
    if op.pid in a.passwords {
      OwnGroupSame(a, b, row, a.passwords[op.pid].groupId);
    }
    if op.pid in b.passwords {
      OwnGroupSame(a, b, row, b.passwords[op.pid].groupId);
    }
  }

  /** What a get amounts to with nobody else at the tables. */
  lemma GetResult(c: Config, db: Db, row: Identity, op: DataOp, rnd: Inputs)
    requires Consistent(db) && |rnd.private| == KEY_LEN && row.userId.Some? && op.PwdGet?
    ensures Serve(c, db, row, op, rnd) ==
            if Owner(db, op.pid) == row.userId then
              var p := db.passwords[op.pid];
              var blob := EncryptForClient(c, p.pwd, row, rnd.nonce(1));
              var g := db.groups[p.groupId];
              var left := DaysRemaining(p.validSince, p.days, rnd.now);
              (db, if blob.Success?
                   then Detail(Entry(op.pid, blob.value, left, p.days), p.name, p.extra, g.name, g.extra)
                   else Failed(blob.error))
            else (db, Failed(Unauthorized))
  {
    FinishRead(c, db, Authed(row, op), rnd);
    if op.pid in db.passwords {
      var pc := ReadGroup(row, db.passwords[op.pid]);
      FinishRead(c, db, pc, rnd);
      var r := Read(c, db, pc, rnd);
      if r.Success? {
        FinishDone(c, db, r.value.reply, rnd);
      }
    }
  }

  lemma ListAgrees(c: Config, a: Db, b: Db, row: Identity, op: DataOp, rnd: Inputs)
    requires Consistent(a) && Consistent(b) && |rnd.private| == KEY_LEN
    requires row.userId.Some? && SameView(a, b, row.userId.value) && (op.PwdList? || op.GroupList? || op.Verify?)
    ensures Agree(c, a, b, row, op, rnd)
  {
    GroupIdsSame(a, b, row.userId.value);
    RowsSame(a, b, rnd.order, row.userId.value);
    if op.PwdList? {
      ListResult(c, a, row, op, rnd);
      ListResult(c, b, row, op, rnd);
    } else {
      var reply := if op.Verify? then Unit else Groups(GroupsOf(a, row.userId.value));
      FinishRead(c, a, Authed(row, op), rnd);
      FinishRead(c, b, Authed(row, op), rnd);
      FinishDone(c, a, reply, rnd);
      FinishDone(c, b, reply, rnd);
    }
  }

  lemma GroupListResult(c: Config, db: Db, row: Identity, rnd: Inputs)
    requires |rnd.private| == KEY_LEN && row.userId.Some?
    ensures Serve(c, db, row, GroupList, rnd) == (db, Groups(GroupsOf(db, row.userId.value)))
  {
    FinishRead(c, db, Authed(row, GroupList), rnd);
    FinishDone(c, db, Groups(GroupsOf(db, row.userId.value)), rnd);
  }

  lemma ListResult(c: Config, db: Db, row: Identity, op: DataOp, rnd: Inputs)
    requires |rnd.private| == KEY_LEN && row.userId.Some? && op.PwdList?
    ensures Serve(c, db, row, op, rnd) ==
            if !db.stage.Runtime? then (db, Failed(Database(SchemaMismatch))) else
            var page := ListPage(RowsOf(db, rnd.order, GroupIdsOf(db, row.userId.value)), op, rnd.now);
            var entries := EncryptRows(c, page, row, op.expired.GetOr(false), rnd, 1);
            (db, if entries.Success? then Entries(entries.value) else Failed(entries.error))
  {
    var pc := ListPasswords(row, GroupIdsOf(db, row.userId.value), op);
    FinishRead(c, db, Authed(row, op), rnd);
    FinishRead(c, db, pc, rnd);
    var r := Read(c, db, pc, rnd);
    if r.Success? {
      FinishDone(c, db, r.value.reply, rnd);
    }
  }

  lemma GroupCreateAgrees(c: Config, a: Db, b: Db, row: Identity, op: DataOp, rnd: Inputs)
    requires Consistent(a) && Consistent(b) && |rnd.private| == KEY_LEN
    requires row.userId.Some? && row.userId.value in a.users && row.userId.value in b.users
    requires SameView(a, b, row.userId.value) && op.GroupCreate?
    requires rnd.id !in a.groups && rnd.id !in b.groups
    ensures Agree(c, a, b, row, op, rnd)
  {
    var u := row.userId.value;
    var g := Group(rnd.id, u, op.name, op.extra.GetOr("{}"));
    GroupInsertView(a, g);
    GroupInsertView(b, g);
    GroupCreateResult(c, a, row, op, rnd);
    GroupCreateResult(c, b, row, op, rnd);
  }

  lemma GroupCreateResult(c: Config, db: Db, row: Identity, op: DataOp, rnd: Inputs)
    requires |rnd.private| == KEY_LEN && row.userId.Some? && op.GroupCreate?
    ensures Serve(c, db, row, op, rnd) ==
            var g := Group(rnd.id, row.userId.value, op.name, op.extra.GetOr("{}"));
            Settled(db, InsertGroup(db, g), GroupReply(g))
  {
    FinishRead(c, db, Authed(row, op), rnd);
    FinishWrite(c, db, GroupInsert(row.userId.value, op.name, op.extra.GetOr("{}")), rnd);
  }

  lemma GroupInsertView(db: Db, g: Group)
    requires Consistent(db) && g.uuid !in db.groups && g.userId in db.users
    ensures InsertGroup(db, g).Success?
    ensures GroupsView(InsertGroup(db, g).value, g.userId) == GroupsView(db, g.userId)[g.uuid := g]
    ensures PasswordsView(InsertGroup(db, g).value, g.userId) == PasswordsView(db, g.userId)
  {
    var db' := InsertGroup(db, g).value;
    assert forall p | p in db.passwords :: Owner(db', p) == Owner(db, p);
  }

  lemma CreateAgrees(c: Config, a: Db, b: Db, row: Identity, op: DataOp, rnd: Inputs)
    requires Consistent(a) && Consistent(b) && |rnd.private| == KEY_LEN
    requires row.userId.Some? && SameView(a, b, row.userId.value) && op.PwdCreate?
    requires rnd.id !in a.passwords && rnd.id !in b.passwords
    ensures Agree(c, a, b, row, op, rnd)
  {
    OwnGroupSame(a, b, row, op.groupId);
    CreateServes(c, a, row, op, rnd);
    CreateServes(c, b, row, op, rnd);
    if DecryptFromClient(c, op.pwd, row).Success? && OwnedGroup(a, op.groupId, row.userId) {
      var p := CreatedRow(op, SealColumn(c, DecryptFromClient(c, op.pwd, row).value, rnd.nonce(0)), rnd);
      PasswordInsertView(a, p);
      PasswordInsertView(b, p);
    }
  }

  lemma CreateServes(c: Config, db: Db, row: Identity, op: DataOp, rnd: Inputs)
    requires |rnd.private| == KEY_LEN && row.userId.Some? && op.PwdCreate?
    ensures Serve(c, db, row, op, rnd) ==
            var sent := DecryptFromClient(c, op.pwd, row);
            if sent.Failure? then (db, Failed(sent.error))
            else if !OwnedGroup(db, op.groupId, row.userId) then (db, Failed(Unauthorized))
            else
              var p := CreatedRow(op, SealColumn(c, sent.value, rnd.nonce(0)), rnd);
              Settled(db, InsertPassword(db, p), CreatedReply(c, p, row, rnd))
  {
    var sent := DecryptFromClient(c, op.pwd, row);
    FinishRead(c, db, Authed(row, op), rnd);
    if sent.Success? {
      CreateTail(c, db, row, op, SealColumn(c, sent.value, rnd.nonce(0)), rnd);
    }
  }

  /** The row a create stores, field by field. */
  function NewPassword(op: DataOp, blob: string, rnd: Inputs): Password
    requires op.PwdCreate?
  {
    Password(rnd.id, op.groupId, blob, op.pname.GetOr(""), op.pextra.GetOr("{}"), AskedDays(op.days), rnd.now, rnd.now)
  }

  /** What a create stores and replies: the fields that were sent, the defaults for those that were not,
      and the whole window left. */
  lemma CreateResult(c: Config, db: Db, row: Identity, op: DataOp, rnd: Inputs)
    requires |rnd.private| == KEY_LEN && row.userId.Some? && op.PwdCreate?
    ensures Serve(c, db, row, op, rnd) ==
            var sent := DecryptFromClient(c, op.pwd, row);
            if sent.Failure? then (db, Failed(sent.error))
            else if !OwnedGroup(db, op.groupId, row.userId) then (db, Failed(Unauthorized))
            else
              var p := NewPassword(op, SealColumn(c, sent.value, rnd.nonce(0)), rnd);
              Settled(db, InsertPassword(db, p), CreateReply(c, p, row, rnd))
  {
    CreateServes(c, db, row, op, rnd);
    var sent := DecryptFromClient(c, op.pwd, row);
    if sent.Success? {
      CreatedIsNew(c, row, op, SealColumn(c, sent.value, rnd.nonce(0)), rnd);
    }
  }

  /** The reply to a create: the blob sealed for the device, and as many days left as the window has. */
  function CreateReply(c: Config, p: Password, row: Identity, rnd: Inputs): Reply {
    var blob := EncryptForClient(c, p.pwd, row, rnd.nonce(1));
    if blob.Success? then Created(Entry(p.uuid, blob.value, p.days, p.days)) else Failed(blob.error)
  }

  lemma CreatedIsNew(c: Config, row: Identity, op: DataOp, blob: string, rnd: Inputs)
    requires op.PwdCreate?
    ensures CreatedRow(op, blob, rnd) == NewPassword(op, blob, rnd)
    ensures CreatedReply(c, CreatedRow(op, blob, rnd), row, rnd) == CreateReply(c, NewPassword(op, blob, rnd), row, rnd)
  {
  }

  lemma CreateTail(c: Config, db: Db, row: Identity, op: DataOp, blob: string, rnd: Inputs)
    requires |rnd.private| == KEY_LEN && row.userId.Some? && op.PwdCreate?
    ensures Finish(c, db, CheckGroup(row, op, blob), rnd) ==
            if !OwnedGroup(db, op.groupId, row.userId) then (db, Failed(Unauthorized))
            else
              var p := CreatedRow(op, blob, rnd);
              Settled(db, InsertPassword(db, p), CreatedReply(c, p, row, rnd))
  {
    FinishRead(c, db, CheckGroup(row, op, blob), rnd);
    FinishWrite(c, db, PwdInsert(row, op, blob), rnd);
  }

  lemma PasswordInsertView(db: Db, p: Password)
    requires Consistent(db) && p.uuid !in db.passwords && p.groupId in db.groups
    ensures var u := db.groups[p.groupId].userId;
            var db' := db.(passwords := db.passwords[p.uuid := p]);
            && GroupsView(db', u) == GroupsView(db, u)
            && PasswordsView(db', u) == PasswordsView(db, u)[p.uuid := p]
  {
    var db' := db.(passwords := db.passwords[p.uuid := p]);
    assert forall q | q in db.passwords :: Owner(db', q) == Owner(db, q);
  }

  lemma UpdateAgrees(c: Config, a: Db, b: Db, row: Identity, op: DataOp, rnd: Inputs)
    requires Consistent(a) && Consistent(b) && |rnd.private| == KEY_LEN
    requires row.userId.Some? && SameView(a, b, row.userId.value) && op.PwdUpdate?
    ensures Agree(c, a, b, row, op, rnd)
  {
    OwnPasswordSame(a, b, row.userId.value, op.pid);
    OwnGroupSame(a, b, row, op.groupId);
    UpdateResult(c, a, row, op, rnd);
    UpdateResult(c, b, row, op, rnd);
    var sent := DecryptFromClient(c, op.pwd, row);
    if Owner(a, op.pid) == row.userId && OwnedGroup(a, op.groupId, row.userId) && sent.Success? {
      var ch := UpdateChanges(op, SealColumn(c, sent.value, rnd.nonce(0)));
      PasswordUpdateView(a, op.pid, ApplyPassword(a.passwords[op.pid], ch, rnd.now));
      PasswordUpdateView(b, op.pid, ApplyPassword(b.passwords[op.pid], ch, rnd.now));
    }
  }

  lemma UpdateResult(c: Config, db: Db, row: Identity, op: DataOp, rnd: Inputs)
    requires Consistent(db) && |rnd.private| == KEY_LEN && row.userId.Some? && op.PwdUpdate?
    ensures Serve(c, db, row, op, rnd) ==
            var sent := DecryptFromClient(c, op.pwd, row);
            if Owner(db, op.pid) != row.userId || !OwnedGroup(db, op.groupId, row.userId)
            then (db, Failed(Unauthorized))
            else if sent.Failure? then (db, Failed(sent.error))
            else
              var ch := UpdateChanges(op, SealColumn(c, sent.value, rnd.nonce(0)));
              (db.(passwords := db.passwords[op.pid := ApplyPassword(db.passwords[op.pid], ch, rnd.now)]), Unit)
  {
    FinishRead(c, db, Authed(row, op), rnd);
    if op.pid in db.passwords {
      UpdateOwner(c, db, row, op, db.passwords[op.pid].groupId, rnd);
      UpdateTail(c, db, row, op, rnd);
    }
  }

  lemma UpdateOwner(c: Config, db: Db, row: Identity, op: DataOp, gid: Id, rnd: Inputs)
    requires |rnd.private| == KEY_LEN
    ensures Finish(c, db, CheckOwner(row, op, gid), rnd) ==
            if OwnedGroup(db, gid, row.userId) then Finish(c, db, CheckTarget(row, op), rnd)
            else (db, Failed(Unauthorized))
  {
    FinishRead(c, db, CheckOwner(row, op, gid), rnd);
  }

  lemma UpdateTail(c: Config, db: Db, row: Identity, op: DataOp, rnd: Inputs)
    requires |rnd.private| == KEY_LEN && row.userId.Some? && op.PwdUpdate? && op.pid in db.passwords
    requires db.stage.Runtime?
    ensures Finish(c, db, CheckTarget(row, op), rnd) ==
            var sent := DecryptFromClient(c, op.pwd, row);
            if !OwnedGroup(db, op.groupId, row.userId) then (db, Failed(Unauthorized))
            else if sent.Failure? then (db, Failed(sent.error))
            else
              var ch := UpdateChanges(op, SealColumn(c, sent.value, rnd.nonce(0)));
              (db.(passwords := db.passwords[op.pid := ApplyPassword(db.passwords[op.pid], ch, rnd.now)]), Unit)
  {
    var sent := DecryptFromClient(c, op.pwd, row);
    FinishRead(c, db, CheckTarget(row, op), rnd);
    if sent.Success? && OwnedGroup(db, op.groupId, row.userId) {
      UpdateEnd(c, db, row, op, SealColumn(c, sent.value, rnd.nonce(0)), rnd);
    }
  }

  lemma UpdateEnd(c: Config, db: Db, row: Identity, op: DataOp, blob: string, rnd: Inputs)
    requires |rnd.private| == KEY_LEN && op.PwdUpdate? && op.pid in db.passwords && op.groupId in db.groups
    requires db.stage.Runtime?
    ensures Finish(c, db, PwdWrite(row, op, blob), rnd) ==
            (db.(passwords := db.passwords[op.pid :=
               ApplyPassword(db.passwords[op.pid], UpdateChanges(op, blob), rnd.now)]),
             Unit)
  {
    FinishWrite(c, db, PwdWrite(row, op, blob), rnd);
  }

  lemma PasswordUpdateView(db: Db, pid: Id, p: Password)
    requires Consistent(db) && pid in db.passwords && p.groupId in db.groups
    requires Owner(db, pid) == Some(db.groups[p.groupId].userId)
    ensures var u := db.groups[p.groupId].userId;
            var db' := db.(passwords := db.passwords[pid := p]);
            && GroupsView(db', u) == GroupsView(db, u)
            && PasswordsView(db', u) == PasswordsView(db, u)[pid := p]
  {
    var db' := db.(passwords := db.passwords[pid := p]);
    assert forall q | q in db.passwords && q != pid :: Owner(db', q) == Owner(db, q);
  }

  /** Two databases that agree on one user's data, however different otherwise, answer every data
      request of that user the same, and still agree on the user's data afterwards: nothing about
      other users can be learned from, or leak into, the user's requests. */
  lemma RequestsDependOnOwnDataOnly(c: Config, a: Db, b: Db, row: Identity, op: DataOp, rnd: Inputs)
    requires Consistent(a) && Consistent(b) && ValidInputs(rnd)
    requires row.userId.Some? && row.userId.value in a.users && row.userId.value in b.users
    requires SameView(a, b, row.userId.value)
    requires rnd.id !in Ids(a) && rnd.id !in Ids(b)
    ensures Agree(c, a, b, row, op, rnd)
  {
    match op
    case GroupCreate(_, _) => GroupCreateAgrees(c, a, b, row, op, rnd);
    case PwdCreate(_, _, _, _, _) => CreateAgrees(c, a, b, row, op, rnd);
    case PwdUpdate(_, _, _, _, _) => UpdateAgrees(c, a, b, row, op, rnd);
    case PwdGet(_) => GetAgrees(c, a, b, row, op, rnd);
    case _ => ListAgrees(c, a, b, row, op, rnd);
  }
}
