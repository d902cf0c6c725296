/** A soft-deleted user is frozen until restored. */
module SoftDelete {
  import opened Wrappers
  import opened Crypto
  import opened Schema
  import opened Statements
  import opened Protocol
  import opened Guarantee
  import opened Isolation
  import opened World
  import opened Runs

  /** The request has passed the deletion check for this user, or is about to restore the user. */
  predicate PastCheck(pc: Pc, user: Id) {
    match pc
    case Start(req) => req == SetDeleted(user, false)
    case UserWrite(uuid, flag) => uuid == user && !flag
    case LinkWrite(_, userId) => userId == user
    case GroupInsert(u, _, _) => u == user
    case Authed(row, _) => row.userId == Some(user)
    case ListPasswords(row, _, _) => row.userId == Some(user)
    case CheckGroup(row, _, _) => row.userId == Some(user)
    case PwdInsert(row, _, _) => row.userId == Some(user)
    case ReadGroup(row, _) => row.userId == Some(user)
    case CheckOwner(row, _, _) => row.userId == Some(user)
    case CheckTarget(row, _) => row.userId == Some(user)
    case PwdWrite(row, _, _) => row.userId == Some(user)
    case _ => false
  }

  ghost predicate DeviceOf(db: Db, uuid: Id, user: Id) {
    uuid in db.identities && db.identities[uuid].userId == Some(user)
  }

  /** Past the check, or about to write a token or an address to a device of the user on the strength
      of another user's ehlo: it read the device before the device was linked to this user, or has
      already proved an ehlo. */
  ghost predicate Late(db: Db, pc: Pc, user: Id) {
    PastCheck(pc, user) ||
    match pc
    case RefreshUser(row, _) => row.userId != Some(user) && DeviceOf(db, row.uuid, user)
    case ResignUser(row, _, _) => row.userId != Some(user) && DeviceOf(db, row.uuid, user)
    case RefreshWrite(uuid) => DeviceOf(db, uuid, user)
    case ResignWrite(uuid, _) => DeviceOf(db, uuid, user)
    case _ => false
  }

  ghost predicate Deleted(db: Db, user: Id) {
    user in db.users && db.users[user].isDeleted
  }

  /** The user has no device that the user did not have, and none with another token or address. */
  ghost predicate KeepsDevices(before: Db, after: Db, user: Id) {
    forall i | DeviceOf(after, i, user) ::
      && DeviceOf(before, i, user)
      && after.identities[i].token == before.identities[i].token
      && after.identities[i].ip == before.identities[i].ip
  }

  /** Nobody was newly linked to the user, no device of the user got a token or an address, and the
      user's groups and passwords are the same. */
  ghost predicate FrozenSince(before: Db, after: Db, user: Id) {
    SameView(before, after, user) && KeepsDevices(before, after, user)
  }

  // ----- reading steps -----

  lemma DeletedRefused(c: Config, db: Db, pc: Pc, rnd: Inputs, user: Id)
    requires Deleted(db, user) && Stored(db) && Reads(pc) && !Late(db, pc, user)
    requires pc.SignInUser? || pc.AuthUser?
    requires Read(c, db, pc, rnd).Success?
    ensures !Late(db, Read(c, db, pc, rnd).value, user)
  {
  }

  lemma ProofRefused(c: Config, db: Db, pc: Pc, rnd: Inputs, user: Id)
    requires Deleted(db, user) && Reads(pc) && !Late(db, pc, user)
    requires pc.RefreshUser? || pc.ResignUser?
    requires Read(c, db, pc, rnd).Success?
    ensures !Late(db, Read(c, db, pc, rnd).value, user)
  {
  }

  lemma ReadStaysOut(c: Config, db: Db, pc: Pc, rnd: Inputs, user: Id)
    requires Stored(db) && Deleted(db, user) && Reads(pc) && !Late(db, pc, user)
    requires Read(c, db, pc, rnd).Success?
    ensures !Late(db, Read(c, db, pc, rnd).value, user)
  {
    if pc.SignInUser? || pc.AuthUser? {
      DeletedRefused(c, db, pc, rnd, user);
    } else if pc.RefreshUser? || pc.ResignUser? {
      ProofRefused(c, db, pc, rnd, user);
    } else if pc.Start? {
      StartStaysOut(c, db, pc.req, rnd, user);
    } else if pc.Authed? {
      AuthedStaysOut(c, db, pc, rnd, user);
    } else {
      RestStaysOut(c, db, pc, rnd, user);
    }
  }

  lemma RestStaysOut(c: Config, db: Db, pc: Pc, rnd: Inputs, user: Id)
    requires pc.ListPasswords? || pc.CheckGroup? || pc.ReadGroup? || pc.CheckOwner? || pc.CheckTarget?
    requires !PastCheck(pc, user) && Read(c, db, pc, rnd).Success?
    ensures !Late(db, Read(c, db, pc, rnd).value, user)
  {
    if pc.ListPasswords? || pc.ReadGroup? {
      RepliesStayOut(c, db, pc, rnd, user);
    } else if pc.CheckTarget? {
      TargetsStayOut(c, db, pc.row, pc.op, rnd, user);
    } else {
      GroupsStayOut(c, db, pc, user);
    }
  }

  lemma RepliesStayOut(c: Config, db: Db, pc: Pc, rnd: Inputs, user: Id)
    requires (pc.ListPasswords? || pc.ReadGroup?) && ReadReply(c, db, pc, rnd).Success?
    ensures !Late(db, ReadReply(c, db, pc, rnd).value, user)
  {
    DoneIsInTime(db, ReadReply(c, db, pc, rnd).value, user);
  }

  lemma DoneIsInTime(db: Db, pc: Pc, user: Id)
    requires pc.Done?
    ensures !Late(db, pc, user)
  {
  }

  lemma GroupsStayOut(c: Config, db: Db, pc: Pc, user: Id)
    requires (pc.CheckGroup? || pc.CheckOwner?) && !PastCheck(pc, user) && ReadGroups(c, db, pc).Success?
    ensures !Late(db, ReadGroups(c, db, pc).value, user)
  {
  }

  lemma TargetsStayOut(c: Config, db: Db, row: Identity, op: DataOp, rnd: Inputs, user: Id)
    requires row.userId != Some(user) && ReadTarget(c, db, row, op, rnd).Success?
    ensures !Late(db, ReadTarget(c, db, row, op, rnd).value, user)
  {
    var next := ReadTarget(c, db, row, op, rnd).value;
    assert next.PwdWrite? && next.row == row;
    WriteIsInTime(db, next, user);
  }

  lemma WriteIsInTime(db: Db, pc: Pc, user: Id)
    requires pc.PwdWrite? && pc.row.userId != Some(user)
    ensures !Late(db, pc, user)
  {
  }

  lemma StartStaysOut(c: Config, db: Db, req: Request, rnd: Inputs, user: Id)
    requires DeviceRowsOk(db.identities, db.users)
    requires req != SetDeleted(user, false) && ReadStart(c, db, req, rnd).Success?
    ensures !Late(db, ReadStart(c, db, req, rnd).value, user)
  {
  }

  lemma AuthedStaysOut(c: Config, db: Db, pc: Pc, rnd: Inputs, user: Id)
    requires pc.Authed? && !PastCheck(pc, user) && Read(c, db, pc, rnd).Success?
    ensures !Late(db, Read(c, db, pc, rnd).value, user)
  {
  }

  lemma ReadStepStaysOut(c: Config, db: Db, pc: Pc, rnd: Inputs, user: Id)
    requires Reads(pc) && |rnd.private| == KEY_LEN
    requires Read(c, db, pc, rnd).Success? ==> !Late(db, Read(c, db, pc, rnd).value, user)
    ensures Next(c, db, pc, rnd).0 == db && !Late(db, Next(c, db, pc, rnd).1, user)
  {
  }

  // ----- writing steps -----

  /** The write of this step, if it succeeds, changes something of what is frozen. A re-sign to the
      address the device has, and an update that leaves the row as it is, do not. */
  ghost predicate Thaws(db: Db, pc: Pc, rnd: Inputs, user: Id) {
    match pc
    case UserWrite(uuid, flag) => uuid == user && !flag
    case LinkWrite(_, userId) => userId == user
    case RefreshWrite(uuid) => DeviceOf(db, uuid, user)
    case ResignWrite(uuid, ip) => DeviceOf(db, uuid, user) && db.identities[uuid].ip != ip
    case GroupInsert(u, _, _) => u == user
    case PwdInsert(row, _, _) => row.userId == Some(user)
    case PwdWrite(row, op, blob) =>
      && row.userId == Some(user) && op.PwdUpdate? && op.pid in db.passwords
      && ApplyPassword(db.passwords[op.pid], UpdateChanges(op, blob), rnd.now) != db.passwords[op.pid]
    case _ => false
  }

  lemma OnlyLateThaw(db: Db, pc: Pc, rnd: Inputs, user: Id)
    requires Thaws(db, pc, rnd, user)
    ensures Late(db, pc, user)
  {
  }

  /** The tables after a step still have the user deleted and all that is frozen as it was. */
  ghost predicate StepFrozen(db: Db, db': Db, user: Id) {
    Deleted(db', user) && FrozenSince(db, db', user)
  }

  ghost predicate DataWrite(pc: Pc) {
    pc.GroupInsert? || pc.PwdInsert? || pc.PwdWrite?
  }

  lemma SameIsFrozen(db: Db, user: Id)
    requires Deleted(db, user)
    ensures StepFrozen(db, db, user)
  {
    SameDataSameView(db, db, user);
  }

  lemma WriteKeepsDeleted(c: Config, db: Db, pc: Pc, rnd: Inputs, user: Id)
    requires Deleted(db, user) && !Reads(pc) && !pc.Done? && !Thaws(db, pc, rnd, user) && |rnd.private| == KEY_LEN
    requires rnd.id != user && Write(c, db, pc, rnd).Success?
    ensures Deleted(Write(c, db, pc, rnd).value.0, user)
  {
  }

  lemma WriteKeepsDevice(c: Config, db: Db, pc: Pc, rnd: Inputs, user: Id, i: Id)
    requires !Reads(pc) && !pc.Done? && !Thaws(db, pc, rnd, user) && |rnd.private| == KEY_LEN
    requires rnd.id != user && Write(c, db, pc, rnd).Success?
    requires DeviceOf(Write(c, db, pc, rnd).value.0, i, user)
    ensures DeviceOf(db, i, user)
    ensures Write(c, db, pc, rnd).value.0.identities[i].token == db.identities[i].token
    ensures Write(c, db, pc, rnd).value.0.identities[i].ip == db.identities[i].ip
  {
  }

  lemma WriteKeepsDevices(c: Config, db: Db, pc: Pc, rnd: Inputs, user: Id)
    requires !Reads(pc) && !pc.Done? && !Thaws(db, pc, rnd, user) && |rnd.private| == KEY_LEN
    requires rnd.id != user && Write(c, db, pc, rnd).Success?
    ensures KeepsDevices(db, Write(c, db, pc, rnd).value.0, user)
  {
    var after := Write(c, db, pc, rnd).value.0;
    forall i | DeviceOf(after, i, user)
      ensures DeviceOf(db, i, user)
      ensures after.identities[i].token == db.identities[i].token && after.identities[i].ip == db.identities[i].ip
    {
      WriteKeepsDevice(c, db, pc, rnd, user, i);
    }
  }

  lemma AccountWriteFreezes(c: Config, db: Db, pc: Pc, rnd: Inputs, user: Id)
    requires Deleted(db, user) && !Reads(pc) && !pc.Done? && !DataWrite(pc) && !Thaws(db, pc, rnd, user)
    requires |rnd.private| == KEY_LEN && rnd.id != user && Write(c, db, pc, rnd).Success?
    ensures StepFrozen(db, Write(c, db, pc, rnd).value.0, user)
  {
    WriteKeepsDeleted(c, db, pc, rnd, user);
    WriteKeepsDevices(c, db, pc, rnd, user);
    AccountWritesKeepData(c, db, pc, rnd, user);
  }

  /** A device of the user with the token just drawn, or at another address, is not as it was. */
  lemma AccountWriteThaws(c: Config, db: Db, pc: Pc, rnd: Inputs, user: Id)
    requires !Reads(pc) && !pc.Done? && !DataWrite(pc) && Thaws(db, pc, rnd, user)
    requires |rnd.private| == KEY_LEN && Write(c, db, pc, rnd).Success? && c.suite.hash(rnd.token) !in LiveTokens(db)
    ensures !StepFrozen(db, Write(c, db, pc, rnd).value.0, user)
  {
    var after := Write(c, db, pc, rnd).value.0;
    if !pc.UserWrite? {
      assert DeviceOf(after, pc.uuid, user);
      if pc.uuid in db.identities {
        assert db.identities[pc.uuid].token != Some(c.suite.hash(rnd.token));
      }
    }
  }

  lemma GroupWriteThaws(db: Db, g: Group)
    requires InsertGroup(db, g).Success?
    ensures !SameView(db, InsertGroup(db, g).value, g.userId)
  {
    assert g.uuid in GroupsView(InsertGroup(db, g).value, g.userId);
  }

  lemma PasswordInsertThaws(db: Db, p: Password, user: Id)
    requires InsertPassword(db, p).Success? && OwnedGroup(db, p.groupId, Some(user))
    ensures !SameView(db, InsertPassword(db, p).value, user)
  {
    assert p.uuid in PasswordsView(InsertPassword(db, p).value, user);
  }

  lemma PasswordUpdateThaws(db: Db, pid: Id, p: Password, user: Id)
    requires pid in db.passwords && Owner(db, pid) == Some(user) && OwnedGroup(db, p.groupId, Some(user))
    ensures SameView(db, db.(passwords := db.passwords[pid := p]), user) <==> p == db.passwords[pid]
  {
    var after := db.(passwords := db.passwords[pid := p]);
    assert PasswordsView(after, user)[pid] == p && PasswordsView(db, user)[pid] == db.passwords[pid];
    if p == db.passwords[pid] {
      SameDataSameView(db, after, user);
    }
  }

  /** Data writes touch no user and no device. */
  lemma DataWriteSparesDevices(c: Config, db: Db, pc: Pc, rnd: Inputs, user: Id)
    requires Deleted(db, user) && DataWrite(pc) && |rnd.private| == KEY_LEN && Write(c, db, pc, rnd).Success?
    ensures var after := Write(c, db, pc, rnd).value.0;
            StepFrozen(db, after, user) <==> SameView(db, after, user)
  {
  }

  lemma DataWriteThawsExactly(c: Config, issued: set<Id>, db: Db, pc: Pc, rnd: Inputs, user: Id)
    requires Stored(db) && PcOk(c, issued, db, pc) && Deleted(db, user) && DataWrite(pc)
    requires |rnd.private| == KEY_LEN && Write(c, db, pc, rnd).Success?
    ensures StepFrozen(db, Write(c, db, pc, rnd).value.0, user) <==> !Thaws(db, pc, rnd, user)
  {
    DataWriteSparesDevices(c, db, pc, rnd, user);
    if WritesFor(pc) != Some(user) {
      DataWritesKeepOthers(c, issued, db, pc, rnd, user);
    } else if pc.GroupInsert? {
      GroupWriteThaws(db, Group(rnd.id, pc.user, pc.gname, pc.gextra));
    } else if pc.PwdInsert? {
      PasswordInsertThaws(db, CreatedRow(pc.op, pc.blob, rnd), user);
    } else {
      UpdateThaws(c, db, pc, rnd, user);
    }
  }

  lemma UpdateThaws(c: Config, db: Db, pc: Pc, rnd: Inputs, user: Id)
    requires pc.PwdWrite? && pc.op.PwdUpdate? && pc.row.userId == Some(user)
    requires |rnd.private| == KEY_LEN && Write(c, db, pc, rnd).Success?
    requires Owner(db, pc.op.pid) == Some(user) && OwnedGroup(db, pc.op.groupId, Some(user))
    ensures SameView(db, Write(c, db, pc, rnd).value.0, user) <==> !Thaws(db, pc, rnd, user)
  {
    var p := ApplyPassword(db.passwords[pc.op.pid], UpdateChanges(pc.op, pc.blob), rnd.now);
    PasswordUpdateThaws(db, pc.op.pid, p, user);
  }

  /** The write of this step succeeds and changes something of what is frozen. */
  ghost predicate ThawsNow(c: Config, db: Db, pc: Pc, rnd: Inputs, user: Id)
    requires !pc.Done? && |rnd.private| == KEY_LEN
  {
    !Reads(pc) && Write(c, db, pc, rnd).Success? && Thaws(db, pc, rnd, user)
  }

  /** A statement of any request leaves a deleted user frozen if and only if it is not one of those
      writes, or fails. */
  lemma StepThawsExactly(c: Config, issued: set<Id>, db: Db, pc: Pc, rnd: Inputs, user: Id)
    requires Stored(db) && Ids(db) <= issued && PcOk(c, issued, db, pc) && !pc.Done? && Deleted(db, user)
    requires |rnd.private| == KEY_LEN && rnd.id !in issued && c.suite.hash(rnd.token) !in LiveTokens(db)
    ensures StepFrozen(db, Next(c, db, pc, rnd).0, user) <==> !ThawsNow(c, db, pc, rnd, user)
  {
    SameIsFrozen(db, user);
    if !Reads(pc) && Write(c, db, pc, rnd).Success? {
      if DataWrite(pc) {
        DataWriteThawsExactly(c, issued, db, pc, rnd, user);
      } else if Thaws(db, pc, rnd, user) {
        AccountWriteThaws(c, db, pc, rnd, user);
      } else {
        AccountWriteFreezes(c, db, pc, rnd, user);
      }
    }
  }

  /** A request that is in time stays so with its own steps. */
  lemma StepStaysInTime(c: Config, db: Db, pc: Pc, rnd: Inputs, user: Id)
    requires Stored(db) && Deleted(db, user) && !pc.Done? && !Late(db, pc, user)
    requires |rnd.private| == KEY_LEN
    ensures var (db', pc') := Next(c, db, pc, rnd); !Late(db', pc', user)
  {
    if Reads(pc) {
      if Read(c, db, pc, rnd).Success? {
        ReadStaysOut(c, db, pc, rnd, user);
      }
      ReadStepStaysOut(c, db, pc, rnd, user);
    } else {
      DoneIsInTime(Next(c, db, pc, rnd).0, Next(c, db, pc, rnd).1, user);
    }
  }

  /** What other requests do does not make a request late. */
  lemma StaysInTime(db: Db, db': Db, pc: Pc, user: Id)
    requires !Late(db, pc, user) && KeepsDevices(db, db', user)
    ensures !Late(db', pc, user)
  {
  }

  // ----- over runs: exactly when a deleted user is frozen -----

  /** The user is deleted in the current database. */
  ghost predicate Gone(w: World, user: Id) {
    w.gens != [] && LiveAt(w, Current(w)) && Deleted(DbAt(w, Current(w)), user)
  }

  /** The current database goes on without any change to what is frozen. */
  ghost predicate StaysFrozen(w: World, w': World, user: Id) {
    && w.gens != [] && LiveAt(w, Current(w)) && |w'.gens| == |w.gens| && LiveAt(w', Current(w))
    && StepFrozen(DbAt(w, Current(w)), DbAt(w', Current(w)), user)
  }

  /** The action executes such a write on the current database. */
  ghost predicate Thawing(c: Config, w: World, a: Action, user: Id)
    requires Enabled(c, w, a) && Gone(w, user)
  {
    && StepsOn(w, a, Current(w))
    && ThawsNow(c, DbAt(w, Current(w)), w.flights[a.k].pc, a.rnd, user)
  }

  lemma MigrationKeepsFrozen(c: Config, issued: set<Id>, db: Db, user: Id)
    requires StoreOk(c, db) && !db.stage.Runtime? && Deleted(db, user)
    ensures StepFrozen(db, NextStage(Live(db)), user)
  {
    LaterMigrationKeeps(c, issued, db);
    SameDataSameView(db, NextStage(Live(db)), user);
  }

  lemma ExecThawsExactly(c: Config, w: World, a: Action, user: Id)
    requires ValidConfig(c) && Inv(c, w) && Enabled(c, w, a) && Gone(w, user) && StepsOn(w, a, Current(w))
    ensures StaysFrozen(w, Act(c, w, a), user) <==> !Thawing(c, w, a, user)
  {
    var g := Current(w);
    OneAction(c, w, a, g);
    StepFacts(c, w, a.k, a.rnd, g);
    assert GenOk(c, w.issued, w.minted, w.gens[g]);
    StepThawsExactly(c, w.issued, DbAt(w, g), w.flights[a.k].pc, a.rnd, user);
  }

  lemma OthersKeepFrozen(c: Config, w: World, a: Action, user: Id)
    requires Inv(c, w) && Enabled(c, w, a) && Gone(w, user) && !a.Import? && !StepsOn(w, a, Current(w))
    ensures StaysFrozen(w, Act(c, w, a), user)
  {
    var g := Current(w);
    OneAction(c, w, a, g);
    if a == Migrate(g) {
      assert GenOk(c, w.issued, w.minted, w.gens[g]);
      MigrationKeepsFrozen(c, w.issued, DbAt(w, g), user);
    } else {
      SameIsFrozen(DbAt(w, g), user);
    }
  }

  lemma ActionThawsExactly(c: Config, w: World, a: Action, user: Id)
    requires ValidConfig(c) && Inv(c, w) && Enabled(c, w, a) && Gone(w, user) && !a.Import?
    ensures StaysFrozen(w, Act(c, w, a), user) <==> !Thawing(c, w, a, user)
  {
    if StepsOn(w, a, Current(w)) {
      ExecThawsExactly(c, w, a, user);
    } else {
      OthersKeepFrozen(c, w, a, user);
    }
  }

  /** No action of the run changes anything of what is frozen. */
  ghost predicate FrozenThroughout(c: Config, w: World, acts: seq<Action>, user: Id)
    requires RunOk(c, w, acts)
    decreases |acts|
  {
    acts == [] ||
    (StaysFrozen(w, Act(c, w, acts[0]), user) && FrozenThroughout(c, Act(c, w, acts[0]), acts[1..], user))
  }

  /** No action of the run, as long as the user is deleted, is a thawing one. */
  ghost predicate NobodyThaws(c: Config, w: World, acts: seq<Action>, user: Id)
    requires RunOk(c, w, acts)
    decreases |acts|
  {
    acts == [] ||
    (Gone(w, user) && !Thawing(c, w, acts[0], user) && NobodyThaws(c, Act(c, w, acts[0]), acts[1..], user))
  }

  /** Over a run without import, a deleted user is frozen throughout if and only if no thawing write is
      executed and succeeds. */
  lemma {:induction false} FrozenExactly(c: Config, w: World, acts: seq<Action>, user: Id)
    requires ValidConfig(c) && Inv(c, w) && RunOk(c, w, acts) && NoImport(acts) && Gone(w, user)
    ensures FrozenThroughout(c, w, acts, user) <==> NobodyThaws(c, w, acts, user)
    decreases |acts|
  {
    if acts != [] {
      var w' := Act(c, w, acts[0]);
      ActionThawsExactly(c, w, acts[0], user);
      if StaysFrozen(w, w', user) {
        ActionKeepsInv(c, w, acts[0]);
        GoneWhileFrozen(w, w', user);
        FrozenExactly(c, w', acts[1..], user);
      }
    }
  }

  lemma GoneWhileFrozen(w: World, w': World, user: Id)
    requires StaysFrozen(w, w', user)
    ensures Gone(w', user) && Current(w') == Current(w)
  {
  }

  lemma FrozenTwice(w: World, w1: World, w2: World, user: Id)
    requires StaysFrozen(w, w1, user) && StaysFrozen(w1, w2, user)
    ensures StaysFrozen(w, w2, user)
  {
  }

  /** Frozen throughout means: at the end everything is as it was at the start. */
  lemma {:induction false} FrozenToTheEnd(c: Config, w: World, acts: seq<Action>, user: Id)
    requires RunOk(c, w, acts) && Gone(w, user) && FrozenThroughout(c, w, acts, user)
    ensures StaysFrozen(w, Run(c, w, acts), user)
    decreases |acts|
  {
    if acts == [] {
      SameIsFrozen(DbAt(w, Current(w)), user);
    } else {
      FrozenToTheEnd(c, Act(c, w, acts[0]), acts[1..], user);
      FrozenTwice(w, Act(c, w, acts[0]), Run(c, Act(c, w, acts[0]), acts[1..]), user);
    }
  }

  // ----- only late requests can thaw -----

  /** The user is deleted in the current database, and these are all requests in flight that are past
      the deletion check for the user or still connected to an older database. */
  ghost predicate Settled(w: World, user: Id, late: set<nat>) {
    Gone(w, user) && forall k | k in w.flights && k !in late :: InTime(w, w.flights[k], user)
  }

  ghost predicate InTime(w: World, f: Flight, user: Id)
    requires w.gens != [] && LiveAt(w, Current(w))
  {
    !Late(DbAt(w, Current(w)), f.pc, user) && (f.gen.None? || f.gen == Some(Current(w)))
  }

  /** Anything may happen but an import, a new request to restore this user, and a write of a late
      request that succeeds and thaws. */
  ghost predicate Allowed(c: Config, w: World, a: Action, user: Id, late: set<nat>)
    requires Enabled(c, w, a) && Gone(w, user)
  {
    && !a.Import? && !(a.Arrive? && a.req == SetDeleted(user, false))
    && (a.Exec? && a.k in late ==> !Thawing(c, w, a, user))
  }

  ghost predicate AllAllowed(c: Config, w: World, acts: seq<Action>, user: Id, late: set<nat>)
    requires RunOk(c, w, acts)
    decreases |acts|
  {
    acts == [] ||
    (Gone(w, user) && Allowed(c, w, acts[0], user, late)
     && AllAllowed(c, Act(c, w, acts[0]), acts[1..], user, late))
  }

  lemma InTimeDoesNotThaw(c: Config, w: World, a: Action, user: Id, late: set<nat>)
    requires Enabled(c, w, a) && Settled(w, user, late) && Allowed(c, w, a, user, late)
    ensures !Thawing(c, w, a, user)
  {
    if StepsOn(w, a, Current(w)) && a.k !in late && Thawing(c, w, a, user) {
      OnlyLateThaw(DbAt(w, Current(w)), w.flights[a.k].pc, a.rnd, user);
    }
  }

  /** The request that just made a step is still in time. */
  ghost predicate StepInTime(c: Config, w: World, a: Action, user: Id, late: set<nat>)
    requires Enabled(c, w, a) && StaysFrozen(w, Act(c, w, a), user)
  {
    a.Exec? && a.k !in late ==> !Late(DbAt(Act(c, w, a), Current(w)), Act(c, w, a).flights[a.k].pc, user)
  }

  lemma ExecStaysInTime(c: Config, w: World, a: Action, user: Id, late: set<nat>)
    requires Inv(c, w) && Enabled(c, w, a) && Settled(w, user, late) && StaysFrozen(w, Act(c, w, a), user)
    ensures StepInTime(c, w, a, user, late)
  {
    if a.Exec? && a.k !in late {
      OneAction(c, w, a, Current(w));
      assert GenOk(c, w.issued, w.minted, w.gens[Current(w)]);
      StepStaysInTime(c, DbAt(w, Current(w)), w.flights[a.k].pc, a.rnd, user);
    }
  }

  lemma ActionKeepsFrozen(c: Config, w: World, a: Action, user: Id, late: set<nat>)
    requires ValidConfig(c) && Inv(c, w) && Enabled(c, w, a) && Settled(w, user, late)
    requires Allowed(c, w, a, user, late)
    ensures StaysFrozen(w, Act(c, w, a), user) && Settled(Act(c, w, a), user, late)
  {
    InTimeDoesNotThaw(c, w, a, user, late);
    ActionThawsExactly(c, w, a, user);
    ExecStaysInTime(c, w, a, user, late);
    StaysSettled(c, w, a, user, late);
  }

  lemma StaysSettled(c: Config, w: World, a: Action, user: Id, late: set<nat>)
    requires Enabled(c, w, a) && Settled(w, user, late) && Allowed(c, w, a, user, late)
    requires StaysFrozen(w, Act(c, w, a), user) && StepInTime(c, w, a, user, late)
    ensures Settled(Act(c, w, a), user, late)
  {
    forall k | k in Act(c, w, a).flights && k !in late ensures InTime(Act(c, w, a), Act(c, w, a).flights[k], user) {
      FlightStaysInTime(c, w, a, user, late, k);
    }
  }

  lemma FlightStaysInTime(c: Config, w: World, a: Action, user: Id, late: set<nat>, k: nat)
    requires Enabled(c, w, a) && Settled(w, user, late) && Allowed(c, w, a, user, late)
    requires StaysFrozen(w, Act(c, w, a), user) && StepInTime(c, w, a, user, late)
    requires k in Act(c, w, a).flights && k !in late
    ensures InTime(Act(c, w, a), Act(c, w, a).flights[k], user)
  {
    if k in w.flights && !(a.Exec? && a.k == k) {
      StaysInTime(DbAt(w, Current(w)), DbAt(Act(c, w, a), Current(w)), w.flights[k].pc, user);
    }
  }

  lemma FrozenAtFirst(w: World, user: Id, late: set<nat>)
    requires Settled(w, user, late)
    ensures StaysFrozen(w, w, user)
  {
    SameIsFrozen(DbAt(w, Current(w)), user);
  }

  /** Along any interleaving of any length in which a deleted user is not restored and no request that
      was late when it began executes a thawing write with success: nobody is linked to the user, no
      device of the user gets a token or an address, no other request gets past the deletion check, and
      the user's groups and passwords stay as they are. Whole handlers run one after the other, where
      nobody is late, are a special case. */
  lemma {:induction false} DeletedUserIsFrozen(c: Config, w: World, acts: seq<Action>, user: Id, late: set<nat>)
    requires ValidConfig(c) && Inv(c, w) && RunOk(c, w, acts)
    requires Settled(w, user, late) && AllAllowed(c, w, acts, user, late)
    ensures StaysFrozen(w, Run(c, w, acts), user) && Settled(Run(c, w, acts), user, late)
    decreases |acts|
  {
    if acts == [] {
      FrozenAtFirst(w, user, late);
    } else {
      var w' := Act(c, w, acts[0]);
      ActionKeepsFrozen(c, w, acts[0], user, late);
      ActionKeepsInv(c, w, acts[0]);
      DeletedUserIsFrozen(c, w', acts[1..], user, late);
      FrozenTwice(w, w', Run(c, w', acts[1..]), user);
    }
  }

  /** The failing case, in full: an update that was past the deletion check when the user was deleted
      still lands on the deleted user's password, with the text the device sent. */
  lemma LateUpdateLands(c: Config, db: Db, row: Identity, op: DataOp, blob: string, user: Id, rnd: Inputs)
    requires Consistent(db) && Deleted(db, user) && |rnd.private| == KEY_LEN
    requires row.userId == Some(user) && op.PwdUpdate?
    requires Owner(db, op.pid) == Some(user) && OwnedGroup(db, op.groupId, Some(user))
    ensures Late(db, PwdWrite(row, op, blob), user)
    ensures var (after, pc) := Next(c, db, PwdWrite(row, op, blob), rnd);
            && pc == Done(Unit) && op.pid in after.passwords
            && after.passwords[op.pid].pwd == blob && after.passwords[op.pid].validSince == rnd.now
  {
    UpdateLands(c, db, row, op, blob, rnd);
  }

  lemma UpdateLands(c: Config, db: Db, row: Identity, op: DataOp, blob: string, rnd: Inputs)
    requires db.stage.Runtime? && |rnd.private| == KEY_LEN && op.PwdUpdate?
    requires op.pid in db.passwords && op.groupId in db.groups
    ensures var row' := ApplyPassword(db.passwords[op.pid], UpdateChanges(op, blob), rnd.now);
            Next(c, db, PwdWrite(row, op, blob), rnd) == (db.(passwords := db.passwords[op.pid := row']), Done(Unit))
  {
  }

  /** After a restore the database is exactly as before the delete. */
  lemma RestoreUndoesDelete(c: Config, db: Db, user: Id, rnd: Inputs)
    requires |rnd.private| == KEY_LEN && user in db.users && !db.users[user].isDeleted
    ensures var (gone, r1) := Handle(c, db, SetDeleted(user, true), rnd);
            var (back, r2) := Handle(c, gone, SetDeleted(user, false), rnd);
            r1 == Unit && r2 == Unit && Deleted(gone, user) && back == db
            && gone == db.(users := db.users[user := db.users[user].(isDeleted := true)])
  {
    FlagWorks(c, db, user, true, rnd);
    var gone := db.(users := db.users[user := db.users[user].(isDeleted := true)]);
    FlagWorks(c, gone, user, false, rnd);
    assert gone.users[user := gone.users[user].(isDeleted := false)] == db.users;
  }

  /** Delete and restore write the flag of one user and nothing else. */
  lemma FlagWorks(c: Config, db: Db, user: Id, flag: bool, rnd: Inputs)
    requires |rnd.private| == KEY_LEN
    ensures Handle(c, db, SetDeleted(user, flag), rnd) ==
            if user in db.users
            then (db.(users := db.users[user := db.users[user].(isDeleted := flag)]), Unit)
            else (db, Failed(AppError.NotFound))
  {
    FinishRead(c, db, Start(SetDeleted(user, flag)), rnd);
    if user in db.users {
      FinishWrite(c, db, UserWrite(user, flag), rnd);
    }
  }

  /** No token from any address authenticates a device of a deleted user. */
  lemma DeletedUserNeverAuthenticates(c: Config, db: Db, token: Option<string>, ip: Ip, user: Id)
    requires Stored(db) && Deleted(db, user)
    ensures Authenticate(c, db, token, ip).Success? ==> Authenticate(c, db, token, ip).value.userId != Some(user)
    ensures forall t: string, i | DeviceOf(db, i, user) && db.identities[i].token == Some(c.suite.hash(t)) ::
              Authenticate(c, db, Some(t), ip) == Failure(Unauthorized)
  {
    forall t: string, i | DeviceOf(db, i, user) && db.identities[i].token == Some(c.suite.hash(t))
      ensures Authenticate(c, db, Some(t), ip) == Failure(Unauthorized)
    {
      assert FindByToken(db, c.suite.hash(t)) == Some(db.identities[i]);
    }
  }

  /** Nor does it when the deletion comes between the two statements of the check: the second refuses
      every device of the user, whatever the row said when it was read. */
  lemma DeletionCheckRefuses(c: Config, db: Db, row: Identity, op: DataOp, rnd: Inputs, user: Id)
    requires |rnd.private| == KEY_LEN && row.userId == Some(user)
    ensures Deleted(db, user) ==> Next(c, db, AuthUser(row, op), rnd) == (db, Done(Failed(Unauthorized)))
    ensures user in db.users && !Deleted(db, user) ==> !Next(c, db, AuthUser(row, op), rnd).1.Done? || op.Verify?
  {
  }
}
