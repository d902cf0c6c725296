/** What a user sees while other users' requests run in between, and what the lists show over a run. */
module Undisturbed {
  import opened Wrappers
  import opened Crypto
  import opened Schema
  import opened Expiry
  import opened Protocol
  import opened Guarantee
  import opened Isolation
  import opened World
  import opened Vault
  import opened Listing
  import opened Runs

  /** No statement of the run writes data of this user on this generation. */
  ghost predicate NoOwnWrites(c: Config, w: World, acts: seq<Action>, g: nat, user: Id)
    requires RunOk(c, w, acts)
    decreases |acts|
  {
    acts != [] ==>
      && (StepsOn(w, acts[0], g) ==> WritesFor(w.flights[acts[0].k].pc) != Some(user))
      && NoOwnWrites(c, Act(c, w, acts[0]), acts[1..], g, user)
  }

  lemma ActionLeavesData(c: Config, w: World, a: Action, g: nat, user: Id)
    requires ValidConfig(c) && Inv(c, w) && Enabled(c, w, a) && LiveAt(w, g)
    requires StepsOn(w, a, g) ==> WritesFor(w.flights[a.k].pc) != Some(user)
    ensures LiveAt(Act(c, w, a), g) && SameView(DbAt(w, g), DbAt(Act(c, w, a), g), user)
  {
    OneAction(c, w, a, g);
    if StepsOn(w, a, g) {
      StepFacts(c, w, a.k, a.rnd, g);
      StepTouchesOwnDataOnly(c, w.issued, DbAt(w, g), w.flights[a.k].pc, a.rnd, user);
    } else {
      if a == Migrate(g) {
        assert GenOk(c, w.issued, w.minted, w.gens[g]);
        LaterMigrationKeeps(c, w.issued, DbAt(w, g));
      }
      SameDataSameView(DbAt(w, g), DbAt(Act(c, w, a), g), user);
    }
  }

  /** However long other users' requests run, and however they interleave, the user's data is the same. */
  lemma {:induction false} OthersLeaveData(c: Config, w: World, acts: seq<Action>, g: nat, user: Id)
    requires ValidConfig(c) && Inv(c, w) && RunOk(c, w, acts) && LiveAt(w, g)
    requires NoOwnWrites(c, w, acts, g, user)
    ensures LiveAt(Run(c, w, acts), g) && SameView(DbAt(w, g), DbAt(Run(c, w, acts), g), user)
    decreases |acts|
  {
    if acts == [] {
      SameDataSameView(DbAt(w, g), DbAt(w, g), user);
    } else {
      ActionLeavesData(c, w, acts[0], g, user);
      ActionKeepsInv(c, w, acts[0]);
      OthersLeaveData(c, Act(c, w, acts[0]), acts[1..], g, user);
    }
  }

  lemma GroupReadEnds(c: Config, db: Db, row: Identity, found: Password, rnd: Inputs)
    requires |rnd.private| == KEY_LEN
    ensures Next(c, db, ReadGroup(row, found), rnd) ==
            (db, Done(DetailOf(OwnGroup(Lookup(db.groups, found.groupId), row),
                               EncryptForClient(c, found.pwd, row, rnd.nonce(1)), found, rnd.now)))
  {
    var read := ReadReply(c, db, ReadGroup(row, found), rnd);
    assert Read(c, db, ReadGroup(row, found), rnd) == read;
    DetailIsRead(c, db, row, found, rnd, read);
  }

  lemma DetailIsRead(c: Config, db: Db, row: Identity, found: Password, rnd: Inputs, read: Result<Pc, AppError>)
    requires read == ReadReply(c, db, ReadGroup(row, found), rnd)
    ensures (if read.Success? then read.value else Done(Failed(read.error))) ==
            Done(DetailOf(OwnGroup(Lookup(db.groups, found.groupId), row),
                          EncryptForClient(c, found.pwd, row, rnd.nonce(1)), found, rnd.now))
  {
  }

  function DetailOf(group: Result<Group, AppError>, blob: Result<string, AppError>, p: Password, now: int): Reply {
    if group.Failure? then Failed(group.error)
    else if blob.Failure? then Failed(blob.error)
    else
      var left := DaysRemaining(p.validSince, p.days, now);
      Detail(Entry(p.uuid, blob.value, left, p.days), p.name, p.extra, group.value.name, group.value.extra)
  }

  lemma SecondReadOfGet(c: Config, a: Db, b: Db, row: Identity, pid: Id, rnd: Inputs)
    requires Consistent(a) && row.userId.Some? && SameView(a, b, row.userId.value)
    requires |rnd.private| == KEY_LEN && pid in a.passwords
    ensures Next(c, b, ReadGroup(row, a.passwords[pid]), rnd) == (b, Done(Serve(c, a, row, PwdGet(pid), rnd).1))
  {
    OwnGroupSame(a, b, row, a.passwords[pid].groupId);
    GetResult(c, a, row, PwdGet(pid), rnd);
    GroupReadEnds(c, b, row, a.passwords[pid], rnd);
  }

  /** Other users' requests between the two statements of a get do not change its reply: it is the
      reply of the handler run alone at the first statement. */
  lemma GetIsUndisturbed(c: Config, w: World, acts: seq<Action>, g: nat, row: Identity, pid: Id, rnd: Inputs)
    requires ValidConfig(c) && Inv(c, w) && RunOk(c, w, acts) && LiveAt(w, g) && DbAt(w, g).stage.Runtime?
    requires row.userId.Some? && NoOwnWrites(c, w, acts, g, row.userId.value)
    requires |rnd.private| == KEY_LEN && pid in DbAt(w, g).passwords
    ensures LiveAt(Run(c, w, acts), g)
    ensures Next(c, DbAt(Run(c, w, acts), g), ReadGroup(row, DbAt(w, g).passwords[pid]), rnd).1
            == Done(Serve(c, DbAt(w, g), row, PwdGet(pid), rnd).1)
  {
    OthersLeaveData(c, w, acts, g, row.userId.value);
    assert GenOk(c, w.issued, w.minted, w.gens[g]);
    SecondReadOfGet(c, DbAt(w, g), DbAt(Run(c, w, acts), g), row, pid, rnd);
  }

  lemma SecondReadOfList(c: Config, a: Db, b: Db, row: Identity, op: DataOp, rnd: Inputs)
    requires Consistent(a) && Consistent(b) && row.userId.Some? && SameView(a, b, row.userId.value)
    requires |rnd.private| == KEY_LEN && op.PwdList?
    ensures Next(c, b, ListPasswords(row, GroupIdsOf(a, row.userId.value), op), rnd)
            == (b, Done(Serve(c, a, row, op, rnd).1))
  {
    GroupIdsSame(a, b, row.userId.value);
    RowsSame(a, b, rnd.order, row.userId.value);
    ListResult(c, a, row, op, rnd);
  }

  /** Nor do they change the reply of a list. */
  lemma ListIsUndisturbed(c: Config, w: World, acts: seq<Action>, g: nat, row: Identity, op: DataOp, rnd: Inputs)
    requires ValidConfig(c) && Inv(c, w) && RunOk(c, w, acts) && LiveAt(w, g) && DbAt(w, g).stage.Runtime?
    requires row.userId.Some? && NoOwnWrites(c, w, acts, g, row.userId.value)
    requires |rnd.private| == KEY_LEN && op.PwdList?
    ensures LiveAt(Run(c, w, acts), g)
    ensures Next(c, DbAt(Run(c, w, acts), g), ListPasswords(row, GroupIdsOf(DbAt(w, g), row.userId.value), op), rnd).1
            == Done(Serve(c, DbAt(w, g), row, op, rnd).1)
  {
    OthersLeaveData(c, w, acts, g, row.userId.value);
    BothAtRuntime(c, w, acts, g);
    SecondReadOfList(c, DbAt(w, g), DbAt(Run(c, w, acts), g), row, op, rnd);
  }

  lemma BothAtRuntime(c: Config, w: World, acts: seq<Action>, g: nat)
    requires ValidConfig(c) && Inv(c, w) && RunOk(c, w, acts) && LiveAt(w, g) && DbAt(w, g).stage.Runtime?
    ensures LiveAt(Run(c, w, acts), g)
    ensures DbInv(c, DbAt(w, g)) && DbInv(c, DbAt(Run(c, w, acts), g))
  {
    DataLasts(c, w, acts, g);
    RunKeepsInv(c, w, acts);
    assert GenOk(c, w.issued, w.minted, w.gens[g]);
    assert GenOk(c, Run(c, w, acts).issued, Run(c, w, acts).minted, Run(c, w, acts).gens[g]);
  }

  /** After any interleaved run, every entry of a list opens under the device's own key to the text last
      sent for it by any device in the run, or else to the text it had before. */
  lemma ListShowsLastSent(
    c: Config, w: World, acts: seq<Action>, g: nat, row: Identity, private: Hex.Bytes, gids: set<Id>, op: DataOp,
    rnd: Inputs
  )
    requires ValidConfig(c) && Inv(c, w) && RunOk(c, w, acts) && LiveAt(w, g) && DbAt(w, g).stage.Runtime?
    requires Bearer(c, row) && Holds(c, row, private) && ValidInputs(rnd) && op.PwdList?
    requires LiveAt(Run(c, w, acts), g) && IsOrder(rnd.order, DbAt(Run(c, w, acts), g).passwords)
    ensures var reply := Read(c, DbAt(Run(c, w, acts), g), ListPasswords(row, gids, op), rnd);
            && reply.Success? && reply.value.Done? && reply.value.reply.Entries?
            && forall e | e in reply.value.reply.entries ::
                 ShowsLastSent(c, row, private, e, Moves(c, w, acts, g), VaultOf(c, DbAt(w, g)))
  {
    var db := DbAt(Run(c, w, acts), g);
    BothAtRuntime(c, w, acts, g);
    ListedEntriesOpen(c, db, row, private, gids, op, rnd);
    RunRefinesVault(c, w, acts, g);
    var reply := Read(c, db, ListPasswords(row, gids, op), rnd);
    forall e | e in reply.value.reply.entries
      ensures ShowsLastSent(c, row, private, e, Moves(c, w, acts, g), VaultOf(c, DbAt(w, g)))
    {
      LastWriteWins(VaultOf(c, DbAt(w, g)), Moves(c, w, acts, g), e.uuid);
    }
  }

  /** The device opens the entry to the text last sent for it. */
  ghost predicate ShowsLastSent(
    c: Config, row: Identity, private: Hex.Bytes, e: Entry, moves: seq<Move>, before: Vault
  ) {
    var shown := ClientOpens(c, row, private, e.pwd);
    shown.Success? && LastSent(moves, e.uuid, TextOf(before, e.uuid)) == Some(shown.value)
  }
}
