/** Between the migrations of an imported database of the first schema: the migrations are committed
    one by one after the swap, and requests run before, between and after them. */
module Window {
  import opened Wrappers
  import opened Hex
  import opened Crypto
  import opened Schema
  import opened Statements
  import opened Protocol
  import opened Races
  import opened Vault
  import opened LateWrites
  import opened Migrations
  import opened World
  import opened Runs

  /** What holds of a database at each stage: in the first schema what that schema enforces; from
      `add_users_table` on everything but one device per address; that from `unique_identity_ip` on;
      and the runtime invariant from the last migration on. */
  ghost predicate MeetsItsStage(c: Config, content: Content) {
    match content
    case Pending(first) => Consistent1(first) && Sealed1(c, first)
    case Live(db) =>
      && StoreOk(c, db)
      && (!db.stage.Unindexed? ==> UniqueIps(db.identities))
      && (db.stage.Runtime? <==> DbInv(c, db))
  }

  lemma RunMeetsStages(c: Config, w: World, acts: seq<Action>, g: nat)
    requires ValidConfig(c) && Inv(c, w) && RunOk(c, w, acts) && g < |Run(c, w, acts).gens|
    ensures MeetsItsStage(c, Run(c, w, acts).gens[g].content)
  {
    var last := Run(c, w, acts);
    RunKeepsInv(c, w, acts);
    assert GenOk(c, last.issued, last.minted, last.gens[g]);
    if last.gens[g].content.Live? {
      RuntimeIsLastStage(c, last.gens[g].content.db);
    }
  }

  /** In the first schema no statement works: the request ends with an error of the database, and no
      database changes. */
  lemma FirstSchemaFails(c: Config, w: World, k: nat, rnd: Inputs)
    requires Enabled(c, w, Exec(k, rnd)) && w.gens[w.flights[k].gen.value].content.Pending?
    ensures var w' := Act(c, w, Exec(k, rnd));
            && w'.gens == w.gens && w'.flights[k].pc == Done(Failed(Database(SchemaMismatch)))
            && w'.flights - {k} == w.flights - {k}
  {
  }

  /** From every state an import of a first-schema database and its first migration lead to a state
      where one device per address holds exactly if it held in the file. */
  lemma WindowIsReached(c: Config, w: World, a: Archive)
    requires ValidConfig(c) && Inv(c, w) && Enabled(c, w, Import(a)) && a.content.Pending?
    ensures var w1, g := Act(c, w, Import(a)), |w.gens|;
            && Enabled(c, w1, Migrate(g))
            && Act(c, w1, Migrate(g)).gens[g].content == Live(AfterUsers(a.content.first))
    ensures StoreOk(c, AfterUsers(a.content.first))
    ensures UniqueIps(AfterUsers(a.content.first).identities) <==>
            forall i, j | 0 <= i < j < |a.content.first.identities| ::
              a.content.first.identities[i].ip != a.content.first.identities[j].ip
  {
    AcceptedContentOk(c, a);
    UsersStageOk(c, a.content.first);
    UsersStageIps(a.content.first);
    ImportThenMigrate(c, w, a);
  }

  lemma ImportThenMigrate(c: Config, w: World, a: Archive)
    requires Enabled(c, w, Import(a)) && a.content.Pending?
    ensures var w1, g := Act(c, w, Import(a)), |w.gens|;
            && Enabled(c, w1, Migrate(g))
            && Act(c, w1, Migrate(g)).gens[g].content == Live(AfterUsers(a.content.first))
  {
  }

  /** The first failing run: nothing stops a second greet that passed the check beside the first: both
      insert, and the address has two rows. */
  lemma TwoGreetsTwoRows(c: Config, db: Db, ip: Ip, key1: Bytes, key2: Bytes, rnd1: Inputs, rnd2: Inputs)
    requires db.stage.Unindexed? && |rnd1.private| == KEY_LEN && |rnd2.private| == KEY_LEN
    requires rnd1.id !in db.identities && rnd2.id !in db.identities && rnd1.id != rnd2.id
    ensures var (mid, one) := Next(c, db, GreetInsert(ip, key1), rnd1);
            var (after, two) := Next(c, mid, GreetInsert(ip, key2), rnd2);
            && one.reply.ServerKey? && two.reply.ServerKey?
            && rnd1.id in after.identities && rnd2.id in after.identities && !UniqueIps(after.identities)
            && Superseded(after, rnd1.id)
  {
    var mid := Next(c, db, GreetInsert(ip, key1), rnd1).0;
    GreetInWindow(c, db, ip, key1, rnd1);
    GreetInWindow(c, mid, ip, key2, rnd2);
    var after := Next(c, mid, GreetInsert(ip, key2), rnd2).0;
    var n := |db.stage.rowids|;
    assert after.stage.rowids[n] == rnd1.id && after.stage.rowids[n + 1] == rnd2.id;
    assert after.identities[rnd1.id].ip == after.identities[rnd2.id].ip;
  }

  /** The second failing run, without any race: a device re-signs from the address of another, which at
      runtime the unique index refuses. The address has two rows, and the next migration deletes the
      device whose row is older, be it the one that held the address or the one that came. */
  lemma ResignTakesAddress(c: Config, db: Db, holder: Id, comer: Id, rnd: Inputs)
    requires Stored(db) && db.stage.Unindexed? && |rnd.private| == KEY_LEN
    requires holder in db.identities && comer in db.identities && holder != comer
    ensures var (after, pc) := Next(c, db, ResignWrite(comer, db.identities[holder].ip), rnd);
            && pc == Done(Unit) && !UniqueIps(after.identities) && after.stage == db.stage
            && (OlderRow(db, holder, comer) ==> holder !in Collapse(after).identities)
            && (OlderRow(db, comer, holder) ==> comer !in Collapse(after).identities)
    ensures OlderRow(db, holder, comer) || OlderRow(db, comer, holder)
  {
    var ip := db.identities[holder].ip;
    var after := Readdressed(db, comer, ip);
    ResignInWindow(c, db, comer, ip, rnd);
    UpdateIdentityStored(db, comer, ResignChanges(ip));
    SameAddressTwice(after, holder, comer);
    RowsAreOrdered(db, holder, comer);
  }

  /** The row of one device was inserted before that of the other. */
  ghost predicate OlderRow(db: Db, a: Id, b: Id)
    requires db.stage.Unindexed?
  {
    exists k, j | 0 <= k < j < |db.stage.rowids| :: db.stage.rowids[k] == a && db.stage.rowids[j] == b
  }

  lemma RowsAreOrdered(db: Db, a: Id, b: Id)
    requires StageOk(db) && db.stage.Unindexed? && a in db.identities && b in db.identities && a != b
    ensures OlderRow(db, a, b) || OlderRow(db, b, a)
  {
    var k :| 0 <= k < |db.stage.rowids| && db.stage.rowids[k] == a;
    var j :| 0 <= j < |db.stage.rowids| && db.stage.rowids[j] == b;
    assert k < j || j < k;
  }

  lemma SameAddressTwice(db: Db, a: Id, b: Id)
    requires Stored(db) && db.stage.Unindexed? && a != b
    requires a in db.identities && b in db.identities && db.identities[a].ip == db.identities[b].ip
    ensures !UniqueIps(db.identities)
    ensures OlderRow(db, a, b) ==> a !in Collapse(db).identities
    ensures OlderRow(db, b, a) ==> b !in Collapse(db).identities
  {
    if OlderRow(db, a, b) {
      OlderIsDropped(db, a, b);
    }
    if OlderRow(db, b, a) {
      OlderIsDropped(db, b, a);
    }
  }

  lemma OlderIsDropped(db: Db, a: Id, b: Id)
    requires Stored(db) && db.stage.Unindexed? && OlderRow(db, a, b)
    requires a in db.identities && b in db.identities && db.identities[a].ip == db.identities[b].ip
    ensures a !in Collapse(db).identities
  {
    OlderIsSuperseded(db, a, b);
    CollapseRow(db, a);
  }

  lemma OlderIsSuperseded(db: Db, a: Id, b: Id)
    requires db.stage.Unindexed? && OlderRow(db, a, b)
    requires a in db.identities && b in db.identities && db.identities[a].ip == db.identities[b].ip
    ensures Superseded(db, a)
  {
    var k, j :| 0 <= k < j < |db.stage.rowids| && db.stage.rowids[k] == a && db.stage.rowids[j] == b;
  }

  // ----- exactly when addresses stay unique -----

  function Readdressed(db: Db, uuid: Id, ip: Ip): Db
    requires uuid in db.identities
  {
    db.(identities := db.identities[uuid := db.identities[uuid].(ip := ip, confirmed := false)])
  }

  lemma ResignInWindow(c: Config, db: Db, uuid: Id, ip: Ip, rnd: Inputs)
    requires Stored(db) && db.stage.Unindexed? && |rnd.private| == KEY_LEN && uuid in db.identities
    ensures UpdateIdentity(db, uuid, ResignChanges(ip)) == Success(Readdressed(db, uuid, ip))
    ensures Next(c, db, ResignWrite(uuid, ip), rnd) == (Readdressed(db, uuid, ip), Done(Unit))
  {
  }

  /** Another device holds the address. */
  ghost predicate HeldByOther(db: Db, uuid: Id, ip: Ip) {
    exists i | i in db.identities :: i != uuid && db.identities[i].ip == ip
  }

  /** The next statement is the insert of a greet at a taken address, or the write of a re-sign to an
      address that another device holds. */
  ghost predicate TakesHeldAddress(db: Db, pc: Pc) {
    match pc
    case GreetInsert(ip, _) => exists i | i in db.identities :: db.identities[i].ip == ip
    case ResignWrite(uuid, ip) => uuid in db.identities && HeldByOther(db, uuid, ip)
    case _ => false
  }

  lemma InsertKeepsUnique(identities: map<Id, Identity>, row: Identity)
    requires UniqueIps(identities) && row.uuid !in identities
    ensures UniqueIps(identities[row.uuid := row]) <==> forall i | i in identities :: identities[i].ip != row.ip
  {
    var after := identities[row.uuid := row];
    if UniqueIps(after) {
      forall i | i in identities ensures identities[i].ip != row.ip {
        assert after[i] == identities[i] && after[row.uuid] == row;
      }
    }
  }

  lemma UpdateKeepsUnique(identities: map<Id, Identity>, uuid: Id, row: Identity)
    requires UniqueIps(identities) && uuid in identities
    ensures UniqueIps(identities[uuid := row]) <==>
            forall i | i in identities && i != uuid :: identities[i].ip != row.ip
  {
    var after := identities[uuid := row];
    if UniqueIps(after) {
      forall i | i in identities && i != uuid ensures identities[i].ip != row.ip {
        assert after[i] == identities[i] && after[uuid] == row;
      }
    }
  }

  lemma GreetTakes(c: Config, db: Db, pc: Pc, rnd: Inputs)
    requires db.stage.Unindexed? && UniqueIps(db.identities) && |rnd.private| == KEY_LEN
    requires pc.GreetInsert? && rnd.id !in db.identities
    ensures UniqueIps(Next(c, db, pc, rnd).0.identities) <==> !TakesHeldAddress(db, pc)
  {
    GreetInWindow(c, db, pc.ip, pc.clientKey, rnd);
    InsertKeepsUnique(db.identities, GreetRow(c, pc.ip, pc.clientKey, rnd));
  }

  lemma ResignTakes(c: Config, db: Db, pc: Pc, rnd: Inputs)
    requires Stored(db) && db.stage.Unindexed? && UniqueIps(db.identities) && |rnd.private| == KEY_LEN
    requires pc.ResignWrite?
    ensures UniqueIps(Next(c, db, pc, rnd).0.identities) <==> !TakesHeldAddress(db, pc)
  {
    if pc.uuid in db.identities {
      ResignInWindow(c, db, pc.uuid, pc.ip, rnd);
      UpdateKeepsUnique(db.identities, pc.uuid, Readdressed(db, pc.uuid, pc.ip).identities[pc.uuid]);
    }
  }

  /** The other writes leave every address where it is, or delete a row. */
  lemma OthersMoveNoAddress(c: Config, db: Db, pc: Pc, rnd: Inputs, i: Id)
    requires !pc.Done? && !Reads(pc) && !pc.GreetInsert? && !pc.ResignWrite? && |rnd.private| == KEY_LEN
    requires Write(c, db, pc, rnd).Success? && i in Write(c, db, pc, rnd).value.0.identities
    ensures i in db.identities && Write(c, db, pc, rnd).value.0.identities[i].ip == db.identities[i].ip
  {
  }

  lemma OthersKeepUnique(c: Config, db: Db, pc: Pc, rnd: Inputs)
    requires !pc.Done? && !pc.GreetInsert? && !pc.ResignWrite? && |rnd.private| == KEY_LEN
    requires UniqueIps(db.identities)
    ensures UniqueIps(Next(c, db, pc, rnd).0.identities)
  {
    if !Reads(pc) && Write(c, db, pc, rnd).Success? {
      var after := Write(c, db, pc, rnd).value.0.identities;
      forall i, j | i in after && j in after && i != j ensures after[i].ip != after[j].ip {
        OthersMoveNoAddress(c, db, pc, rnd, i);
        OthersMoveNoAddress(c, db, pc, rnd, j);
      }
    }
  }

  /** In the window a statement that finds addresses unique leaves them so if and only if it is not one
      of the two that take an address another device holds. */
  lemma StepKeepsUniqueExactly(c: Config, db: Db, pc: Pc, rnd: Inputs)
    requires Stored(db) && db.stage.Unindexed? && UniqueIps(db.identities)
    requires !pc.Done? && |rnd.private| == KEY_LEN && rnd.id !in db.identities
    ensures UniqueIps(Next(c, db, pc, rnd).0.identities) <==> !TakesHeldAddress(db, pc)
  {
    if pc.GreetInsert? {
      GreetTakes(c, db, pc, rnd);
    } else if pc.ResignWrite? {
      ResignTakes(c, db, pc, rnd);
    } else {
      OthersKeepUnique(c, db, pc, rnd);
    }
  }

  /** This action executes such a statement in the window. */
  ghost predicate TakesAddress(w: World, a: Action, g: nat)
    requires LiveAt(w, g)
  {
    StepsOn(w, a, g) && DbAt(w, g).stage.Unindexed? && TakesHeldAddress(DbAt(w, g), w.flights[a.k].pc)
  }

  ghost predicate NobodyTakes(c: Config, w: World, acts: seq<Action>, g: nat)
    requires RunOk(c, w, acts) && LiveAt(w, g)
    decreases |acts|
  {
    acts == [] ||
    (OneAction(c, w, acts[0], g);
     !TakesAddress(w, acts[0], g) && NobodyTakes(c, Act(c, w, acts[0]), acts[1..], g))
  }

  /** At every point of the run addresses are unique. */
  ghost predicate AlwaysUnique(c: Config, w: World, acts: seq<Action>, g: nat)
    requires RunOk(c, w, acts) && LiveAt(w, g)
    decreases |acts|
  {
    && UniqueIps(DbAt(w, g).identities)
    && (acts == [] ||
        (OneAction(c, w, acts[0], g);
         AlwaysUnique(c, Act(c, w, acts[0]), acts[1..], g)))
  }

  lemma ActionKeepsUniqueExactly(c: Config, w: World, a: Action, g: nat)
    requires ValidConfig(c) && Inv(c, w) && Enabled(c, w, a) && LiveAt(w, g) && UniqueIps(DbAt(w, g).identities)
    ensures LiveAt(Act(c, w, a), g)
    ensures UniqueIps(DbAt(Act(c, w, a), g).identities) <==> !TakesAddress(w, a, g)
  {
    OneAction(c, w, a, g);
    assert GenOk(c, w.issued, w.minted, w.gens[g]);
    if StepsOn(w, a, g) {
      if DbAt(w, g).stage.Unindexed? {
        StepKeepsUniqueExactly(c, DbAt(w, g), w.flights[a.k].pc, a.rnd);
      } else {
        IndexedStaysUnique(c, w, a, g);
      }
    } else if a == Migrate(g) {
      LaterMigrationKeeps(c, w.issued, DbAt(w, g));
    }
  }

  lemma IndexedStaysUnique(c: Config, w: World, a: Action, g: nat)
    requires ValidConfig(c) && Inv(c, w) && Enabled(c, w, a) && LiveAt(w, g)
    requires StepsOn(w, a, g) && !DbAt(w, g).stage.Unindexed?
    ensures LiveAt(Act(c, w, a), g) && UniqueIps(DbAt(Act(c, w, a), g).identities)
  {
    OneAction(c, w, a, g);
    ActionKeepsInv(c, w, a);
    StepFacts(c, w, a.k, a.rnd, g);
    assert GenOk(c, Act(c, w, a).issued, Act(c, w, a).minted, Act(c, w, a).gens[g]);
  }

  /** Over a run, addresses are unique at every point if and only if they are at the start and no greet
      and no re-sign takes, in the window, an address that another device holds. */
  lemma {:induction false} RunKeepsUniqueExactly(c: Config, w: World, acts: seq<Action>, g: nat)
    requires ValidConfig(c) && Inv(c, w) && RunOk(c, w, acts) && LiveAt(w, g)
    ensures AlwaysUnique(c, w, acts, g) <==> UniqueIps(DbAt(w, g).identities) && NobodyTakes(c, w, acts, g)
    decreases |acts|
  {
    if acts != [] && UniqueIps(DbAt(w, g).identities) {
      ActionKeepsUniqueExactly(c, w, acts[0], g);
      ActionKeepsInv(c, w, acts[0]);
      RunKeepsUniqueExactly(c, Act(c, w, acts[0]), acts[1..], g);
    }
  }

  /** From the first migration of an imported database on, addresses are unique at every point if and
      only if they were in the file and nobody takes a held one before the second migration. */
  lemma ImportedStaysUniqueExactly(c: Config, w: World, acts: seq<Action>, g: nat, first: Db1)
    requires ValidConfig(c) && Inv(c, w) && RunOk(c, w, acts) && LiveAt(w, g)
    requires DistinctUuids(first.identities) && DbAt(w, g) == AfterUsers(first)
    ensures AlwaysUnique(c, w, acts, g) <==>
            && (forall i, j | 0 <= i < j < |first.identities| :: first.identities[i].ip != first.identities[j].ip)
            && NobodyTakes(c, w, acts, g)
  {
    UsersStageIps(first);
    RunKeepsUniqueExactly(c, w, acts, g);
  }

  lemma GreetInWindow(c: Config, db: Db, ip: Ip, key: Bytes, rnd: Inputs)
    requires db.stage.Unindexed? && |rnd.private| == KEY_LEN && rnd.id !in db.identities
    ensures var row := GreetRow(c, ip, key, rnd);
            Next(c, db, GreetInsert(ip, key), rnd) ==
            (db.(identities := db.identities[rnd.id := row], stage := Unindexed(db.stage.rowids + [rnd.id])),
             Done(ServerKey(Encode(row.serverPublic))))
  {
  }

  /** An approval given in the window can be lost: a confirm of a device whose address a later row has
      succeeds, and the next migration deletes the device and its token. */
  lemma ConfirmedThenDropped(c: Config, db: Db, uuid: Id, rnd: Inputs)
    requires Stored(db) && db.stage.Unindexed? && |rnd.private| == KEY_LEN
    requires uuid in db.identities && Superseded(db, uuid)
    ensures var (mid, pc) := Next(c, db, ConfirmWrite(uuid, true), rnd);
            && pc == Done(Unit) && mid.stage == db.stage && uuid in mid.identities && mid.identities[uuid].confirmed
            && mid.identities[uuid].token == db.identities[uuid].token && DroppedNext(mid, uuid)
  {
    ConfirmInWindow(c, db, uuid, rnd);
    UpdateIdentityStored(db, uuid, ConfirmChanges(true));
    StillDropped(db, Confirmed(db, uuid), uuid);
  }

  function Confirmed(db: Db, uuid: Id): Db
    requires uuid in db.identities
  {
    db.(identities := db.identities[uuid := db.identities[uuid].(confirmed := true)])
  }

  /** The next migration deletes the device, and its token is no longer live. */
  ghost predicate DroppedNext(db: Db, uuid: Id)
    requires db.stage.Unindexed? && uuid in db.identities
  {
    && uuid !in Collapse(db).identities
    && (db.identities[uuid].token.Some? ==> db.identities[uuid].token.value !in LiveTokens(Collapse(db)))
  }

  lemma StillDropped(db: Db, mid: Db, uuid: Id)
    requires Stored(mid) && db.stage.Unindexed? && mid.stage == db.stage
    requires uuid in mid.identities && Superseded(db, uuid)
    requires forall i | i in db.identities :: i in mid.identities && mid.identities[i].ip == db.identities[i].ip
    ensures DroppedNext(mid, uuid)
  {
    StillSuperseded(db, mid, uuid);
    CollapseRow(mid, uuid);
    if mid.identities[uuid].token.Some? {
      DroppedToken(mid, uuid);
    }
  }

  lemma ConfirmInWindow(c: Config, db: Db, uuid: Id, rnd: Inputs)
    requires Stored(db) && db.stage.Unindexed? && |rnd.private| == KEY_LEN && uuid in db.identities
    ensures UpdateIdentity(db, uuid, ConfirmChanges(true)) == Success(Confirmed(db, uuid))
    ensures Next(c, db, ConfirmWrite(uuid, true), rnd) == (Confirmed(db, uuid), Done(Unit))
  {
  }

  lemma StillSuperseded(db: Db, mid: Db, uuid: Id)
    requires db.stage.Unindexed? && mid.stage == db.stage && Superseded(db, uuid)
    requires forall i | i in db.identities :: i in mid.identities && mid.identities[i].ip == db.identities[i].ip
    ensures Superseded(mid, uuid)
  {
    var k, j :| 0 <= k < j < |db.stage.rowids| && db.stage.rowids[k] == uuid
                && uuid in db.identities && db.stage.rowids[j] in db.identities
                && db.identities[db.stage.rowids[j]].ip == db.identities[uuid].ip;
    assert mid.stage.rowids[k] == uuid;
  }

  lemma DroppedToken(db: Db, uuid: Id)
    requires Stored(db) && db.stage.Unindexed? && uuid in db.identities && db.identities[uuid].token.Some?
    requires uuid !in Collapse(db).identities
    ensures db.identities[uuid].token.value !in LiveTokens(Collapse(db))
  {
    CollapsedRows(db);
  }

  // ----- what works and what does not -----

  /** The next statement of the request names the password table. */
  predicate NamesPasswords(pc: Pc) {
    match pc
    case Authed(row, op) => row.userId.Some? && (op.PwdGet? || op.PwdUpdate?)
    case ListPasswords(_, _, op) => op.PwdList?
    case PwdInsert(_, op, _) => op.PwdCreate?
    case PwdWrite(_, op, _) => op.PwdUpdate?
    case _ => false
  }

  lemma BlockedReads(c: Config, db: Db, pc: Pc, rnd: Inputs)
    requires !db.stage.Runtime? && Reads(pc) && NamesPasswords(pc)
    ensures Read(c, db, pc, rnd) == Failure(Database(SchemaMismatch))
  {
  }

  /** Before the last migration, every statement that names the password table fails and changes
      nothing ... */
  lemma PasswordStatementsFail(c: Config, db: Db, pc: Pc, rnd: Inputs)
    requires !db.stage.Runtime? && NamesPasswords(pc) && |rnd.private| == KEY_LEN
    ensures Next(c, db, pc, rnd) == (db, Done(Failed(Database(SchemaMismatch))))
  {
    if Reads(pc) {
      BlockedReads(c, db, pc, rnd);
    }
  }

  lemma NoPasswordChange(c: Config, db: Db, pc: Pc, rnd: Inputs)
    requires !db.stage.Runtime? && !pc.Done? && |rnd.private| == KEY_LEN
    ensures Next(c, db, pc, rnd).0.passwords == db.passwords
  {
    if Reads(pc) {
    } else if NamesPasswords(pc) {
      PasswordStatementsFail(c, db, pc, rnd);
    } else if Write(c, db, pc, rnd).Success? {
      OtherWritesKeepPasswords(c, db, pc, rnd);
    }
  }

  lemma OtherWritesKeepPasswords(c: Config, db: Db, pc: Pc, rnd: Inputs)
    requires !Reads(pc) && !pc.Done? && !NamesPasswords(pc) && |rnd.private| == KEY_LEN
    requires Write(c, db, pc, rnd).Success?
    ensures Write(c, db, pc, rnd).value.0.passwords == db.passwords
  {
    if !pc.GroupInsert? && !pc.PwdInsert? && !pc.PwdWrite? {
      OtherWritesKeepData(c, db, pc, rnd);
    }
  }

  lemma ActionKeepsPasswords(c: Config, w: World, a: Action, g: nat)
    requires Inv(c, w) && Enabled(c, w, a) && LiveAt(w, g) && !DbAt(w, g).stage.Runtime?
    ensures LiveAt(Act(c, w, a), g) && DbAt(Act(c, w, a), g).passwords == DbAt(w, g).passwords
  {
    OneAction(c, w, a, g);
    if StepsOn(w, a, g) {
      NoPasswordChange(c, DbAt(w, g), w.flights[a.k].pc, a.rnd);
    } else if a == Migrate(g) {
      assert GenOk(c, w.issued, w.minted, w.gens[g]);
      LaterMigrationKeeps(c, w.issued, DbAt(w, g));
    }
  }

  /** Over every run that ends before the last migration, no password is added, changed or lost. */
  lemma {:induction false} PasswordsWait(c: Config, w: World, acts: seq<Action>, g: nat)
    requires ValidConfig(c) && Inv(c, w) && RunOk(c, w, acts) && LiveAt(w, g)
    requires LiveAt(Run(c, w, acts), g) && !DbAt(Run(c, w, acts), g).stage.Runtime?
    ensures DbAt(Run(c, w, acts), g).passwords == DbAt(w, g).passwords
    decreases |acts|
  {
    DataLasts(c, w, acts, g);
    if acts != [] {
      ActionKeepsPasswords(c, w, acts[0], g);
      ActionKeepsInv(c, w, acts[0]);
      PasswordsWait(c, Act(c, w, acts[0]), acts[1..], g);
    }
  }

  lemma StartIsNotBlocked(c: Config, db: Db, req: Request, rnd: Inputs)
    ensures ReadStart(c, db, req, rnd) != Failure(Database(SchemaMismatch))
  {
    match req
    case SignUp(ip, name, ehlo) => SignUpErrors(c, db, ip, name, ehlo, rnd);
    case SignIn(ip, name, ehlo) =>
      if FindByIp(db, ip).Some? {
        ClaimRefuses(c, FindByIp(db, ip).value, name, ehlo);
      }
    case Refresh(ip, token, ehlo) =>
      if FindByIp(db, ip).Some? {
        RefreshRefuses(c, FindByIp(db, ip).value, token, ehlo);
      }
    case Resign(_, token, ehlo) => ResignStartRefuses(c, db, req, rnd);
    case _ =>
  }

  lemma ResignStartRefuses(c: Config, db: Db, req: Request, rnd: Inputs)
    requires req.Resign?
    ensures ReadStart(c, db, req, rnd).Failure? ==> Refusal(ReadStart(c, db, req, rnd).error)
  {
    forall row {
      ResignRefuses(c, row, req.ehlo);
    }
  }

  lemma WriteIsNotBlocked(c: Config, db: Db, pc: Pc, rnd: Inputs)
    requires !Reads(pc) && !pc.Done? && !pc.PwdInsert? && !pc.PwdWrite? && |rnd.private| == KEY_LEN
    ensures Write(c, db, pc, rnd) != Failure(Database(SchemaMismatch))
  {
  }

  /** ... while the statements of greet, sign-up, sign-in, refresh, re-sign, confirm, delete and group
      creation work as at runtime. */
  lemma OtherStatementsWork(c: Config, db: Db, pc: Pc, rnd: Inputs)
    requires |rnd.private| == KEY_LEN && !pc.Done?
    requires pc.Start? || (!Reads(pc) && !pc.PwdInsert? && !pc.PwdWrite?)
    ensures Next(c, db, pc, rnd).1 != Done(Failed(Database(SchemaMismatch)))
  {
    if pc.Start? {
      StartIsNotBlocked(c, db, pc.req, rnd);
      StartNeverEnds(c, db, pc.req, rnd);
    } else {
      WriteIsNotBlocked(c, db, pc, rnd);
      RepliesDoNotBlock(c, db, pc, rnd);
    }
  }

  lemma StartNeverEnds(c: Config, db: Db, req: Request, rnd: Inputs)
    ensures ReadStart(c, db, req, rnd).Success? ==> !ReadStart(c, db, req, rnd).value.Done?
  {
  }

  lemma RepliesDoNotBlock(c: Config, db: Db, pc: Pc, rnd: Inputs)
    requires !Reads(pc) && !pc.Done? && !pc.PwdInsert? && !pc.PwdWrite? && |rnd.private| == KEY_LEN
    ensures Write(c, db, pc, rnd).Success? ==> !Write(c, db, pc, rnd).value.1.Failed?
  {
  }
}
