/** Safety over whole runs of the server: what holds at the end of any interleaving of any length. */
module Runs {
  import opened Wrappers
  import opened Crypto
  import opened Schema
  import opened Protocol
  import opened Guarantee
  import opened Effects
  import opened ArchiveEnv
  import opened World
  import opened Vault

  ghost predicate LiveAt(w: World, g: nat) {
    g < |w.gens| && w.gens[g].content.Live?
  }

  ghost function DbAt(w: World, g: nat): Db
    requires LiveAt(w, g)
  {
    w.gens[g].content.db
  }

  ghost predicate StepsOn(w: World, a: Action, g: nat) {
    a.Exec? && a.k in w.flights && w.flights[a.k].gen == Some(g)
  }

  /** An action changes a database that has users only by executing a statement of a request
      connected to it, or by its next migration. */
  lemma OneAction(c: Config, w: World, a: Action, g: nat)
    requires Enabled(c, w, a) && LiveAt(w, g)
    ensures LiveAt(Act(c, w, a), g) && |Act(c, w, a).gens| >= |w.gens|
    ensures if StepsOn(w, a, g) then
              var pc, db := w.flights[a.k].pc, DbAt(w, g);
              Act(c, w, a).gens[g] == Stepped(w.gens[g].history, pc, db, Next(c, db, pc, a.rnd).0)
            else if a == Migrate(g) then
              !DbAt(w, g).stage.Runtime? && Act(c, w, a).gens[g] == Migrated(w.gens[g])
            else Act(c, w, a).gens[g] == w.gens[g]
  {
  }

  lemma MigrationFacts(c: Config, w: World, g: nat)
    requires Inv(c, w) && LiveAt(w, g) && Enabled(c, w, Migrate(g))
    ensures Evolves(w.issued, DbAt(w, g), NextStage(w.gens[g].content))
    ensures VaultOf(c, NextStage(w.gens[g].content)) == VaultOf(c, DbAt(w, g))
    ensures Ids(NextStage(w.gens[g].content)) <= Ids(DbAt(w, g))
  {
    assert GenOk(c, w.issued, w.minted, w.gens[g]);
    LaterMigrationKeeps(c, w.issued, DbAt(w, g));
  }

  lemma StepFacts(c: Config, w: World, k: nat, rnd: Inputs, g: nat)
    requires ValidConfig(c) && Inv(c, w) && Enabled(c, w, Exec(k, rnd)) && LiveAt(w, g)
    requires StepsOn(w, Exec(k, rnd), g)
    ensures StoreOk(c, DbAt(w, g)) && PcOk(c, w.issued, DbAt(w, g), w.flights[k].pc)
    ensures Evolves(w.issued, DbAt(w, g), Next(c, DbAt(w, g), w.flights[k].pc, rnd).0)
  {
    assert GenOk(c, w.issued, w.minted, w.gens[g]) && FlightOk(c, w.issued, w.gens, w.flights[k]);
    StepKeeps(c, w.issued, DbAt(w, g), w.flights[k].pc, rnd);
  }

  // ----- approval -----

  lemma AcceptedDeviceIsConfirmed(c: Config, db: Db, token: Option<string>, ip: Ip, op: DataOp, rnd: Inputs)
    requires Stored(db) && ReadStart(c, db, Data(token, ip, op), rnd).Success?
    ensures var pc := ReadStart(c, db, Data(token, ip, op), rnd).value;
            && pc.AuthUser? && pc.op == op
            && pc.row.uuid in db.identities && db.identities[pc.row.uuid] == pc.row
            && pc.row.confirmed && pc.row.ip == ip
  {
    var row := FindByToken(db, c.suite.hash(token.value)).value;
    assert row.uuid in db.identities && db.identities[row.uuid] == row;
  }

  /** A device that passes the token, address and confirmation checks of `validate_auth` was, at its
      latest confirm by an admin, a device of that very user at that very address. */
  lemma AcceptedDeviceWasApproved(c: Config, w: World, g: nat, token: Option<string>, ip: Ip, op: DataOp, rnd: Inputs)
    requires Inv(c, w) && LiveAt(w, g)
    requires ReadStart(c, DbAt(w, g), Data(token, ip, op), rnd).Success?
    ensures var pc := ReadStart(c, DbAt(w, g), Data(token, ip, op), rnd).value;
            && pc.AuthUser? && pc.op == op
            && pc.row.uuid in w.gens[g].history.approved
            && w.gens[g].history.approved[pc.row.uuid] == Approval(pc.row.userId, ip)
  {
    assert GenOk(c, w.issued, w.minted, w.gens[g]);
    AcceptedDeviceIsConfirmed(c, DbAt(w, g), token, ip, op, rnd);
  }

  // ----- tokens -----

  /** The token is in the device table, or was and left it. */
  ghost predicate Known(w: World, g: nat, t: string) {
    LiveAt(w, g) && (t in LiveTokens(DbAt(w, g)) || t in w.gens[g].history.retired)
  }

  ghost predicate Retired(w: World, g: nat, t: string) {
    LiveAt(w, g) && t in w.gens[g].history.retired
  }

  lemma TokenStep(c: Config, w: World, a: Action, g: nat, t: string)
    requires Enabled(c, w, a) && LiveAt(w, g)
    ensures Known(w, g, t) ==> Known(Act(c, w, a), g, t)
    ensures Retired(w, g, t) ==> Retired(Act(c, w, a), g, t)
  {
    OneAction(c, w, a, g);
  }

  /** Once in the table, a token is in it or retired for ever after, and once retired it stays so. */
  lemma {:induction false} TokensLeaveForGood(c: Config, w: World, acts: seq<Action>, g: nat, t: string)
    requires RunOk(c, w, acts) && LiveAt(w, g)
    ensures Known(w, g, t) ==> Known(Run(c, w, acts), g, t)
    ensures Retired(w, g, t) ==> Retired(Run(c, w, acts), g, t)
    decreases |acts|
  {
    if acts != [] {
      OneAction(c, w, acts[0], g);
      TokenStep(c, w, acts[0], g, t);
      TokensLeaveForGood(c, Act(c, w, acts[0]), acts[1..], g, t);
    }
  }

  /** A token seen on one device is never on another later. */
  lemma {:induction false} TokenStaysOnDevice(c: Config, w: World, acts: seq<Action>, g: nat, uuid: Id, t: string)
    requires ValidConfig(c) && Inv(c, w) && RunOk(c, w, acts) && LiveAt(w, g)
    requires t in w.minted && HeldOnlyBy(DbAt(w, g), uuid, t)
    ensures LiveAt(Run(c, w, acts), g) && HeldOnlyBy(DbAt(Run(c, w, acts), g), uuid, t)
    decreases |acts|
  {
    if acts != [] {
      HolderKept(c, w, acts[0], g, uuid, t);
      ActionKeepsInv(c, w, acts[0]);
      TokenStaysOnDevice(c, Act(c, w, acts[0]), acts[1..], g, uuid, t);
    }
  }

  lemma HolderKept(c: Config, w: World, a: Action, g: nat, uuid: Id, t: string)
    requires Inv(c, w) && Enabled(c, w, a) && LiveAt(w, g)
    requires t in w.minted && HeldOnlyBy(DbAt(w, g), uuid, t)
    ensures LiveAt(Act(c, w, a), g) && HeldOnlyBy(DbAt(Act(c, w, a), g), uuid, t) && t in Act(c, w, a).minted
  {
    OneAction(c, w, a, g);
    if StepsOn(w, a, g) {
      StepKeepsHolder(c, DbAt(w, g), w.flights[a.k].pc, a.rnd, uuid, t);
    } else if a == Migrate(g) {
      assert GenOk(c, w.issued, w.minted, w.gens[g]);
      LaterMigrationKeeps(c, w.issued, DbAt(w, g));
    }
  }

  /** No data request with this token is authenticated and no re-sign with it finds a device. */
  ghost predicate Refused(c: Config, db: Db, token: string) {
    && (forall ip, op, rnd :: ReadStart(c, db, Data(Some(token), ip, op), rnd).Failure?)
    && (forall ip, text, ehlo, rnd | Spells(c, text, token) ::
          ReadStart(c, db, Resign(ip, text, ehlo), rnd) == Failure(Unauthorized))
  }

  predicate Spells(c: Config, text: string, token: string) {
    Hex.Decode(text).Some? && c.suite.utf8(Hex.Decode(text).value) == Some(token)
  }

  lemma NotLiveIsRefused(c: Config, db: Db, token: string)
    requires c.suite.hash(token) !in LiveTokens(db)
    ensures Refused(c, db, token)
  {
    assert FindByToken(db, c.suite.hash(token)).None?;
    forall ip, op, rnd ensures ReadStart(c, db, Data(Some(token), ip, op), rnd).Failure? {
    }
    forall ip, text, ehlo, rnd | Spells(c, text, token)
      ensures ReadStart(c, db, Resign(ip, text, ehlo), rnd) == Failure(Unauthorized)
    {
    }
  }

  lemma RetiredIsRefused(c: Config, w: World, g: nat, token: string)
    requires Inv(c, w) && Retired(w, g, c.suite.hash(token))
    ensures Refused(c, DbAt(w, g), token)
  {
    assert GenOk(c, w.issued, w.minted, w.gens[g]);
    NotLiveIsRefused(c, DbAt(w, g), token);
  }

  /** A token that was in the table and has left it, by refresh, relink, delete or migration: no
      request that starts afterwards on that database is authenticated by it or finds a device to
      re-sign with it. A request that looked the token up before it left goes on. */
  lemma LeftTokenIsDead(c: Config, w: World, before: seq<Action>, after: seq<Action>, g: nat, token: string)
    requires ValidConfig(c) && Inv(c, w) && RunOk(c, w, before) && RunOk(c, Run(c, w, before), after)
    requires LiveAt(w, g) && c.suite.hash(token) in LiveTokens(DbAt(w, g))
    requires LiveAt(Run(c, w, before), g) && c.suite.hash(token) !in LiveTokens(DbAt(Run(c, w, before), g))
    ensures LiveAt(Run(c, Run(c, w, before), after), g)
    ensures Refused(c, DbAt(Run(c, Run(c, w, before), after), g), token)
  {
    var mid := Run(c, w, before);
    TokensLeaveForGood(c, w, before, g, c.suite.hash(token));
    TokensLeaveForGood(c, mid, after, g, c.suite.hash(token));
    RunKeepsInv(c, w, before);
    RunKeepsInv(c, mid, after);
    RetiredIsRefused(c, Run(c, mid, after), g, token);
  }

  /** Every import of the run brings back a file that an export of this server handed out. */
  ghost predicate OwnImports(c: Config, w: World, acts: seq<Action>)
    requires RunOk(c, w, acts)
    decreases |acts|
  {
    acts != [] ==>
      && (acts[0].Import? ==> acts[0].archive.content in w.exports)
      && OwnImports(c, Act(c, w, acts[0]), acts[1..])
  }

  /** The tokens drawn by steps that mint one. */
  ghost function Drawn(c: Config, w: World, acts: seq<Action>): set<string>
    requires RunOk(c, w, acts)
    decreases |acts|
  {
    if acts == [] then {}
    else
      (if acts[0].Exec? && Mints(w.flights[acts[0].k].pc) then {c.suite.hash(acts[0].rnd.token)} else {})
      + Drawn(c, Act(c, w, acts[0]), acts[1..])
  }

  lemma ActionMints(c: Config, w: World, a: Action)
    requires ValidConfig(c) && Inv(c, w) && Enabled(c, w, a)
    requires a.Import? ==> a.archive.content in w.exports
    ensures Act(c, w, a).minted <= w.minted +
            (if a.Exec? && Mints(w.flights[a.k].pc) then {c.suite.hash(a.rnd.token)} else {})
  {
    if a.Exec? {
      var g := w.flights[a.k].gen.value;
      assert GenOk(c, w.issued, w.minted, w.gens[g]);
      if LiveAt(w, g) {
        OnlyLinkAndRefreshMint(c, DbAt(w, g), w.flights[a.k].pc, a.rnd);
      }
    } else if a.Import? {
      assert ExportOk(c, w.issued, w.minted, a.archive.content);
    }
  }

  lemma {:induction false} MintedAreDrawn(c: Config, w: World, acts: seq<Action>)
    requires ValidConfig(c) && Inv(c, w) && RunOk(c, w, acts) && OwnImports(c, w, acts)
    ensures Run(c, w, acts).minted <= w.minted + Drawn(c, w, acts)
    decreases |acts|
  {
    if acts != [] {
      ActionMints(c, w, acts[0]);
      ActionKeepsInv(c, w, acts[0]);
      MintedAreDrawn(c, Act(c, w, acts[0]), acts[1..]);
    }
  }

  /** While only own exports are imported, every token in any table of any generation was known at
      the start or was drawn by a sign-up, sign-in or refresh of the run. */
  lemma EveryTokenWasIssued(c: Config, w: World, acts: seq<Action>, g: nat)
    requires ValidConfig(c) && Inv(c, w) && RunOk(c, w, acts) && OwnImports(c, w, acts)
    requires LiveAt(Run(c, w, acts), g)
    ensures LiveTokens(DbAt(Run(c, w, acts), g)) <= w.minted + Drawn(c, w, acts)
  {
    var last := Run(c, w, acts);
    MintedAreDrawn(c, w, acts);
    RunKeepsInv(c, w, acts);
    assert GenOk(c, last.issued, last.minted, last.gens[g]);
  }

  // ----- export and import -----

  lemma {:induction false} ExportsStay(c: Config, w: World, acts: seq<Action>)
    requires RunOk(c, w, acts)
    ensures w.exports <= Run(c, w, acts).exports
    decreases |acts|
  {
    if acts != [] {
      ExportsStay(c, Act(c, w, acts[0]), acts[1..]);
    }
  }

  /** A file exported now is the current database as it is now; imported at any later point of any run,
      it is accepted and becomes the current database again, exactly as it was. */
  lemma ExportIsBackup(c: Config, w: World, acts: seq<Action>)
    requires ValidConfig(c) && Inv(c, w) && RunOk(c, Act(c, w, Export), acts)
    ensures var content := w.gens[Current(w)].content;
            var later := Run(c, Act(c, w, Export), acts);
            var back := Import(Archive(content, PrintEnv(c)));
            && content in later.exports && Enabled(c, later, back)
            && var w' := Act(c, later, back);
               w'.gens == later.gens + [Arrived(content)] && w'.gens[Current(w')].content == content
  {
    var content := w.gens[Current(w)].content;
    ActionKeepsInv(c, w, Export);
    RunKeepsInv(c, Act(c, w, Export), acts);
    ExportsStay(c, Act(c, w, Export), acts);
    assert GenOk(c, w.issued, w.minted, w.gens[Current(w)]);
    ImportsBack(c, Run(c, Act(c, w, Export), acts), content);
  }

  lemma ImportsBack(c: Config, w: World, content: Content)
    requires ValidConfig(c) && Inv(c, w) && ContentOk(c, content)
    ensures var back := Import(Archive(content, PrintEnv(c)));
            && Enabled(c, w, back)
            && var w' := Act(c, w, back);
               w'.gens == w.gens + [Arrived(content)] && w'.gens[Current(w')].content == content
  {
    ExportIsGenuine(c, content);
  }

  /** A request that passes authentication gives its connection back, and asks the pool for another
      before it is served; in every other step it keeps the one it has. */
  lemma AuthenticatedReconnects(c: Config, w: World, k: nat, rnd: Inputs)
    requires Enabled(c, w, Exec(k, rnd)) && LiveAt(w, w.flights[k].gen.value)
    ensures var f := Act(c, w, Exec(k, rnd)).flights[k];
            if w.flights[k].pc.AuthUser? && !f.pc.Done?
            then f.gen == None && f.pc == Authed(w.flights[k].pc.row, w.flights[k].pc.op)
            else f.gen == w.flights[k].gen
  {
    OnlyAuthenticationReconnects(c, DbAt(w, w.flights[k].gen.value), w.flights[k].pc, rnd);
  }

  lemma OnlyAuthenticationReconnects(c: Config, db: Db, pc: Pc, rnd: Inputs)
    requires !pc.Done? && |rnd.private| == KEY_LEN
    ensures var next := Next(c, db, pc, rnd).1;
            if pc.AuthUser? && !next.Done? then next == Authed(pc.row, pc.op) else !next.Authed?
  {
    if Reads(pc) {
      if Read(c, db, pc, rnd).Success? {
        ReadsToAuthed(c, db, pc, rnd);
      }
    }
  }

  lemma ReadsToAuthed(c: Config, db: Db, pc: Pc, rnd: Inputs)
    requires Reads(pc) && Read(c, db, pc, rnd).Success?
    ensures var next := Read(c, db, pc, rnd).value;
            if pc.AuthUser? && !next.Done? then next == Authed(pc.row, pc.op) else !next.Authed?
  {
    if pc.CheckTarget? {
      assert Read(c, db, pc, rnd) == ReadTarget(c, db, pc.row, pc.op, rnd);
    } else if pc.ListPasswords? || pc.ReadGroup? {
      assert Read(c, db, pc, rnd) == ReadReply(c, db, pc, rnd);
    }
  }

  // ----- generations -----

  lemma {:induction false} GenerationsGrow(c: Config, w: World, acts: seq<Action>)
    requires RunOk(c, w, acts) && w.gens != []
    ensures |Run(c, w, acts).gens| >= |w.gens|
    decreases |acts|
  {
    if acts != [] {
      GenerationsGrow(c, Act(c, w, acts[0]), acts[1..]);
    }
  }

  /** A connection held at the end of a run was held at its start, or belongs to a generation at
      least as new as the newest one at the start: no request goes back to an older database, and
      after an import every new connection belongs to the imported database or a later one. */
  lemma {:induction false} ConnectionsNeverGoBack(c: Config, w: World, acts: seq<Action>, k: nat)
    requires RunOk(c, w, acts) && w.gens != []
    requires k in Run(c, w, acts).flights && Run(c, w, acts).flights[k].gen.Some?
    ensures var g := Run(c, w, acts).flights[k].gen;
            (k in w.flights && w.flights[k].gen == g) || g.value >= |w.gens| - 1
    decreases |acts|
  {
    if acts != [] {
      ConnectionsNeverGoBack(c, Act(c, w, acts[0]), acts[1..], k);
    }
  }

  predicate NoImport(acts: seq<Action>) {
    acts == [] || (!acts[0].Import? && NoImport(acts[1..]))
  }

  /** The current database stays the same over a run if and only if the run imports nothing. So a data
      request that authenticated on the current database is served by the same one, unless an import
      comes between its two connections. */
  lemma {:induction false} CurrentStaysExactly(c: Config, w: World, acts: seq<Action>)
    requires RunOk(c, w, acts) && w.gens != []
    ensures Run(c, w, acts).gens != []
    ensures Current(Run(c, w, acts)) == Current(w) <==> NoImport(acts)
    decreases |acts|
  {
    if acts != [] {
      OnlyImportsAdd(c, w, acts[0]);
      GenerationsGrow(c, Act(c, w, acts[0]), acts[1..]);
      CurrentStaysExactly(c, Act(c, w, acts[0]), acts[1..]);
    }
  }

  lemma OnlyImportsAdd(c: Config, w: World, a: Action)
    requires Enabled(c, w, a)
    ensures |Act(c, w, a).gens| == |w.gens| + if a.Import? then 1 else 0
  {
  }

  /** The failing run: an import comes between the two connections, and the request is served by a
      database in which its device is not there or not confirmed. */
  lemma ServedByAnother(c: Config, w: World, k: nat, a: Archive, rnd: Inputs)
    requires Enabled(c, w, Import(a)) && a.content.Live? && |rnd.private| == KEY_LEN
    requires k in w.flights && w.flights[k].gen.None? && w.flights[k].pc.Authed?
    requires var row := w.flights[k].pc.row;
             && row.userId.Some? && w.flights[k].pc.op.GroupList?
             && !(row.uuid in a.content.db.identities && a.content.db.identities[row.uuid].confirmed)
    ensures var w1, pc := Act(c, w, Import(a)), w.flights[k].pc;
            && Enabled(c, w1, Connect(k))
            && Act(c, w1, Connect(k)).flights[k] == Flight(Some(|w.gens|), pc)
            && Act(c, w1, Connect(k)).gens == w.gens + [Arrived(a.content)]
            && Next(c, a.content.db, pc, rnd).1 == Done(Groups(GroupsOf(a.content.db, pc.row.userId.value)))
  {
    ConnectsToImported(c, w, k, a);
    ListsGroups(c, a.content.db, w.flights[k].pc, rnd);
  }

  lemma ConnectsToImported(c: Config, w: World, k: nat, a: Archive)
    requires Enabled(c, w, Import(a)) && k in w.flights && w.flights[k].gen.None?
    ensures var w1 := Act(c, w, Import(a));
            && Enabled(c, w1, Connect(k))
            && Act(c, w1, Connect(k)).flights[k] == Flight(Some(|w.gens|), w.flights[k].pc)
            && Act(c, w1, Connect(k)).gens == w.gens + [Arrived(a.content)]
  {
  }

  lemma ListsGroups(c: Config, db: Db, pc: Pc, rnd: Inputs)
    requires pc.Authed? && pc.op.GroupList? && pc.row.userId.Some? && |rnd.private| == KEY_LEN
    ensures Next(c, db, pc, rnd) == (db, Done(Groups(GroupsOf(db, pc.row.userId.value))))
  {
  }

  /** A replaced database that is migrated and that no request is connected to any more never changes again. */
  lemma {:induction false} OldGenerationFrozen(c: Config, w: World, acts: seq<Action>, g: nat)
    requires RunOk(c, w, acts) && LiveAt(w, g) && g < |w.gens| - 1 && DbAt(w, g).stage.Runtime?
    requires forall k | k in w.flights :: w.flights[k].gen != Some(g)
    ensures LiveAt(Run(c, w, acts), g) && Run(c, w, acts).gens[g] == w.gens[g]
    decreases |acts|
  {
    if acts != [] {
      OneAction(c, w, acts[0], g);
      var w' := Act(c, w, acts[0]);
      forall k | k in w'.flights ensures w'.flights[k].gen != Some(g) {
        if k in w.flights {
          assert w.flights[k].gen != Some(g);
        }
      }
      OldGenerationFrozen(c, w', acts[1..], g);
    }
  }

  // ----- data -----

  /** Over every run the rows of one generation evolve: device keys are fixed for the identity's
      whole life, groups are fixed, and no password is lost or changes owner. */
  ghost predicate Lasting(db: Db, db': Db) {
    && GroupsEvolve(db.groups, db'.groups)
    && PasswordsEvolve(db, db')
    && UsersEvolve(db.users, db'.users)
    && StageEvolves(db.stage, db'.stage)
    && (forall i | i in db.identities && i in db'.identities :: SameKeys(db.identities[i], db'.identities[i]))
  }

  ghost predicate NotReused(issued: set<Id>, db: Db, db': Db) {
    forall i | i in db'.identities && i !in db.identities :: i !in issued
  }

  lemma LastingTwice(issued: set<Id>, a: Db, b: Db, d: Db)
    requires Lasting(a, b) && NotReused(issued, a, b) && Lasting(b, d) && NotReused(issued + Ids(b), b, d)
    requires Ids(a) <= issued
    ensures Lasting(a, d) && NotReused(issued, a, d)
  {
    forall i | i in a.identities && i in d.identities ensures SameKeys(a.identities[i], d.identities[i]) {
      assert i in b.identities;
    }
    forall p | p in a.passwords
      ensures p in d.passwords && Owner(d, p) == Owner(a, p)
      ensures d.passwords[p].createdAt == a.passwords[p].createdAt && d.passwords[p].days == a.passwords[p].days
    {
      assert p in b.passwords;
    }
  }

  lemma NotReusedMore(issued: set<Id>, more: set<Id>, db: Db, db': Db)
    requires issued <= more && NotReused(more, db, db')
    ensures NotReused(issued, db, db')
  {
  }

  lemma ActionLasts(c: Config, w: World, a: Action, g: nat)
    requires ValidConfig(c) && Inv(c, w) && Enabled(c, w, a) && LiveAt(w, g)
    ensures LiveAt(Act(c, w, a), g) && Ids(DbAt(w, g)) <= w.issued
    ensures w.issued + Ids(DbAt(Act(c, w, a), g)) <= Act(c, w, a).issued
    ensures Lasting(DbAt(w, g), DbAt(Act(c, w, a), g)) && NotReused(w.issued, DbAt(w, g), DbAt(Act(c, w, a), g))
  {
    OneAction(c, w, a, g);
    IssuedGrows(c, w, a);
    assert GenOk(c, w.issued, w.minted, w.gens[g]);
    if StepsOn(w, a, g) {
      StepFacts(c, w, a.k, a.rnd, g);
      EvolvesLasts(w.issued, DbAt(w, g), DbAt(Act(c, w, a), g));
    } else if a == Migrate(g) {
      MigrationFacts(c, w, g);
      EvolvesLasts(w.issued, DbAt(w, g), DbAt(Act(c, w, a), g));
    } else {
      EvolvesReflexive(w.issued, DbAt(w, g));
      EvolvesLasts(w.issued, DbAt(w, g), DbAt(w, g));
    }
  }

  lemma EvolvesLasts(issued: set<Id>, db: Db, db': Db)
    requires Evolves(issued, db, db')
    ensures Lasting(db, db') && NotReused(issued, db, db')
  {
  }

  lemma {:induction false} DataLasts(c: Config, w: World, acts: seq<Action>, g: nat)
    requires ValidConfig(c) && Inv(c, w) && RunOk(c, w, acts) && LiveAt(w, g)
    ensures LiveAt(Run(c, w, acts), g)
    ensures Lasting(DbAt(w, g), DbAt(Run(c, w, acts), g))
    ensures NotReused(w.issued, DbAt(w, g), DbAt(Run(c, w, acts), g))
    decreases |acts|
  {
    if acts != [] {
      var w' := Act(c, w, acts[0]);
      ActionLasts(c, w, acts[0], g);
      assert Inv(c, w') by {
        ActionKeepsInv(c, w, acts[0]);
      }
      DataLasts(c, w', acts[1..], g);
      var last := DbAt(Run(c, w', acts[1..]), g);
      LastsOn(w.issued, w'.issued, DbAt(w, g), DbAt(w', g), last);
    }
  }

  lemma LastsOn(issued: set<Id>, issued': set<Id>, a: Db, b: Db, d: Db)
    requires Lasting(a, b) && NotReused(issued, a, b) && Lasting(b, d) && NotReused(issued', b, d)
    requires Ids(a) <= issued && issued + Ids(b) <= issued'
    ensures Lasting(a, d) && NotReused(issued, a, d)
  {
    NotReusedMore(issued + Ids(b), issued', b, d);
    LastingTwice(issued, a, b, d);
  }

  lemma IssuedGrows(c: Config, w: World, a: Action)
    requires Enabled(c, w, a)
    ensures w.issued <= Act(c, w, a).issued
    ensures a.Exec? && LiveAt(w, w.flights[a.k].gen.value) ==>
            w.issued + Ids(DbAt(Act(c, w, a), w.flights[a.k].gen.value)) <= Act(c, w, a).issued
  {
  }

  // ----- refinement of the plaintext vault -----

  ghost function ApplyAll(v: Vault, moves: seq<Move>): Option<Vault>
    decreases |moves|
  {
    if moves == [] then Some(v)
    else
      var v' := Apply(v, moves[0]);
      if v'.None? then None else ApplyAll(v'.value, moves[1..])
  }

  /** The moves the steps of a run make on the vault of one generation, in order. */
  ghost function Moves(c: Config, w: World, acts: seq<Action>, g: nat): seq<Move>
    requires RunOk(c, w, acts) && LiveAt(w, g)
    decreases |acts|
  {
    if acts == [] then []
    else
      OneAction(c, w, acts[0], g);
      (if StepsOn(w, acts[0], g) then [MoveOf(c, DbAt(w, g), w.flights[acts[0].k].pc, acts[0].rnd)] else [])
      + Moves(c, Act(c, w, acts[0]), acts[1..], g)
  }

  /** Every run of the encrypted server is a run of the plaintext vault: the moves made by the
      interleaved statements are all allowed to the users they were authenticated for, and they
      lead from the decrypted store at the start to the decrypted store at the end. */
  lemma {:induction false} RunRefinesVault(c: Config, w: World, acts: seq<Action>, g: nat)
    requires ValidConfig(c) && Inv(c, w) && RunOk(c, w, acts) && LiveAt(w, g)
    ensures LiveAt(Run(c, w, acts), g)
    ensures ApplyAll(VaultOf(c, DbAt(w, g)), Moves(c, w, acts, g)) == Some(VaultOf(c, DbAt(Run(c, w, acts), g)))
    decreases |acts|
  {
    if acts != [] {
      var a, w' := acts[0], Act(c, w, acts[0]);
      OneAction(c, w, a, g);
      ActionKeepsInv(c, w, a);
      RunRefinesVault(c, w', acts[1..], g);
      if StepsOn(w, a, g) {
        StepFacts(c, w, a.k, a.rnd, g);
        StepRefinesVault(c, w.issued, DbAt(w, g), w.flights[a.k].pc, a.rnd);
        var move := MoveOf(c, DbAt(w, g), w.flights[a.k].pc, a.rnd);
        assert Moves(c, w, acts, g) == [move] + Moves(c, w', acts[1..], g);
        assert ([move] + Moves(c, w', acts[1..], g))[1..] == Moves(c, w', acts[1..], g);
      } else {
        if a == Migrate(g) {
          MigrationFacts(c, w, g);
        }
        assert Moves(c, w, acts, g) == Moves(c, w', acts[1..], g);
      }
    }
  }

  /** The text of an item after one move. */
  function TextAfter(move: Move, pid: Id, text: Option<Hex.Bytes>): Option<Hex.Bytes> {
    if move.AddItem? && move.pid == pid then Some(move.item.text)
    else if move.SetItem? && move.pid == pid then Some(move.text)
    else text
  }

  /** The text last sent for an item, if any was. */
  function LastSent(moves: seq<Move>, pid: Id, text: Option<Hex.Bytes>): Option<Hex.Bytes>
    decreases |moves|
  {
    if moves == [] then text else LastSent(moves[1..], pid, TextAfter(moves[0], pid, text))
  }

  function TextOf(v: Vault, pid: Id): Option<Hex.Bytes> {
    if pid in v.items then Some(v.items[pid].text) else None
  }

  lemma {:induction false} LastWriteWins(v: Vault, moves: seq<Move>, pid: Id)
    requires ApplyAll(v, moves).Some?
    ensures TextOf(ApplyAll(v, moves).value, pid) == LastSent(moves, pid, TextOf(v, pid))
    decreases |moves|
  {
    if moves != [] {
      var v' := Apply(v, moves[0]).value;
      assert TextOf(v', pid) == TextAfter(moves[0], pid, TextOf(v, pid));
      LastWriteWins(v', moves[1..], pid);
    }
  }

  /** The reply shows the item and the group that the vault holds. */
  ghost predicate ShowsVault(
    c: Config, db: Db, row: Identity, private: Hex.Bytes, next: Result<Pc, AppError>, pid: Id, now: int
  ) {
    && pid in VaultOf(c, db).items && VaultOf(c, db).items[pid].gid in db.groups
    && var item := VaultOf(c, db).items[pid];
       Shows(c, row, private, next, pid, item, db.groups[item.gid], now)
  }

  /** After any interleaved run, a device of the owner that reads a password gets, under its own key,
      the text last sent for it by any device in the run, or else the text it had before; the read of
      the group may come later still. */
  lemma OwnerReadsLastSent(
    c: Config, w: World, acts: seq<Action>, g: nat, row: Identity, private: Hex.Bytes, pid: Id,
    later: Db, rnd1: Inputs, rnd2: Inputs
  )
    requires ValidConfig(c) && Inv(c, w) && RunOk(c, w, acts) && LiveAt(w, g)
    requires Bearer(c, row) && Holds(c, row, private) && ValidInputs(rnd2)
    requires LiveAt(Run(c, w, acts), g) && Evolves(Run(c, w, acts).issued, DbAt(Run(c, w, acts), g), later)
    requires DbAt(Run(c, w, acts), g).stage.Runtime?
    requires Owner(DbAt(Run(c, w, acts), g), pid) == row.userId
    ensures var db := DbAt(Run(c, w, acts), g);
            var first := ReadAuthed(c, db, row, PwdGet(pid), rnd1);
            && first.Success? && first.value.ReadGroup?
            && ShowsVault(c, db, row, private, Read(c, later, first.value, rnd2), pid, rnd2.now)
            && LastSent(Moves(c, w, acts, g), pid, TextOf(VaultOf(c, DbAt(w, g)), pid))
               == Some(VaultOf(c, db).items[pid].text)
  {
    var last := Run(c, w, acts);
    RunKeepsInv(c, w, acts);
    assert GenOk(c, last.issued, last.minted, last.gens[g]);
    GetReturnsVaultItem(c, last.issued, DbAt(last, g), later, row, private, pid, rnd1, rnd2);
    RunRefinesVault(c, w, acts, g);
    LastWriteWins(VaultOf(c, DbAt(w, g)), Moves(c, w, acts, g), pid);
  }

  // ----- the window length stays in range -----

  ghost predicate DaysInRange(v: Vault) {
    forall p | p in v.items :: 1 <= v.items[p].days <= 365
  }

  lemma {:induction false} MovesKeepRange(v: Vault, moves: seq<Move>)
    requires DaysInRange(v) && ApplyAll(v, moves).Some?
    ensures DaysInRange(ApplyAll(v, moves).value)
    decreases |moves|
  {
    if moves != [] {
      MovesKeepRange(Apply(v, moves[0]).value, moves[1..]);
    }
  }

  /** From a database with windows of 1 to 365 days, no run leaves that range. */
  lemma RunKeepsRange(c: Config, w: World, acts: seq<Action>, g: nat)
    requires ValidConfig(c) && Inv(c, w) && RunOk(c, w, acts) && LiveAt(w, g)
    requires DaysInRange(VaultOf(c, DbAt(w, g)))
    ensures LiveAt(Run(c, w, acts), g)
    ensures forall p | p in DbAt(Run(c, w, acts), g).passwords ::
              1 <= DbAt(Run(c, w, acts), g).passwords[p].days <= 365
  {
    RunRefinesVault(c, w, acts, g);
    MovesKeepRange(VaultOf(c, DbAt(w, g)), Moves(c, w, acts, g));
    var db := DbAt(Run(c, w, acts), g);
    forall p | p in db.passwords ensures 1 <= db.passwords[p].days <= 365 {
      assert VaultOf(c, db).items[p].days == db.passwords[p].days;
    }
  }
}
