/** The running server: database generations behind the pool lock, and any number of requests in
    flight, interleaved statement by statement. */
module World {
  import opened Wrappers
  import opened Hex
  import opened Crypto
  import opened Schema
  import opened Protocol
  import opened Guarantee
  import opened Effects
  import opened ArchiveEnv
  import opened Migrations

  /** A database file: in the first schema, or in one of the stages that the migrations take it
      through, of which the last is the runtime schema. */
  datatype Content = Pending(first: Db1) | Live(db: Db)

  /** What an admin's confirm last saw of a device. */
  datatype Approval = Approval(user: Option<Id>, ip: Ip)

  /** History of one generation: the latest approval of each device, and the tokens that left. */
  datatype History = History(approved: map<Id, Approval>, retired: set<string>)

  datatype Generation = Generation(content: Content, history: History)

  /** A request with the generation its connection belongs to, if it holds one. */
  datatype Flight = Flight(gen: Option<nat>, pc: Pc)

  /** `issued` are all uuids and `minted` all token hashes ever seen in a table; `exports` are the
      files handed out by export. */
  datatype World = World(
    gens: seq<Generation>,
    flights: map<nat, Flight>,
    issued: set<Id>,
    minted: set<string>,
    exports: set<Content>
  )

  datatype Archive = Archive(content: Content, env: string)

  datatype Action =
    | Arrive(k: nat, req: Request)
    | Connect(k: nat)
    | Exec(k: nat, rnd: Inputs)
    | Leave(k: nat)
    | Export
    | Import(archive: Archive)
    | Migrate(g: nat)

  function Current(w: World): nat
    requires w.gens != []
  {
    |w.gens| - 1
  }

  ghost function ContentIds(content: Content): set<Id> {
    match content
    case Live(db) => Ids(db)
    case Pending(first) =>
      (set i | 0 <= i < |first.identities| :: first.identities[i].uuid) + first.groups.Keys + first.passwords.Keys
  }

  ghost function ContentTokens(content: Content): set<string> {
    match content
    case Live(db) => LiveTokens(db)
    case Pending(first) =>
      set i | 0 <= i < |first.identities| && first.identities[i].token.Some? :: first.identities[i].token.value
  }

  ghost predicate ContentOk(c: Config, content: Content) {
    match content
    case Live(db) => StoreOk(c, db)
    case Pending(first) => Consistent1(first) && Sealed1(c, first)
  }

  /** What the archive holds is sealed under the secrets its `.env` names. */
  ghost predicate Genuine(c: Config, a: Archive) {
    forall secret, software | |secret| == KEY_LEN && |software| == KEY_LEN && Names(a.env, secret, software) ::
      ContentOk(Config(c.suite, secret, software), a.content)
  }

  /** Confirmed devices of a database that arrives as a whole count as approved as they stand. */
  ghost function ApprovedNow(db: Db): map<Id, Approval> {
    map i | i in db.identities && db.identities[i].confirmed ::
      Approval(db.identities[i].userId, db.identities[i].ip)
  }

  ghost function Arrived(content: Content): Generation {
    Generation(content, History(if content.Live? then ApprovedNow(content.db) else map[], {}))
  }

  predicate AtRuntime(content: Content) {
    content.Live? && content.db.stage.Runtime?
  }

  /** The next pending migration. Each is committed on its own, so requests run before, between and
      after them. */
  function NextStage(content: Content): Db
    requires !AtRuntime(content)
  {
    match content
    case Pending(first) => AfterUsers(first)
    case Live(db) => if db.stage.Unindexed? then Collapse(db) else AddWindows(db)
  }

  /** Tokens of the rows that a migration deletes are retired with them. */
  ghost function Migrated(gen: Generation): Generation
    requires !AtRuntime(gen.content)
  {
    var db' := NextStage(gen.content);
    if gen.content.Pending? then Arrived(Live(db'))
    else
      var lost := LiveTokens(gen.content.db) - LiveTokens(db');
      Generation(Live(db'), gen.history.(retired := gen.history.retired + lost))
  }

  ghost function Recorded(h: History, pc: Pc, db: Db, db': Db): History {
    History(
      if pc.ConfirmWrite? && pc.flag && pc.uuid in db'.identities
      then h.approved[pc.uuid := Approval(db'.identities[pc.uuid].userId, db'.identities[pc.uuid].ip)]
      else h.approved,
      h.retired + (LiveTokens(db) - LiveTokens(db'))
    )
  }

  ghost function Stepped(h: History, pc: Pc, db: Db, db': Db): Generation {
    Generation(Live(db'), Recorded(h, pc, db, db'))
  }

  /** What a step may draw is fresh. */
  ghost predicate FreshInputs(c: Config, issued: set<Id>, minted: set<string>, rnd: Inputs) {
    ValidInputs(rnd) && rnd.id !in issued && c.suite.hash(rnd.token) !in minted
  }

  ghost predicate Enabled(c: Config, w: World, a: Action) {
    && w.gens != []
    && match a
       case Arrive(k, _) => k !in w.flights
       case Connect(k) => k in w.flights && w.flights[k].gen.None?
       case Exec(k, rnd) =>
         && k in w.flights && w.flights[k].gen.Some? && w.flights[k].gen.value < |w.gens|
         && !w.flights[k].pc.Done? && FreshInputs(c, w.issued, w.minted, rnd)
       case Leave(k) => k in w.flights
       case Export => true
       case Import(archive) => CheckSecrets(c, archive.env).Success? && Genuine(c, archive)
       case Migrate(g) => g < |w.gens| && !AtRuntime(w.gens[g].content)
  }

  /** After authentication the handler asks the pool for a second connection. */
  function AfterStep(gen: nat, pc: Pc): Flight {
    Flight(if pc.Authed? then None else Some(gen), pc)
  }

  ghost function ExecStep(c: Config, w: World, k: nat, rnd: Inputs): World
    requires Enabled(c, w, Exec(k, rnd))
  {
    var g := w.flights[k].gen.value;
    var pc := w.flights[k].pc;
    match w.gens[g].content
    case Pending(_) =>
      w.(flights := w.flights[k := Flight(Some(g), Done(Failed(Database(SchemaMismatch))))])
    case Live(db) =>
      var (db', pc') := Next(c, db, pc, rnd);
      w.(
        gens := w.gens[g := Stepped(w.gens[g].history, pc, db, db')],
        flights := w.flights[k := AfterStep(g, pc')],
        issued := w.issued + Ids(db'),
        minted := w.minted + LiveTokens(db')
      )
  }

  ghost function Act(c: Config, w: World, a: Action): World
    requires Enabled(c, w, a)
  {
    match a
    case Arrive(k, req) => w.(flights := w.flights[k := Flight(None, Start(req))])
    case Connect(k) => w.(flights := w.flights[k := Flight(Some(Current(w)), w.flights[k].pc)])
    case Exec(k, rnd) => ExecStep(c, w, k, rnd)
    case Leave(k) => w.(flights := w.flights - {k})
    case Export => w.(exports := w.exports + {w.gens[Current(w)].content})
    case Import(archive) =>
      w.(
        gens := w.gens + [Arrived(archive.content)],
        issued := w.issued + ContentIds(archive.content),
        minted := w.minted + ContentTokens(archive.content)
      )
    case Migrate(g) =>
      w.(gens := w.gens[g := Migrated(w.gens[g])])
  }

  ghost predicate RunOk(c: Config, w: World, acts: seq<Action>)
    decreases |acts|
  {
    acts == [] || (Enabled(c, w, acts[0]) && RunOk(c, Act(c, w, acts[0]), acts[1..]))
  }

  ghost function Run(c: Config, w: World, acts: seq<Action>): World
    requires RunOk(c, w, acts)
    decreases |acts|
  {
    if acts == [] then w else Run(c, Act(c, w, acts[0]), acts[1..])
  }

  const INITIAL := World([Generation(Live(EMPTY), History(map[], {}))], map[], {}, {}, {})

  // ----- the invariant -----

  ghost predicate HistoryOk(db: Db, h: History) {
    && (forall i | i in db.identities && db.identities[i].confirmed ::
          i in h.approved && h.approved[i] == Approval(db.identities[i].userId, db.identities[i].ip))
    && h.retired !! LiveTokens(db)
  }

  ghost predicate GenOk(c: Config, issued: set<Id>, minted: set<string>, gen: Generation) {
    && ContentOk(c, gen.content)
    && ContentIds(gen.content) <= issued
    && ContentTokens(gen.content) <= minted
    && gen.history.retired <= minted
    && (gen.content.Live? ==> HistoryOk(gen.content.db, gen.history))
  }

  /** What a request knows whatever database it is connected to next. */
  ghost predicate Unbound(c: Config, pc: Pc) {
    pc.Start? || pc.Done? || (pc.Authed? && Bearer(c, pc.row))
  }

  ghost predicate FlightOk(c: Config, issued: set<Id>, gens: seq<Generation>, f: Flight) {
    match f.gen
    case None => Unbound(c, f.pc)
    case Some(g) =>
      g < |gens|
      && if gens[g].content.Live? then PcOk(c, issued, gens[g].content.db, f.pc) else Unbound(c, f.pc)
  }

  ghost predicate ExportOk(c: Config, issued: set<Id>, minted: set<string>, content: Content) {
    ContentOk(c, content) && ContentIds(content) <= issued && ContentTokens(content) <= minted
  }

  ghost predicate GensOk(c: Config, issued: set<Id>, minted: set<string>, gens: seq<Generation>) {
    forall g | 0 <= g < |gens| :: GenOk(c, issued, minted, gens[g])
  }

  ghost predicate FlightsOk(c: Config, issued: set<Id>, gens: seq<Generation>, flights: map<nat, Flight>) {
    forall k | k in flights :: FlightOk(c, issued, gens, flights[k])
  }

  ghost predicate ExportsOk(c: Config, issued: set<Id>, minted: set<string>, exports: set<Content>) {
    forall e | e in exports :: ExportOk(c, issued, minted, e)
  }

  ghost predicate Inv(c: Config, w: World) {
    && w.gens != []
    && GensOk(c, w.issued, w.minted, w.gens)
    && FlightsOk(c, w.issued, w.gens, w.flights)
    && ExportsOk(c, w.issued, w.minted, w.exports)
  }

  lemma InitialInv(c: Config)
    ensures Inv(c, INITIAL)
  {
    EmptyDbInv(c);
  }

  lemma UnboundFits(c: Config, issued: set<Id>, db: Db, pc: Pc)
    requires Unbound(c, pc)
    ensures PcOk(c, issued, db, pc)
  {
  }

  /** A step of one request leaves the knowledge of every other request standing. */
  lemma OthersUndisturbed(
    c: Config, issued: set<Id>, issued': set<Id>, gens: seq<Generation>, g: nat, after: Generation, f: Flight
  )
    requires FlightOk(c, issued, gens, f) && issued <= issued'
    requires g < |gens| && gens[g].content.Live? && after.content.Live?
    requires Evolves(issued, gens[g].content.db, after.content.db)
    ensures FlightOk(c, issued', gens[g := after], f)
  {
    if f.gen.Some? && gens[f.gen.value].content.Live? {
      var db := gens[f.gen.value].content.db;
      EvolvesReflexive(issued, db);
      KnowledgeIsStable(c, issued, issued', db, gens[g := after][f.gen.value].content.db, f.pc);
    }
  }

  lemma HistoryKept(c: Config, issued: set<Id>, minted: set<string>, h: History, db: Db, pc: Pc, rnd: Inputs)
    requires Stored(db) && !pc.Done? && FreshInputs(c, issued, minted, rnd)
    requires HistoryOk(db, h) && h.retired <= minted && LiveTokens(db) <= minted
    ensures var db' := Next(c, db, pc, rnd).0;
            HistoryOk(db', Recorded(h, pc, db, db')) && Recorded(h, pc, db, db').retired <= minted
  {
    OnlyConfirmApproves(c, db, pc, rnd);
    OnlyLinkAndRefreshMint(c, db, pc, rnd);
  }

  lemma SteppedOk(c: Config, issued: set<Id>, minted: set<string>, h: History, db: Db, pc: Pc, rnd: Inputs)
    requires ValidConfig(c) && StoreOk(c, db) && HistoryOk(db, h)
    requires Ids(db) <= issued && LiveTokens(db) <= minted && h.retired <= minted
    requires PcOk(c, issued, db, pc) && !pc.Done? && FreshInputs(c, issued, minted, rnd)
    ensures var db' := Next(c, db, pc, rnd).0;
            GenOk(c, issued + Ids(db'), minted + LiveTokens(db'), Stepped(h, pc, db, db'))
  {
    var db' := Next(c, db, pc, rnd).0;
    assert StoreOk(c, db') by {
      StepKeeps(c, issued, db, pc, rnd);
    }
    assert HistoryOk(db', Recorded(h, pc, db, db')) && Recorded(h, pc, db, db').retired <= minted by {
      HistoryKept(c, issued, minted, h, db, pc, rnd);
    }
    SteppedGenOk(c, issued, minted, h, pc, db, db');
  }

  lemma SteppedGenOk(c: Config, issued: set<Id>, minted: set<string>, h: History, pc: Pc, db: Db, db': Db)
    requires StoreOk(c, db') && HistoryOk(db', Recorded(h, pc, db, db')) && Recorded(h, pc, db, db').retired <= minted
    ensures GenOk(c, issued + Ids(db'), minted + LiveTokens(db'), Stepped(h, pc, db, db'))
  {
  }

  lemma MoreSeen(c: Config, w: World, issued: set<Id>, minted: set<string>)
    requires Inv(c, w) && w.issued <= issued && w.minted <= minted
    ensures GensOk(c, issued, minted, w.gens) && ExportsOk(c, issued, minted, w.exports)
  {
    forall g | 0 <= g < |w.gens| ensures GenOk(c, issued, minted, w.gens[g]) {
      assert GenOk(c, w.issued, w.minted, w.gens[g]);
    }
    forall e | e in w.exports ensures ExportOk(c, issued, minted, e) {
      assert ExportOk(c, w.issued, w.minted, e);
    }
  }

  /** One generation moves on while all others stand still. */
  lemma GenMovesOn(c: Config, w: World, g: nat, after: Generation, issued: set<Id>, minted: set<string>)
    requires Inv(c, w) && w.issued <= issued && w.minted <= minted
    requires g < |w.gens| && w.gens[g].content.Live? && after.content.Live?
    requires GenOk(c, issued, minted, after)
    requires Evolves(w.issued, w.gens[g].content.db, after.content.db)
    ensures GensOk(c, issued, minted, w.gens[g := after])
    ensures FlightsOk(c, issued, w.gens[g := after], w.flights)
    ensures ExportsOk(c, issued, minted, w.exports)
  {
    MoreSeen(c, w, issued, minted);
    forall j | j in w.flights ensures FlightOk(c, issued, w.gens[g := after], w.flights[j]) {
      OthersUndisturbed(c, w.issued, issued, w.gens, g, after, w.flights[j]);
    }
  }

  lemma SteppedFlightOk(c: Config, issued: set<Id>, gens: seq<Generation>, g: nat, pc: Pc)
    requires g < |gens| && gens[g].content.Live? && PcOk(c, issued, gens[g].content.db, pc)
    ensures FlightOk(c, issued, gens, AfterStep(g, pc))
  {
  }

  lemma ExecKeepsInv(c: Config, w: World, k: nat, rnd: Inputs)
    requires ValidConfig(c) && Inv(c, w) && Enabled(c, w, Exec(k, rnd))
    ensures Inv(c, ExecStep(c, w, k, rnd))
  {
    var g := w.flights[k].gen.value;
    var gen, pc := w.gens[g], w.flights[k].pc;
    assert GenOk(c, w.issued, w.minted, gen) && FlightOk(c, w.issued, w.gens, w.flights[k]);
    if gen.content.Live? {
      var db := gen.content.db;
      var (db', pc') := Next(c, db, pc, rnd);
      var after := Stepped(gen.history, pc, db, db');
      var issued, minted := w.issued + Ids(db'), w.minted + LiveTokens(db');
      SteppedOk(c, w.issued, w.minted, gen.history, db, pc, rnd);
      StepKeeps(c, w.issued, db, pc, rnd);
      GenMovesOn(c, w, g, after, issued, minted);
      EvolvesReflexive(w.issued, db');
      KnowledgeIsStable(c, w.issued, issued, db', db', pc');
      SteppedFlightOk(c, issued, w.gens[g := after], g, pc');
    } else {
      FailedFlight(c, w, k, g);
    }
  }

  lemma FailedFlight(c: Config, w: World, k: nat, g: nat)
    requires Inv(c, w) && g < |w.gens| && w.gens[g].content.Pending?
    ensures FlightsOk(c, w.issued, w.gens, w.flights[k := Flight(Some(g), Done(Failed(Database(SchemaMismatch))))])
  {
  }

  lemma AcceptedContentOk(c: Config, a: Archive)
    requires ValidConfig(c) && CheckSecrets(c, a.env).Success? && Genuine(c, a)
    ensures ContentOk(c, a.content)
  {
    AcceptedNamesSecrets(c, a.env);
    assert Config(c.suite, c.secret, c.software) == c;
  }

  /** What an export of this server hands out is genuine and passes this server's check. */
  lemma ExportIsGenuine(c: Config, content: Content)
    requires ValidConfig(c) && ContentOk(c, content)
    ensures Genuine(c, Archive(content, PrintEnv(c)))
    ensures CheckSecrets(c, PrintEnv(c)).Success?
  {
    PrintedNamesItsSecrets(c);
    AcceptedNamesSecrets(c, PrintEnv(c));
    forall secret, software | |secret| == KEY_LEN && |software| == KEY_LEN && Names(PrintEnv(c), secret, software)
      ensures ContentOk(Config(c.suite, secret, software), content)
    {
      NamesAreUnique(PrintEnv(c), secret, software, c.secret, c.software);
      assert Config(c.suite, secret, software) == c;
    }
  }

  ghost function SecretOf(b: byte): Config {
    Config(ToySuite(), seq(KEY_LEN, i => b), seq(KEY_LEN, i => b))
  }

  ghost function ForeignUser(): User {
    User(Id("u"), "name", SealColumn(SecretOf(1), [], seq(NONCE_LEN, i => 0)), false)
  }

  ghost function ForeignArchive(): Archive {
    Archive(Live(EMPTY.(users := map[Id("u") := ForeignUser()])), PrintEnv(SecretOf(1)))
  }

  lemma ForeignUserDoesNotOpen()
    ensures Unsealed(SecretOf(0), ForeignUser().ehloSecret).Failure?
  {
    var nonce: Bytes := seq(NONCE_LEN, i => 0);
    var data := Encrypt(ToySuite(), SecretOf(1).secret, nonce, []);
    assert SecretOf(0).secret[0] != SecretOf(1).secret[0];
    OtherKeyFails(SecretOf(0).secret, SecretOf(1).secret, nonce);
    RoundTrip(data);
    assert data[..NONCE_LEN] == nonce && data[NONCE_LEN..] == ToySuite().seal(SecretOf(1).secret, nonce, []);
  }

  lemma ForeignContentOk()
    ensures ValidConfig(SecretOf(1)) && ContentOk(SecretOf(1), ForeignArchive().content)
  {
    LawsAreConsistent();
    SealedColumnOpens(SecretOf(1), [], seq(NONCE_LEN, i => 0));
    OneUserOk(SecretOf(1), ForeignUser());
  }

  lemma OneUserOk(c: Config, user: User)
    requires Unsealed(c, user.ehloSecret).Success?
    ensures StoreOk(c, EMPTY.(users := map[user.uuid := user]))
  {
  }

  /** The secret check is needed: an archive of a server with another database secret can be genuine
      and yet hold what this server cannot open. */
  lemma ForeignArchiveWouldNotOpen()
    ensures ValidConfig(SecretOf(0)) && Genuine(SecretOf(0), ForeignArchive())
    ensures !ContentOk(SecretOf(0), ForeignArchive().content)
    ensures CheckSecrets(SecretOf(0), ForeignArchive().env) == Failure(Unauthorized)
  {
    LawsAreConsistent();
    ForeignContentOk();
    ExportIsGenuine(SecretOf(1), ForeignArchive().content);
    assert SecretOf(0).secret[0] != SecretOf(1).secret[0];
    AcceptsExactlyOwnSecrets(SecretOf(1), SecretOf(0));
    ForeignUserDoesNotOpen();
    assert Id("u") in ForeignArchive().content.db.users;
  }

  lemma OtherKeyFails(key: Bytes, other: Bytes, nonce: Bytes)
    requires |key| == |other| == KEY_LEN && key[0] != other[0]
    ensures ToySuite().open(key, nonce, ToySuite().seal(other, nonce, [])).None?
  {
    var sealed := ToySuite().seal(other, nonce, []);
    assert sealed[0] == other[0] && (key + nonce)[0] == key[0];
  }

  lemma GenArrives(c: Config, w: World, gen: Generation, issued: set<Id>)
    requires Inv(c, w) && w.issued <= issued
    ensures FlightsOk(c, issued, w.gens + [gen], w.flights)
  {
    forall k | k in w.flights ensures FlightOk(c, issued, w.gens + [gen], w.flights[k]) {
      var f := w.flights[k];
      assert FlightOk(c, w.issued, w.gens, f);
      if f.gen.Some? && w.gens[f.gen.value].content.Live? {
        var db := w.gens[f.gen.value].content.db;
        EvolvesReflexive(w.issued, db);
        KnowledgeIsStable(c, w.issued, issued, db, db, f.pc);
      }
    }
  }

  lemma ArrivedOk(c: Config, issued: set<Id>, minted: set<string>, content: Content)
    requires ContentOk(c, content)
    ensures GenOk(c, issued + ContentIds(content), minted + ContentTokens(content), Arrived(content))
  {
  }

  lemma ImportKeepsInv(c: Config, w: World, a: Archive)
    requires ValidConfig(c) && Inv(c, w) && Enabled(c, w, Import(a))
    ensures Inv(c, Act(c, w, Import(a)))
  {
    var issued, minted := w.issued + ContentIds(a.content), w.minted + ContentTokens(a.content);
    AcceptedContentOk(c, a);
    ArrivedOk(c, w.issued, w.minted, a.content);
    MoreSeen(c, w, issued, minted);
    GenArrives(c, w, Arrived(a.content), issued);
    OneMoreGen(c, issued, minted, w.gens, Arrived(a.content));
  }

  lemma OneMoreGen(c: Config, issued: set<Id>, minted: set<string>, gens: seq<Generation>, gen: Generation)
    requires GensOk(c, issued, minted, gens) && GenOk(c, issued, minted, gen)
    ensures GensOk(c, issued, minted, gens + [gen])
  {
  }

  lemma MigratedIds(first: Db1)
    requires DistinctUuids(first.identities)
    ensures Ids(AfterUsers(first)) <= ContentIds(Pending(first))
  {
    var known := set i | 0 <= i < |first.identities| :: first.identities[i].uuid;
    assert AfterUsers(first).users.Keys <= known by {
      UsersFromRows(first.identities);
    }
    assert AfterUsers(first).identities.Keys <= known by {
      MigratedDevices(first);
    }
  }

  lemma MigratedTokensKnown(first: Db1)
    requires DistinctUuids(first.identities)
    ensures LiveTokens(AfterUsers(first)) <= ContentTokens(Pending(first))
  {
    var up := AfterUsers(first).identities;
    MigratedDevices(first);
    forall t | t in LiveTokens(AfterUsers(first)) ensures t in ContentTokens(Pending(first)) {
      var u :| u in up && up[u].token == Some(t);
      var i :| 0 <= i < |first.identities| && first.identities[i].uuid == u && up[u] == WithUser(first.identities[i]);
    }
  }

  lemma FirstMigrationOk(c: Config, issued: set<Id>, minted: set<string>, gen: Generation)
    requires GenOk(c, issued, minted, gen) && gen.content.Pending?
    ensures GenOk(c, issued, minted, Migrated(gen))
  {
    UsersStageOk(c, gen.content.first);
    MigratedIds(gen.content.first);
    MigratedTokensKnown(gen.content.first);
  }

  /** The second and the third migration do to the tables only what every request in flight relies on. */
  lemma LaterMigrationKeeps(c: Config, issued: set<Id>, db: Db)
    requires StoreOk(c, db) && !db.stage.Runtime?
    ensures StoreOk(c, NextStage(Live(db))) && Evolves(issued, db, NextStage(Live(db)))
    ensures forall i | i in NextStage(Live(db)).identities ::
              i in db.identities && NextStage(Live(db)).identities[i] == db.identities[i]
    ensures NextStage(Live(db)).groups == db.groups && NextStage(Live(db)).passwords == db.passwords
    ensures Ids(NextStage(Live(db))) <= Ids(db) && LiveTokens(NextStage(Live(db))) <= LiveTokens(db)
  {
    if db.stage.Unindexed? {
      CollapseKeeps(c, issued, db);
      CollapsedRows(db);
    } else {
      AddWindowsKeeps(c, issued, db);
    }
  }

  lemma LaterMigrationOk(c: Config, issued: set<Id>, minted: set<string>, gen: Generation)
    requires GenOk(c, issued, minted, gen) && gen.content.Live? && !gen.content.db.stage.Runtime?
    ensures GenOk(c, issued, minted, Migrated(gen))
    ensures Evolves(issued, gen.content.db, Migrated(gen).content.db)
  {
    LaterMigrationKeeps(c, issued, gen.content.db);
  }

  /** Each migration, committed while requests are in flight, keeps the whole server's invariant. */
  lemma MigrateKeepsInv(c: Config, w: World, g: nat)
    requires ValidConfig(c) && Inv(c, w) && Enabled(c, w, Migrate(g))
    ensures Inv(c, Act(c, w, Migrate(g)))
  {
    var gen, w' := w.gens[g], Act(c, w, Migrate(g));
    assert GenOk(c, w.issued, w.minted, gen);
    if gen.content.Pending? {
      FirstMigrationOk(c, w.issued, w.minted, gen);
      FlightsSurviveMigration(c, w, g, w'.gens[g]);
    } else {
      LaterMigrationOk(c, w.issued, w.minted, gen);
      GenMovesOn(c, w, g, w'.gens[g], w.issued, w.minted);
    }
  }

  lemma FlightsSurviveMigration(c: Config, w: World, g: nat, after: Generation)
    requires FlightsOk(c, w.issued, w.gens, w.flights)
    requires g < |w.gens| && w.gens[g].content.Pending? && after.content.Live?
    ensures FlightsOk(c, w.issued, w.gens[g := after], w.flights)
  {
    forall k | k in w.flights ensures FlightOk(c, w.issued, w.gens[g := after], w.flights[k]) {
      assert FlightOk(c, w.issued, w.gens, w.flights[k]);
      if w.flights[k].gen == Some(g) {
        UnboundFits(c, w.issued, after.content.db, w.flights[k].pc);
      }
    }
  }

  lemma SmallActionsKeepInv(c: Config, w: World, a: Action)
    requires Inv(c, w) && Enabled(c, w, a) && (a.Arrive? || a.Connect? || a.Leave? || a.Export?)
    ensures Inv(c, Act(c, w, a))
  {
    var w' := Act(c, w, a);
    if a.Connect? {
      var g := Current(w);
      if w.gens[g].content.Live? {
        UnboundFits(c, w.issued, w.gens[g].content.db, w.flights[a.k].pc);
      }
    }
    forall k | k in w'.flights ensures FlightOk(c, w'.issued, w'.gens, w'.flights[k]) {
      if k in w.flights {
        assert FlightOk(c, w.issued, w.gens, w.flights[k]);
      }
    }
    assert GenOk(c, w.issued, w.minted, w.gens[Current(w)]);
  }

  lemma ActionKeepsInv(c: Config, w: World, a: Action)
    requires ValidConfig(c) && Inv(c, w) && Enabled(c, w, a)
    ensures Inv(c, Act(c, w, a))
  {
    match a
    case Exec(k, rnd) => ExecKeepsInv(c, w, k, rnd);
    case Import(archive) => ImportKeepsInv(c, w, archive);
    case Migrate(g) => MigrateKeepsInv(c, w, g);
    case _ => SmallActionsKeepInv(c, w, a);
  }

  /** Over every run, under every interleaving of any number of requests, with exports, accepted
      imports and single migrations at any point: every generation meets the invariant of its stage. */
  lemma {:induction false} RunKeepsInv(c: Config, w: World, acts: seq<Action>)
    requires ValidConfig(c) && Inv(c, w) && RunOk(c, w, acts)
    ensures Inv(c, Run(c, w, acts))
    decreases |acts|
  {
    if acts != [] {
      ActionKeepsInv(c, w, acts[0]);
      RunKeepsInv(c, Act(c, w, acts[0]), acts[1..]);
    }
  }
}
