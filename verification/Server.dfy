/** The store and the handlers as they run: tables changed in place, a pool that can be swapped, and
    each handler as the statements it executes in order. Every method is proved against the
    functions of Schema, Statements and Protocol. */
module Server {
  import opened Wrappers
  import opened Hex
  import opened Crypto
  import opened Schema
  import opened Statements
  import opened Protocol
  import opened Isolation
  import opened Races
  import opened ArchiveEnv
  import opened Migrations

  /** One database file behind a pool of connections (src/domain, src/db/mod.rs). */
  class Store {
    var users: map<Id, User>
    var identities: map<Id, Identity>
    var groups: map<Id, Group>
    var passwords: map<Id, Password>
    var stage: Stage
    /** The tables of a file that is still in the first schema. */
    var first: Option<Db1>

    constructor (db: Db)
      requires Consistent(db)
      ensures View() == db && Valid()
    {
      users, identities, groups, passwords := db.users, db.identities, db.groups, db.passwords;
      stage, first := Runtime, None;
    }

    function View(): Db
      reads this
    {
      Db(users, identities, groups, passwords, stage)
    }

    /** What the engine enforces at runtime. */
    ghost predicate Valid()
      reads this
    {
      first.None? && Consistent(View())
    }

    /** What it enforces on a file in any schema. */
    ghost predicate FileOk()
      reads this
    {
      if first.Some? then Consistent1(first.value) else Stored(View())
    }

    /** The database that the pending migrations make of the file. */
    ghost function Migrated(): Db
      reads this
    {
      if first.Some? then MigrateUp(first.value)
      else if stage.Unindexed? then AddWindows(Collapse(View()))
      else if stage.Indexed? then AddWindows(View())
      else View()
    }

    method AddUsersTable()
      requires first.Some? && Consistent1(first.value)
      modifies this
      ensures first.None? && stage.Unindexed? && View() == AfterUsers(old(first.value)) && Stored(View())
    {
      MigratedStored(first.value);
      var db := AfterUsers(first.value);
      users, identities, groups, passwords := db.users, db.identities, db.groups, db.passwords;
      stage, first := db.stage, None;
    }

    method UniqueIdentityIp()
      requires first.None? && stage.Unindexed? && Stored(View())
      modifies `identities, `stage
      ensures stage.Indexed? && View() == Collapse(old(View())) && Stored(View())
    {
      CollapseStored(View());
      identities := ByUuid(LatestPerIp(RowsIn(identities, stage.rowids)));
      stage := Indexed;
    }

    method PasswordValidSince()
      requires first.None? && stage.Indexed? && Stored(View())
      modifies `passwords, `stage
      ensures View() == AddWindows(old(View())) && Valid()
    {
      AddWindowsStored(View());
      passwords := map p | p in passwords :: passwords[p].(validSince := passwords[p].createdAt);
      stage := Runtime;
    }

    /** The pending migrations, in order. */
    method RunMigrations()
      requires FileOk()
      modifies this
      ensures Valid() && View() == old(Migrated())
    {
      if first.Some? {
        ChainIsMigrateUp(first.value);
        AddUsersTable();
      }
      if stage.Unindexed? {
        UniqueIdentityIp();
      }
      if stage.Indexed? {
        PasswordValidSince();
      }
    }

    method FindIdentityByIp(ip: Ip) returns (r: Option<Identity>)
      requires Valid()
      ensures r == FindByIp(View(), ip)
    {
      r := None;
      if i :| i in identities && identities[i].ip == ip {
        r := Some(identities[i]);
      }
    }

    method FindIdentityByToken(token: string) returns (r: Option<Identity>)
      requires Valid()
      ensures r == FindByToken(View(), token)
    {
      r := None;
      if i :| i in identities && identities[i].token == Some(token) {
        r := Some(identities[i]);
      }
    }

    method FindUserByName(name: string) returns (r: Option<User>)
      requires Valid()
      ensures r == FindByName(View(), name)
    {
      r := None;
      if u :| u in users && users[u].name == name {
        r := Some(users[u]);
      }
    }

    /** The groups of the user's passwords: a password is in one of them exactly if it is the user's. */
    method GroupIds(user: Id) returns (r: set<Id>)
      requires Valid()
      ensures r == GroupIdsOf(View(), user)
      ensures forall p | p in passwords :: passwords[p].groupId in r <==> Owner(View(), p) == Some(user)
    {
      r := set g | g in groups && groups[g].userId == user;
    }

    method FindGroups(user: Id) returns (r: set<Group>)
      ensures r == GroupsOf(View(), user)
    {
      r := set g | g in groups && groups[g].userId == user :: groups[g];
    }

    method CreateIdentity(row: Identity) returns (r: Result<(), DbError>)
      requires Valid()
      modifies `identities
      ensures Valid()
      ensures var after := InsertIdentity(old(View()), row);
              if after.Success? then r == Success(()) && View() == after.value
              else r == Failure(after.error) && View() == old(View())
    {
      var after := InsertIdentity(View(), row);
      if after.Failure? { return Failure(after.error); }
      InsertIdentityStored(View(), row);
      identities := identities[row.uuid := row];
      r := Success(());
    }

    method ChangeIdentity(uuid: Id, ch: IdentityChanges) returns (r: Result<(), DbError>)
      requires Valid()
      modifies `identities
      ensures Valid()
      ensures var after := UpdateIdentity(old(View()), uuid, ch);
              if after.Success? then r == Success(()) && View() == after.value
              else r == Failure(after.error) && View() == old(View())
    {
      var after := UpdateIdentity(View(), uuid, ch);
      if after.Failure? { return Failure(after.error); }
      UpdateIdentityStored(View(), uuid, ch);
      identities := identities[uuid := ApplyIdentity(identities[uuid], ch).(uuid := uuid)];
      r := Success(());
    }

    method RemoveIdentity(uuid: Id)
      requires Valid()
      modifies `identities
      ensures Valid() && View() == DeleteIdentity(old(View()), uuid)
    {
      DeleteIdentityStored(View(), uuid);
      identities := identities - {uuid};
    }

    method CreateUser(row: User) returns (r: Result<(), DbError>)
      requires Valid()
      modifies `users
      ensures Valid()
      ensures var after := InsertUser(old(View()), row);
              if after.Success? then r == Success(()) && View() == after.value
              else r == Failure(after.error) && View() == old(View())
    {
      var after := InsertUser(View(), row);
      if after.Failure? { return Failure(after.error); }
      InsertUserStored(View(), row);
      users := users[row.uuid := row];
      r := Success(());
    }

    method ChangeUser(uuid: Id, isDeleted: bool) returns (r: Result<(), DbError>)
      requires Valid()
      modifies `users
      ensures Valid()
      ensures var after := UpdateUser(old(View()), uuid, isDeleted);
              if after.Success? then r == Success(()) && View() == after.value
              else r == Failure(after.error) && View() == old(View())
    {
      if uuid !in users { return Failure(RowNotFound); }
      UpdateUserStored(View(), uuid, isDeleted);
      users := users[uuid := users[uuid].(isDeleted := isDeleted)];
      r := Success(());
    }

    method CreateGroup(row: Group) returns (r: Result<(), DbError>)
      requires Valid()
      modifies `groups
      ensures Valid()
      ensures var after := InsertGroup(old(View()), row);
              if after.Success? then r == Success(()) && View() == after.value
              else r == Failure(after.error) && View() == old(View())
    {
      if row.uuid in groups { return Failure(UniqueViolation); }
      if row.userId !in users { return Failure(ForeignKeyViolation); }
      InsertGroupStored(View(), row);
      groups := groups[row.uuid := row];
      r := Success(());
    }

    method CreatePassword(row: Password) returns (r: Result<(), DbError>)
      requires Valid()
      modifies `passwords
      ensures Valid()
      ensures var after := InsertPassword(old(View()), row);
              if after.Success? then r == Success(()) && View() == after.value
              else r == Failure(after.error) && View() == old(View())
    {
      if row.uuid in passwords { return Failure(UniqueViolation); }
      if row.groupId !in groups { return Failure(ForeignKeyViolation); }
      InsertPasswordStored(View(), row);
      passwords := passwords[row.uuid := row];
      r := Success(());
    }

    method ChangePassword(uuid: Id, ch: PasswordChanges, now: int) returns (r: Result<(), DbError>)
      requires Valid()
      modifies `passwords
      ensures Valid()
      ensures var after := UpdatePassword(old(View()), uuid, ch, now);
              if after.Success? then r == Success(()) && View() == after.value
              else r == Failure(after.error) && View() == old(View())
    {
      var after := UpdatePassword(View(), uuid, ch, now);
      if after.Failure? { return Failure(after.error); }
      UpdatePasswordStored(View(), uuid, ch, now);
      passwords := passwords[uuid := ApplyPassword(passwords[uuid], ch, now)];
      r := Success(());
    }

    /** Devices of each user, counted row by row as the user list does. */
    method CountByUser(order: seq<Id>) returns (counts: map<Id, nat>)
      requires forall k | 0 <= k < |order| :: order[k] in identities
      ensures forall u :: (if u in counts then counts[u] else 0)
                          == |set k | 0 <= k < |order| && identities[order[k]].userId == Some(u)|
    {
      counts := map[];
      for k := 0 to |order|
        invariant forall u :: (if u in counts then counts[u] else 0) == LinkedCount(identities, order[..k], u)
      {
        var user := identities[order[k]].userId;
        assert order[..k + 1][..k] == order[..k] && order[..k + 1][k] == order[k];
        if user.Some? {
          counts := counts[user.value := (if user.value in counts then counts[user.value] else 0) + 1];
        }
      }
      assert order[..|order|] == order;
      forall u ensures (if u in counts then counts[u] else 0)
                       == |set k | 0 <= k < |order| && identities[order[k]].userId == Some(u)| {
        LinkedCountIs(identities, order, u);
      }
    }
  }

  /** Rows of the order that belong to the user. */
  function LinkedCount(identities: map<Id, Identity>, order: seq<Id>, user: Id): nat {
    if order == [] then 0
    else
      var last := order[|order| - 1];
      LinkedCount(identities, order[..|order| - 1], user)
      + if last in identities && identities[last].userId == Some(user) then 1 else 0
  }

  lemma {:induction false} LinkedCountIs(identities: map<Id, Identity>, order: seq<Id>, user: Id)
    requires forall k | 0 <= k < |order| :: order[k] in identities
    ensures LinkedCount(identities, order, user)
            == |set k | 0 <= k < |order| && identities[order[k]].userId == Some(user)|
  {
    var linked := set k | 0 <= k < |order| && identities[order[k]].userId == Some(user);
    if order == [] {
      assert linked == {};
    } else {
      var n := |order| - 1;
      var front := order[..n];
      var before := set k | 0 <= k < |front| && identities[front[k]].userId == Some(user);
      LinkedCountIs(identities, front, user);
      assert linked == before + if identities[order[n]].userId == Some(user) then {n} else {};
    }
  }

  function Replied(r: Result<(), DbError>, reply: Reply): Reply {
    if r.Success? then reply else Failed(Database(r.error))
  }

  /** The shared state of the server (src/routes/mod.rs). */
  class AppState {
    const config: Config
    var pool: Store

    constructor (config: Config, store: Store)
      ensures this.config == config && pool == store
    {
      this.config, pool := config, store;
    }

    method Conn() returns (conn: Store)
      ensures conn == pool
    {
      conn := pool;
    }

    /** The pool now opens the staged database; whoever still holds the old store keeps it unchanged. */
    method SwapDatabase(staged: Store)
      modifies `pool
      ensures pool == staged
    {
      pool := staged;
    }

    method Greet(ip: Ip, pubKey: string, rnd: Inputs) returns (reply: Reply)
      requires pool.Valid() && |rnd.private| == KEY_LEN
      modifies pool
      ensures pool.Valid()
      ensures (pool.View(), reply) == Handle(config, old(pool.View()), Request.Greet(ip, pubKey), rnd)
    {
      var conn := Conn();
      ghost var db := conn.View();
      GreetAlone(config, db, ip, pubKey, rnd);
      var key := DecodeHex(pubKey);
      if key.Failure? { return Failed(key.error); }
      if |key.value| != KEY_LEN { return Failed(Validation); }
      var existing := conn.FindIdentityByIp(ip);
      if existing.Some? { return Failed(PreconditionFailed); }
      var private := new byte[KEY_LEN](i requires 0 <= i < KEY_LEN => rnd.private[i]);
      assert private[..] == rnd.private;
      ClampInPlace(private);
      var sealed := Encrypt(config.suite, config.secret, rnd.nonce(0), private[..]);
      var public := config.suite.dh(private[..], BASE);
      var created := conn.CreateIdentity(Identity(rnd.id, None, ip, None, sealed, public, key.value, false));
      if created == Failure(UniqueViolation) { return Failed(PreconditionFailed); }
      reply := Replied(created, ServerKey(Encode(public)));
    }

    /** Both writes or neither: the user row is taken back when the device cannot be linked. */
    method SignUp(ip: Ip, name: string, ehlo: string, rnd: Inputs) returns (reply: Reply)
      requires pool.Valid() && |rnd.private| == KEY_LEN
      modifies pool
      ensures pool.Valid()
      ensures (pool.View(), reply) == Handle(config, old(pool.View()), Request.SignUp(ip, name, ehlo), rnd)
    {
      var conn := Conn();
      ghost var db := conn.View();
      SignUpAlone(config, db, ip, name, ehlo, rnd);
      var found := conn.FindIdentityByIp(ip);
      if found.None? { return Failed(Unauthorized); }
      var claim := DecodeClaim(config, found.value, name, ehlo);
      if claim.Failure? { return Failed(claim.error); }
      if !(0 < claim.value.nameLen <= MAX_NAME_LEN) { return Failed(Validation); }
      var ehloSecret := SealColumn(config, claim.value.ehlo, rnd.nonce(0));
      var before := conn.users;
      var taken := conn.FindUserByName(claim.value.name);
      if taken.Some? { return Failed(Conflict); }
      var created := conn.CreateUser(User(rnd.id, claim.value.name, ehloSecret, false));
      if created.Failure? { return Failed(Database(created.error)); }
      var linked := LinkDevice(conn, found.value.uuid, rnd.id, rnd);
      if linked.Failed? {
        conn.users := before;
        assert conn.View() == db;
      }
      reply := linked;
    }

    method LinkDevice(conn: Store, uuid: Id, userId: Id, rnd: Inputs) returns (reply: Reply)
      requires conn.Valid()
      modifies conn`identities
      ensures conn.Valid()
      ensures var linked := UpdateIdentity(old(conn.View()), uuid, LinkChanges(config, userId, rnd.token));
              var after := OnSuccess(linked, Token(rnd.token));
              (conn.View(), reply) == if after.Success? then after.value else (old(conn.View()), Failed(after.error))
    {
      var r := conn.ChangeIdentity(uuid, LinkChanges(config, userId, rnd.token));
      reply := Replied(r, Token(rnd.token));
    }

    method SignIn(ip: Ip, name: string, ehlo: string, rnd: Inputs) returns (reply: Reply)
      requires pool.Valid() && |rnd.private| == KEY_LEN
      modifies pool
      ensures pool.Valid()
      ensures (pool.View(), reply) == Handle(config, old(pool.View()), Request.SignIn(ip, name, ehlo), rnd)
    {
      var conn := Conn();
      ghost var db := conn.View();
      FinishRead(config, db, Start(Request.SignIn(ip, name, ehlo)), rnd);
      var found := conn.FindIdentityByIp(ip);
      if found.None? { return Failed(Unauthorized); }
      var claim := DecodeClaim(config, found.value, name, ehlo);
      if claim.Failure? { return Failed(claim.error); }
      SignInProved(config, db, found.value.uuid, claim.value.name, claim.value.ehlo, rnd);
      var user := conn.FindUserByName(claim.value.name);
      var proof := ProveEhlo(config, user, claim.value.ehlo);
      if proof.Failure? { return Failed(proof.error); }
      reply := LinkDevice(conn, found.value.uuid, user.value.uuid, rnd);
    }

    method Refresh(ip: Ip, token: string, ehlo: string, rnd: Inputs) returns (reply: Reply)
      requires pool.Valid() && |rnd.private| == KEY_LEN
      modifies pool
      ensures pool.Valid()
      ensures (pool.View(), reply) == Handle(config, old(pool.View()), Request.Refresh(ip, token, ehlo), rnd)
    {
      var conn := Conn();
      ghost var db := conn.View();
      FinishRead(config, db, Start(Request.Refresh(ip, token, ehlo)), rnd);
      var found := conn.FindIdentityByIp(ip);
      if found.None? { return Failed(Unauthorized); }
      var row := found.value;
      var sent := DecodeRefresh(config, row, token, ehlo);
      if sent.Failure? { return Failed(sent.error); }
      FinishRead(config, db, RefreshUser(row, sent.value), rnd);
      var proof := ProveEhlo(config, Lookup(conn.users, row.userId.GetOr(Id(""))), sent.value);
      if proof.Failure? { return Failed(proof.error); }
      FinishWrite(config, db, RefreshWrite(row.uuid), rnd);
      var r := conn.ChangeIdentity(row.uuid, RefreshChanges(config, rnd.token));
      reply := Replied(r, Token(rnd.token));
    }

    method Resign(ip: Ip, token: string, ehlo: string, rnd: Inputs) returns (reply: Reply)
      requires pool.Valid() && |rnd.private| == KEY_LEN
      modifies pool
      ensures pool.Valid()
      ensures (pool.View(), reply) == Handle(config, old(pool.View()), Request.Resign(ip, token, ehlo), rnd)
    {
      var conn := Conn();
      ghost var db := conn.View();
      FinishRead(config, db, Start(Request.Resign(ip, token, ehlo)), rnd);
      var found := DeviceToResign(conn, token, ehlo, ip, rnd);
      if found.Failure? { return Failed(found.error); }
      var (row, sent) := found.value;
      FinishRead(config, db, ResignUser(row, ip, sent), rnd);
      var proof := ProveEhlo(config, Lookup(conn.users, row.userId.GetOr(Id(""))), sent);
      if proof.Failure? { return Failed(proof.error); }
      FinishWrite(config, db, ResignWrite(row.uuid, ip), rnd);
      var r := conn.ChangeIdentity(row.uuid, ResignChanges(ip));
      reply := Replied(r, Unit);
    }

    /** Find the device by the token sent, and open the ehlo sent with the device's key. */
    method DeviceToResign(conn: Store, token: string, ehlo: string, ghost ip: Ip, ghost rnd: Inputs)
      returns (r: Result<(Identity, Bytes), AppError>)
      requires conn.Valid()
      ensures var start := ReadStart(config, conn.View(), Request.Resign(ip, token, ehlo), rnd);
              if r.Success? then start == Success(ResignUser(r.value.0, ip, r.value.1)) else start == Failure(r.error)
    {
      var data := DecodeHex(token);
      if data.Failure? { return Failure(data.error); }
      var text := FromUtf8(config, data.value, Unauthorized);
      if text.Failure? { return Failure(text.error); }
      var found := conn.FindIdentityByToken(config.suite.hash(text.value));
      if found.None? { return Failure(Unauthorized); }
      var sent := DecodeResignEhlo(config, found.value, ehlo);
      if sent.Failure? { return Failure(sent.error); }
      r := Success((found.value, sent.value));
    }

    method SetConfirm(uuid: Id, flag: bool, rnd: Inputs) returns (reply: Reply)
      requires pool.Valid() && |rnd.private| == KEY_LEN
      modifies pool
      ensures pool.Valid()
      ensures (pool.View(), reply) == Handle(config, old(pool.View()), Request.SetConfirm(uuid, flag), rnd)
    {
      var conn := Conn();
      ghost var db := conn.View();
      FinishRead(config, db, Start(Request.SetConfirm(uuid, flag)), rnd);
      if uuid !in conn.identities { return Failed(IdentityNotFound); }
      FinishWrite(config, db, ConfirmWrite(uuid, flag), rnd);
      var r := conn.ChangeIdentity(uuid, ConfirmChanges(flag));
      reply := Replied(r, Unit);
    }

    method DeleteIdentity(uuid: Id, rnd: Inputs) returns (reply: Reply)
      requires pool.Valid() && |rnd.private| == KEY_LEN
      modifies pool
      ensures pool.Valid()
      ensures (pool.View(), reply) == Handle(config, old(pool.View()), DeleteDevice(uuid), rnd)
    {
      var conn := Conn();
      ghost var db := conn.View();
      FinishRead(config, db, Start(DeleteDevice(uuid)), rnd);
      if uuid !in conn.identities { return Failed(IdentityNotFound); }
      FinishWrite(config, db, DeleteWrite(uuid), rnd);
      conn.RemoveIdentity(uuid);
      reply := Unit;
    }

    method ToggleUser(uuid: Id, isDeleted: bool, rnd: Inputs) returns (reply: Reply)
      requires pool.Valid() && |rnd.private| == KEY_LEN
      modifies pool
      ensures pool.Valid()
      ensures (pool.View(), reply) == Handle(config, old(pool.View()), SetDeleted(uuid, isDeleted), rnd)
    {
      var conn := Conn();
      ghost var db := conn.View();
      FinishRead(config, db, Start(SetDeleted(uuid, isDeleted)), rnd);
      if uuid !in conn.users { return Failed(AppError.NotFound); }
      FinishWrite(config, db, UserWrite(uuid, isDeleted), rnd);
      var r := conn.ChangeUser(uuid, isDeleted);
      reply := Replied(r, Unit);
    }

    method ValidateAuth(token: Option<string>, ip: Ip) returns (r: Result<Identity, AppError>)
      requires pool.Valid()
      ensures r == Authenticate(config, pool.View(), token, ip)
      ensures r.Success? ==> r.value.userId.Some? && r.value.userId.value in pool.users
    {
      if token.None? { return Failure(Unauthorized); }
      var conn := Conn();
      var found := conn.FindIdentityByToken(config.suite.hash(token.value));
      var device := CheckDevice(found, ip);
      if device.Failure? { return device; }
      var user := CheckUser(Lookup(conn.users, device.value.userId.GetOr(Id(""))));
      if user.Failure? { return Failure(user.error); }
      r := device;
    }

    method CreateGroup(token: Option<string>, ip: Ip, op: DataOp, rnd: Inputs) returns (reply: Reply)
      requires pool.Valid() && |rnd.private| == KEY_LEN && op.GroupCreate?
      modifies pool
      ensures pool.Valid()
      ensures (pool.View(), reply) == Handle(config, old(pool.View()), Data(token, ip, op), rnd)
    {
      DataIsAuthThenServe(config, pool.View(), token, ip, op, rnd);
      var lengths := CheckLengths(config, op);
      if lengths.Failure? { return Failed(lengths.error); }
      var auth := ValidateAuth(token, ip);
      if auth.Failure? { return Failed(auth.error); }
      var conn := Conn();
      GroupCreateResult(config, conn.View(), auth.value, op, rnd);
      var g := Group(rnd.id, auth.value.userId.value, op.name, op.extra.GetOr("{}"));
      var r := conn.CreateGroup(g);
      reply := Replied(r, GroupReply(g));
    }

    method CreatePassword(token: Option<string>, ip: Ip, op: DataOp, rnd: Inputs) returns (reply: Reply)
      requires pool.Valid() && |rnd.private| == KEY_LEN && op.PwdCreate?
      modifies pool
      ensures pool.Valid()
      ensures (pool.View(), reply) == Handle(config, old(pool.View()), Data(token, ip, op), rnd)
    {
      DataIsAuthThenServe(config, pool.View(), token, ip, op, rnd);
      var lengths := CheckLengths(config, op);
      if lengths.Failure? { return Failed(lengths.error); }
      var auth := ValidateAuth(token, ip);
      if auth.Failure? { return Failed(auth.error); }
      var conn := Conn();
      CreateServes(config, conn.View(), auth.value, op, rnd);
      var sent := DecryptFromClient(config, op.pwd, auth.value);
      if sent.Failure? { return Failed(sent.error); }
      var blob := SealColumn(config, sent.value, rnd.nonce(0));
      var own := OwnGroup(Lookup(conn.groups, op.groupId), auth.value);
      if own.Failure? { return Failed(own.error); }
      var p := CreatedRow(op, blob, rnd);
      var r := conn.CreatePassword(p);
      reply := Replied(r, CreatedReply(config, p, auth.value, rnd));
    }

    method UpdatePassword(token: Option<string>, ip: Ip, op: DataOp, rnd: Inputs) returns (reply: Reply)
      requires pool.Valid() && |rnd.private| == KEY_LEN && op.PwdUpdate?
      modifies pool
      ensures pool.Valid()
      ensures (pool.View(), reply) == Handle(config, old(pool.View()), Data(token, ip, op), rnd)
    {
      DataIsAuthThenServe(config, pool.View(), token, ip, op, rnd);
      var lengths := CheckLengths(config, op);
      if lengths.Failure? { return Failed(lengths.error); }
      var auth := ValidateAuth(token, ip);
      if auth.Failure? { return Failed(auth.error); }
      var conn := Conn();
      UpdateResult(config, conn.View(), auth.value, op, rnd);
      if op.pid !in conn.passwords { return Failed(Unauthorized); }
      var own := OwnGroup(Lookup(conn.groups, conn.passwords[op.pid].groupId), auth.value);
      if own.Failure? { return Failed(own.error); }
      var target := OwnGroup(Lookup(conn.groups, op.groupId), auth.value);
      if target.Failure? { return Failed(target.error); }
      var sent := DecryptFromClient(config, op.pwd, auth.value);
      if sent.Failure? { return Failed(sent.error); }
      var r := conn.ChangePassword(op.pid, UpdateChanges(op, SealColumn(config, sent.value, rnd.nonce(0))), rnd.now);
      reply := Replied(r, Unit);
    }

    method GetPassword(token: Option<string>, ip: Ip, op: DataOp, rnd: Inputs) returns (reply: Reply)
      requires pool.Valid() && |rnd.private| == KEY_LEN && op.PwdGet?
      ensures (pool.View(), reply) == Handle(config, pool.View(), Data(token, ip, op), rnd)
    {
      DataIsAuthThenServe(config, pool.View(), token, ip, op, rnd);
      var auth := ValidateAuth(token, ip);
      if auth.Failure? { return Failed(auth.error); }
      var conn := Conn();
      GetResult(config, conn.View(), auth.value, op, rnd);
      if op.pid !in conn.passwords { return Failed(Unauthorized); }
      var p := conn.passwords[op.pid];
      var own := OwnGroup(Lookup(conn.groups, p.groupId), auth.value);
      if own.Failure? { return Failed(own.error); }
      var blob := EncryptForClient(config, p.pwd, auth.value, rnd.nonce(1));
      reply := if blob.Success?
      then Detail(ToEntry(p, blob.value, rnd.now), p.name, p.extra, own.value.name, own.value.extra)
      else Failed(blob.error);
    }

    method ListPasswords(token: Option<string>, ip: Ip, op: DataOp, rnd: Inputs) returns (reply: Reply)
      requires pool.Valid() && |rnd.private| == KEY_LEN && op.PwdList?
      ensures (pool.View(), reply) == Handle(config, pool.View(), Data(token, ip, op), rnd)
    {
      DataIsAuthThenServe(config, pool.View(), token, ip, op, rnd);
      var auth := ValidateAuth(token, ip);
      if auth.Failure? { return Failed(auth.error); }
      var conn := Conn();
      ListResult(config, conn.View(), auth.value, op, rnd);
      var gids := conn.GroupIds(auth.value.userId.value);
      var page := ListPage(RowsOf(conn.View(), rnd.order, gids), op, rnd.now);
      var entries := EncryptRows(config, page, auth.value, op.expired.GetOr(false), rnd, 1);
      reply := if entries.Success? then Entries(entries.value) else Failed(entries.error);
    }

    method ListGroups(token: Option<string>, ip: Ip, rnd: Inputs) returns (reply: Reply)
      requires pool.Valid() && |rnd.private| == KEY_LEN
      ensures (pool.View(), reply) == Handle(config, pool.View(), Data(token, ip, GroupList), rnd)
    {
      DataIsAuthThenServe(config, pool.View(), token, ip, GroupList, rnd);
      var auth := ValidateAuth(token, ip);
      if auth.Failure? { return Failed(auth.error); }
      var conn := Conn();
      GroupListResult(config, conn.View(), auth.value, rnd);
      var groups := conn.FindGroups(auth.value.userId.value);
      reply := Groups(groups);
    }

    /** Import: the secrets of the archive must be this server's; then the pool is swapped, and then the
        pending migrations run on what it opens now. */
    method Import(env: Option<string>, staged: Option<Store>) returns (r: Result<(), AppError>)
      requires staged.Some? ==> staged.value != pool && staged.value.FileOk()
      modifies `pool, if staged.Some? then {staged.value} else {}
      ensures r.Success? <==> env.Some? && CheckSecrets(config, env.value).Success? && staged.Some?
      ensures r.Success? ==> pool == staged.value && pool.Valid() && pool.View() == old(staged.value.Migrated())
      ensures r.Failure? ==> pool == old(pool)
      ensures old(pool).View() == old(pool.View())
      ensures env.Some? && CheckSecrets(config, env.value).Failure? ==>
                r == Failure(CheckSecrets(config, env.value).error)
    {
      if env.None? { return Failure(Validation); }
      var enc, sw := ReadSecrets(Lines(env.value));
      if enc.None? || sw.None? { return Failure(Validation); }
      if enc.value != Encode(config.secret) || sw.value != Encode(config.software) { return Failure(Unauthorized); }
      if staged.None? { return Failure(Validation); }
      SwapDatabase(staged.value);
      pool.RunMigrations();
      r := Success(());
    }
  }
}
