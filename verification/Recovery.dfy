/** A user whose device is lost gets everything back on a new device: the admin deletes the stale
    device, the new one greets, signs in with the same name and ehlo, and is confirmed. */
module Recovery {
  import opened Wrappers
  import opened Hex
  import opened Crypto
  import opened Schema
  import opened Statements
  import opened Protocol
  import opened Guarantee
  import opened Isolation
  import opened Races
  import opened Vault
  import opened Expiry

  lemma DeleteWorks(c: Config, db: Db, stale: Id, rnd: Inputs)
    requires |rnd.private| == KEY_LEN
    ensures Handle(c, db, DeleteDevice(stale), rnd) ==
            if stale in db.identities
            then (db.(identities := db.identities - {stale}, stage := Removed(db.stage, stale)), Unit)
            else (db, Failed(IdentityNotFound))
  {
    FinishRead(c, db, Start(DeleteDevice(stale)), rnd);
    if stale in db.identities {
      FinishWrite(c, db, DeleteWrite(stale), rnd);
    }
  }

  lemma GreetWorks(c: Config, db: Db, ip: Ip, public: Bytes, rnd: Inputs)
    requires Consistent(db) && |rnd.private| == KEY_LEN && |public| == KEY_LEN
    requires FindByIp(db, ip).None? && rnd.id !in Ids(db)
    ensures var row := GreetRow(c, ip, public, rnd);
            Handle(c, db, Greet(ip, Encode(public)), rnd) ==
            (db.(identities := db.identities[rnd.id := row]), ServerKey(Encode(row.serverPublic)))
  {
    RoundTrip(public);
    GreetAlone(c, db, ip, Encode(public), rnd);
    InsertDecides(c, db, ip, public, rnd);
  }

  /** What the device sends to sign in: name and ehlo sealed under the shared key. */
  function SignInRequest(
    c: Config, row: Identity, private: Bytes, name: Bytes, ehlo: Bytes, n1: Bytes, n2: Bytes
  ): Request {
    var key := ClientKey(c, row, private);
    SignIn(row.ip, Encode(Encrypt(c.suite, key, n1, name)), Encode(Encrypt(c.suite, key, n2, ehlo)))
  }

  lemma ClaimDecodes(c: Config, row: Identity, private: Bytes, name: Bytes, ehlo: Bytes, n1: Bytes, n2: Bytes)
    requires ValidConfig(c) && DeviceKeysOk(c, row) && Holds(c, row, private)
    requires |n1| == NONCE_LEN && |n2| == NONCE_LEN && c.suite.utf8(name).Some?
    ensures var req := SignInRequest(c, row, private, name, ehlo, n1, n2);
            DecodeClaim(c, row, req.name, req.ehlo) == Success(Claim(row, c.suite.utf8(name).value, |name|, ehlo))
  {
    var key := ClientKey(c, row, private);
    DeviceKeyIsClientKey(c, row, private);
    RoundTrip(Encrypt(c.suite, key, n1, name));
    RoundTrip(Encrypt(c.suite, key, n2, ehlo));
    EnvelopeOpens(c.suite, key, n1, name);
    EnvelopeOpens(c.suite, key, n2, ehlo);
  }

  /** The device row after it was linked to the user and confirmed. */
  function Linked(c: Config, row: Identity, user: Id, token: string, confirmed: bool): Identity {
    row.(userId := Some(user), token := Some(c.suite.hash(token)), confirmed := confirmed)
  }

  lemma SignInFinds(c: Config, db: Db, user: Id, ehlo: Bytes, rnd: Inputs, uuid: Id)
    requires Consistent(db) && user in db.users && !db.users[user].isDeleted
    requires Unsealed(c, db.users[user].ehloSecret) == Success(ehlo)
    ensures Read(c, db, SignInUser(uuid, db.users[user].name, ehlo), rnd) == Success(LinkWrite(uuid, user))
  {
    assert FindByName(db, db.users[user].name) == Some(db.users[user]);
  }

  lemma SignInWorks(
    c: Config, db: Db, uuid: Id, private: Bytes, user: Id, name: Bytes, ehlo: Bytes, n1: Bytes, n2: Bytes, rnd: Inputs
  )
    requires ValidConfig(c) && DbInv(c, db) && |rnd.private| == KEY_LEN
    requires uuid in db.identities && Holds(c, db.identities[uuid], private)
    requires user in db.users && !db.users[user].isDeleted
    requires c.suite.utf8(name) == Some(db.users[user].name)
    requires Unsealed(c, db.users[user].ehloSecret) == Success(ehlo)
    requires |n1| == NONCE_LEN && |n2| == NONCE_LEN && c.suite.hash(rnd.token) !in LiveTokens(db)
    ensures var row := db.identities[uuid];
            Handle(c, db, SignInRequest(c, row, private, name, ehlo, n1, n2), rnd) ==
            (db.(identities := db.identities[uuid := Linked(c, row, user, rnd.token, false)]), Token(rnd.token))
  {
    var req := SignInRequest(c, db.identities[uuid], private, name, ehlo, n1, n2);
    SignInStarts(c, db, uuid, private, name, ehlo, n1, n2, rnd);
    FinishRead(c, db, Start(req), rnd);
    SignInEnds(c, db, uuid, user, ehlo, rnd);
  }

  lemma SignInStarts(
    c: Config, db: Db, uuid: Id, private: Bytes, name: Bytes, ehlo: Bytes, n1: Bytes, n2: Bytes, rnd: Inputs
  )
    requires ValidConfig(c) && DbInv(c, db) && uuid in db.identities && Holds(c, db.identities[uuid], private)
    requires c.suite.utf8(name).Some? && |n1| == NONCE_LEN && |n2| == NONCE_LEN
    ensures ReadStart(c, db, SignInRequest(c, db.identities[uuid], private, name, ehlo, n1, n2), rnd)
            == Success(SignInUser(uuid, c.suite.utf8(name).value, ehlo))
  {
    FindByIpIs(db, uuid);
    ClaimDecodes(c, db.identities[uuid], private, name, ehlo, n1, n2);
  }

  lemma SignInEnds(c: Config, db: Db, uuid: Id, user: Id, ehlo: Bytes, rnd: Inputs)
    requires Consistent(db) && |rnd.private| == KEY_LEN && uuid in db.identities
    requires user in db.users && !db.users[user].isDeleted
    requires Unsealed(c, db.users[user].ehloSecret) == Success(ehlo)
    requires c.suite.hash(rnd.token) !in LiveTokens(db)
    ensures Finish(c, db, SignInUser(uuid, db.users[user].name, ehlo), rnd) ==
            (db.(identities := db.identities[uuid := Linked(c, db.identities[uuid], user, rnd.token, false)]),
             Token(rnd.token))
  {
    SignInFinds(c, db, user, ehlo, rnd, uuid);
    LinkFits(c, db, uuid, user, rnd.token);
    FinishRead(c, db, SignInUser(uuid, db.users[user].name, ehlo), rnd);
    FinishWrite(c, db, LinkWrite(uuid, user), rnd);
  }

  /** Confirm and unconfirm write the flag of one device and nothing else. */
  lemma ConfirmWorks(c: Config, db: Db, uuid: Id, flag: bool, rnd: Inputs)
    requires Consistent(db) && |rnd.private| == KEY_LEN
    ensures Handle(c, db, SetConfirm(uuid, flag), rnd) ==
            if uuid in db.identities
            then (db.(identities := db.identities[uuid := db.identities[uuid].(confirmed := flag)]), Unit)
            else (db, Failed(IdentityNotFound))
  {
    FinishRead(c, db, Start(SetConfirm(uuid, flag)), rnd);
    if uuid in db.identities {
      ConfirmFits(db, uuid, flag);
      FinishWrite(c, db, ConfirmWrite(uuid, flag), rnd);
    }
  }

  lemma ConfirmFits(db: Db, uuid: Id, flag: bool)
    requires Consistent(db) && uuid in db.identities
    ensures UpdateIdentity(db, uuid, ConfirmChanges(flag)) ==
            Success(db.(identities := db.identities[uuid := db.identities[uuid].(confirmed := flag)]))
  {
  }

  /** A confirmed device of a user who is not deleted passes `validate_auth` from its own address. */
  lemma AuthWorks(c: Config, db: Db, uuid: Id, token: string, op: DataOp, rnd: Inputs)
    requires Consistent(db) && |rnd.private| == KEY_LEN && uuid in db.identities
    requires var row := db.identities[uuid];
             && row.token == Some(c.suite.hash(token)) && row.confirmed
             && row.userId.Some? && !db.users[row.userId.value].isDeleted
    requires CheckLengths(c, op).Success? && !op.Verify?
    ensures var row := db.identities[uuid];
            Handle(c, db, Data(Some(token), row.ip, op), rnd) == Serve(c, db, row, op, rnd)
  {
    assert FindByToken(db, c.suite.hash(token)) == Some(db.identities[uuid]);
    DataIsAuthThenServe(c, db, Some(token), db.identities[uuid].ip, op, rnd);
  }

  /** What the new device reads. */
  ghost predicate ReadsItem(
    c: Config, row: Identity, private: Bytes, pid: Id, reply: Reply, before: Db, user: Id, now: int
  ) {
    if Owner(before, pid) == Some(user) then
      var item := VaultOf(c, before).items[pid];
      ShowsItem(c, row, private, reply, pid, item, before.groups[item.gid], now)
    else reply == Failed(Unauthorized)
  }

  lemma GetReads(c: Config, db: Db, uuid: Id, private: Bytes, token: string, pid: Id, rnd: Inputs)
    requires ValidConfig(c) && Consistent(db) && PasswordsSealed(c, db.passwords) && ValidInputs(rnd)
    requires uuid in db.identities
    requires var row := db.identities[uuid];
             && DeviceKeysOk(c, row) && row.token == Some(c.suite.hash(token)) && row.confirmed
             && Holds(c, row, private)
             && row.userId.Some? && !db.users[row.userId.value].isDeleted
    ensures var row := db.identities[uuid];
            ReadsItem(c, row, private, pid, Handle(c, db, Data(Some(token), row.ip, PwdGet(pid)), rnd).1,
                      db, row.userId.value, rnd.now)
  {
    AuthWorks(c, db, uuid, token, PwdGet(pid), rnd);
    assert db.identities[uuid].userId.value in db.users;
    ServedItem(c, db, db.identities[uuid], private, pid, rnd);
  }

  lemma ServedItem(c: Config, db: Db, row: Identity, private: Bytes, pid: Id, rnd: Inputs)
    requires ValidConfig(c) && Consistent(db) && PasswordsSealed(c, db.passwords) && ValidInputs(rnd)
    requires DeviceKeysOk(c, row) && Holds(c, row, private) && row.userId.Some?
    ensures ReadsItem(c, row, private, pid, Serve(c, db, row, PwdGet(pid), rnd).1, db, row.userId.value, rnd.now)
  {
    GetResult(c, db, row, PwdGet(pid), rnd);
    if Owner(db, pid) == row.userId {
      assert VaultOf(c, db).items[pid] == ItemOf(c, db.passwords[pid]);
      DetailShows(c, row, private, db.passwords[pid], db.groups[db.passwords[pid].groupId], rnd);
    }
  }

  lemma DetailShows(c: Config, row: Identity, private: Bytes, p: Password, g: Group, rnd: Inputs)
    requires ValidConfig(c) && DeviceKeysOk(c, row) && Holds(c, row, private) && ValidInputs(rnd)
    requires Unsealed(c, p.pwd).Success?
    ensures var blob := EncryptForClient(c, p.pwd, row, rnd.nonce(1));
            && blob.Success?
            && var left := DaysRemaining(p.validSince, p.days, rnd.now);
               var entry := Entry(p.uuid, blob.value, left, p.days);
               ShowsItem(c, row, private, Detail(entry, p.name, p.extra, g.name, g.extra), p.uuid,
                         ItemOf(c, p), g, rnd.now)
  {
    DeviceOpensStored(c, row, private, p.pwd, rnd.nonce(1));
    if p.days >= 0 {
      RemainingIsCeiling(p.validSince, p.days, rnd.now);
    }
  }

  /** The database after the four recovery requests. */
  function Recovered(c: Config, db: Db, stale: Id, row: Identity, user: Id, token: string): Db {
    db.(identities := (db.identities - {stale})[row.uuid := Linked(c, row, user, token, true)])
  }

  lemma GreetInserts(c: Config, db: Db, row: Identity, issued: set<Id>)
    requires DbInv(c, db) && DeviceKeysOk(c, row) && row.token.None? && row.userId.None?
    requires row.uuid !in issued && Ids(db) <= issued && FindByIp(db, row.ip).None?
    ensures DbInv(c, db.(identities := db.identities[row.uuid := row]))
  {
    InsertIdentityKeeps(c, issued, db, row);
  }

  lemma FreshTokenStays(c: Config, db: Db, stale: Id, row: Identity, token: string)
    requires c.suite.hash(token) !in LiveTokens(db) && row.token.None?
    ensures c.suite.hash(token) !in LiveTokens(db.(identities := (db.identities - {stale})[row.uuid := row]))
  {
  }

  lemma DeleteFrees(c: Config, db: Db, stale: Id, ip: Ip)
    requires DbInv(c, db)
    requires forall i | i in db.identities && i != stale :: db.identities[i].ip != ip
    ensures var db1 := db.(identities := db.identities - {stale});
            DbInv(c, db1) && FindByIp(db1, ip).None? && Ids(db1) <= Ids(db)
  {
    DeleteIdentityKeeps(c, {}, db, stale);
  }

  /** A greet from a free address. */
  lemma GreetGrows(c: Config, db: Db, ip: Ip, public: Bytes, rnd: Inputs)
    requires ValidConfig(c) && DbInv(c, db) && ValidInputs(rnd) && |public| == KEY_LEN
    requires FindByIp(db, ip).None? && rnd.id !in Ids(db)
    ensures var row := GreetRow(c, ip, public, rnd);
            var db2 := db.(identities := db.identities[rnd.id := row]);
            && Handle(c, db, Greet(ip, Encode(public)), rnd) == (db2, ServerKey(Encode(row.serverPublic)))
            && DbInv(c, db2)
  {
    GreetRowKeysOk(c, ip, public, rnd);
    GreetWorks(c, db, ip, public, rnd);
    GreetInserts(c, db, GreetRow(c, ip, public, rnd), Ids(db));
  }

  lemma LinkKeeps(c: Config, db: Db, uuid: Id, user: Id, token: string)
    requires DbInv(c, db) && uuid in db.identities && user in db.users && c.suite.hash(token) !in LiveTokens(db)
    ensures DbInv(c, db.(identities := db.identities[uuid := Linked(c, db.identities[uuid], user, token, false)]))
  {
    LinkFits(c, db, uuid, user, token);
    UpdateIdentityKeeps(c, {}, db, uuid, LinkChanges(c, user, token));
  }

  lemma ConfirmKeeps(c: Config, db: Db, uuid: Id)
    requires DbInv(c, db) && uuid in db.identities
    ensures DbInv(c, db.(identities := db.identities[uuid := db.identities[uuid].(confirmed := true)]))
  {
    ConfirmFits(db, uuid, true);
    UpdateIdentityKeeps(c, {}, db, uuid, ConfirmChanges(true));
  }

  /** The four requests of the recovery are accepted from every database that meets the invariant,
      if the user is not deleted and nobody but the stale device holds the new device's address. */
  lemma RecoverySucceeds(
    c: Config, db: Db, stale: Id, ip: Ip, private: Bytes, user: Id, name: Bytes, ehlo: Bytes,
    n1: Bytes, n2: Bytes, greet: Inputs, signIn: Inputs
  )
    requires ValidConfig(c) && DbInv(c, db) && ValidInputs(greet) && |signIn.private| == KEY_LEN
    requires stale in db.identities
    requires forall i | i in db.identities && i != stale :: db.identities[i].ip != ip
    requires |private| == KEY_LEN && greet.id !in Ids(db) && c.suite.hash(signIn.token) !in LiveTokens(db)
    requires user in db.users && !db.users[user].isDeleted
    requires c.suite.utf8(name) == Some(db.users[user].name)
    requires Unsealed(c, db.users[user].ehloSecret) == Success(ehlo)
    requires |n1| == NONCE_LEN && |n2| == NONCE_LEN
    ensures var public := c.suite.dh(private, BASE);
            var row := GreetRow(c, ip, public, greet);
            var (db1, r1) := Handle(c, db, DeleteDevice(stale), greet);
            var (db2, r2) := Handle(c, db1, Greet(ip, Encode(public)), greet);
            var (db3, r3) := Handle(c, db2, SignInRequest(c, row, private, name, ehlo, n1, n2), signIn);
            var (db4, r4) := Handle(c, db3, SetConfirm(greet.id, true), signIn);
            && r1 == Unit && r2 == ServerKey(Encode(row.serverPublic)) && r3 == Token(signIn.token) && r4 == Unit
            && db4 == Recovered(c, db, stale, row, user, signIn.token)
            && DbInv(c, db4)
  {
    var public := c.suite.dh(private, BASE);
    var row := GreetRow(c, ip, public, greet);
    var db2 := db.(identities := (db.identities - {stale})[greet.id := row]);
    var db3 := db2.(identities := db2.identities[greet.id := Linked(c, row, user, signIn.token, false)]);
    DeleteWorks(c, db, stale, greet);
    DeleteFrees(c, db, stale, ip);
    GreetGrows(c, db.(identities := db.identities - {stale}), ip, public, greet);
    FreshTokenStays(c, db, stale, row, signIn.token);
    SignInWorks(c, db2, greet.id, private, user, name, ehlo, n1, n2, signIn);
    LinkKeeps(c, db2, greet.id, user, signIn.token);
    ConfirmWorks(c, db3, greet.id, true, signIn);
    ConfirmKeeps(c, db3, greet.id);
    SameRecovered(c, db, stale, row, user, signIn.token);
  }

  lemma SameRecovered(c: Config, db: Db, stale: Id, row: Identity, user: Id, token: string)
    ensures var base := db.identities - {stale};
            base[row.uuid := row][row.uuid := Linked(c, row, user, token, false)]
                [row.uuid := Linked(c, row, user, token, true)]
            == Recovered(c, db, stale, row, user, token).identities
  {
  }

  /** After the recovery the new device reads, with its own key, exactly what the user owned before. */
  lemma RecoveryKeepsData(
    c: Config, db: Db, stale: Id, row: Identity, private: Bytes, user: Id, token: string, pid: Id, rnd: Inputs
  )
    requires ValidConfig(c) && user in db.users && !db.users[user].isDeleted && ValidInputs(rnd)
    requires DbInv(c, Recovered(c, db, stale, row, user, token)) && Holds(c, row, private)
    ensures var after := Recovered(c, db, stale, row, user, token);
            ReadsItem(c, row, private, pid,
                      Handle(c, after, Data(Some(token), row.ip, PwdGet(pid)), rnd).1, db, user, rnd.now)
  {
    var after := Recovered(c, db, stale, row, user, token);
    GetReads(c, after, row.uuid, private, token, pid, rnd);
    assert Owner(after, pid) == Owner(db, pid);
    assert VaultOf(c, after) == VaultOf(c, db);
  }
}
