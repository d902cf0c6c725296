/** What a sign-up must send, what it makes of it, and that the user it makes can sign in. */
module SignUps {
  import opened Wrappers
  import opened Hex
  import opened Crypto
  import opened Schema
  import opened Protocol
  import opened Guarantee
  import opened Races
  import opened Vault
  import opened Recovery
  import opened Credentials

  /** The device sealed this name, of 1 to 64 bytes and not taken, and this ehlo. */
  ghost predicate ClaimsNew(
    c: Config, db: Db, row: Identity, private: Bytes, nameHex: string, ehloHex: string, name: Bytes, ehlo: Bytes
  ) {
    && SealedBy(c, row, private, nameHex, name) && SealedBy(c, row, private, ehloHex, ehlo)
    && 1 <= |name| <= 64 && c.suite.utf8(name).Some?
    && forall u | u in db.users :: db.users[u].name != c.suite.utf8(name).value
  }

  lemma ClaimIsRead(c: Config, row: Identity, nameHex: string, ehloHex: string)
    ensures var name, ehlo := DecryptFromClient(c, nameHex, row), DecryptFromClient(c, ehloHex, row);
            var claim := DecodeClaim(c, row, nameHex, ehloHex);
            claim.Success? ==> claim.value == Claim(row, c.suite.utf8(name.value).value, |name.value|, ehlo.value)
  {
  }

  /** What the device sealed is what is decoded. */
  lemma ClaimsNewIsRead(
    c: Config, db: Db, row: Identity, private: Bytes, nameHex: string, ehloHex: string, name: Bytes, ehlo: Bytes
  )
    requires ValidConfig(c) && DeviceKeysOk(c, row) && Holds(c, row, private)
    ensures ClaimsNew(c, db, row, private, nameHex, ehloHex, name, ehlo) <==>
            && DecryptFromClient(c, nameHex, row) == Success(name)
            && DecryptFromClient(c, ehloHex, row) == Success(ehlo)
            && DecodeClaim(c, row, nameHex, ehloHex).Success? && 1 <= |name| <= 64
            && FindByName(db, DecodeClaim(c, row, nameHex, ehloHex).value.name).None?
  {
    ClaimIsTwoEnvelopes(c, row, nameHex, ehloHex);
    ClaimIsRead(c, row, nameHex, ehloHex);
    ServerReadsWhatDeviceSealed(c, row, private, nameHex, name);
    ServerReadsWhatDeviceSealed(c, row, private, ehloHex, ehlo);
  }

  /** What the sign-up handler reads of a device, with nobody else at the tables. */
  lemma SignUpReads(c: Config, db: Db, uuid: Id, nameHex: string, ehloHex: string, rnd: Inputs)
    requires Consistent(db) && uuid in db.identities
    ensures var row := db.identities[uuid];
            var claim := DecodeClaim(c, row, nameHex, ehloHex);
            var first := ReadStart(c, db, SignUp(row.ip, nameHex, ehloHex), rnd);
            if claim.Success? && 1 <= claim.value.nameLen <= 64
            then first == Success(SignUpTx(uuid, claim.value.name, SealColumn(c, claim.value.ehlo, rnd.nonce(0))))
            else first == Failure(if claim.Failure? then claim.error else Validation)
  {
    FindByIpIs(db, uuid);
  }

  /** The tables after a sign-up: one new user, who is not deleted and owns exactly the ehlo sealed, and
      the device linked to that user with the new token and no approval. */
  ghost predicate SignedUp(c: Config, db: Db, db': Db, uuid: Id, name: Bytes, ehlo: Bytes, rnd: Inputs) {
    && uuid in db.identities && rnd.id in db'.users
    && db' == db.(users := db.users[rnd.id := db'.users[rnd.id]],
                  identities := db.identities[uuid := Linked(c, db.identities[uuid], rnd.id, rnd.token, false)])
    && db'.users[rnd.id].uuid == rnd.id && c.suite.utf8(name) == Some(db'.users[rnd.id].name)
    && Proves(c, db', rnd.id, ehlo)
  }

  lemma TransactionSignsUp(c: Config, db: Db, uuid: Id, name: Bytes, ehlo: Bytes, rnd: Inputs)
    requires ValidConfig(c) && Consistent(db) && ValidInputs(rnd) && uuid in db.identities
    requires rnd.id !in Ids(db) && c.suite.hash(rnd.token) !in LiveTokens(db)
    requires c.suite.utf8(name).Some? && FindByName(db, c.suite.utf8(name).value).None?
    ensures var r := SignUpTransaction(c, db, uuid, c.suite.utf8(name).value, SealColumn(c, ehlo, rnd.nonce(0)), rnd);
            r.Success? && r.value.1 == Token(rnd.token) && SignedUp(c, db, r.value.0, uuid, name, ehlo, rnd)
  {
    SignUpAllOrNothing(c, db, uuid, c.suite.utf8(name).value, SealColumn(c, ehlo, rnd.nonce(0)), rnd);
    SealedColumnOpens(c, ehlo, rnd.nonce(0));
  }

  /** The handler once the reading is done: what it comes to for a claim that decodes. */
  lemma SignUpComesTo(c: Config, db: Db, uuid: Id, nameHex: string, ehloHex: string, rnd: Inputs)
    requires Consistent(db) && |rnd.private| == KEY_LEN && uuid in db.identities
    requires rnd.id !in Ids(db) && c.suite.hash(rnd.token) !in LiveTokens(db)
    ensures var row := db.identities[uuid];
            var claim := DecodeClaim(c, row, nameHex, ehloHex);
            var (db', reply) := Handle(c, db, SignUp(row.ip, nameHex, ehloHex), rnd);
            if claim.Success? && 1 <= claim.value.nameLen <= 64 && FindByName(db, claim.value.name).None?
            then
              var secret := SealColumn(c, claim.value.ehlo, rnd.nonce(0));
               var r := SignUpTransaction(c, db, uuid, claim.value.name, secret, rnd);
              (db', reply) == Outcome(db, r)
            else
              && db' == db
              && reply == Failed(if claim.Failure? then claim.error
                                 else if !(1 <= claim.value.nameLen <= 64) then Validation else Conflict)
  {
    var row := db.identities[uuid];
    SignUpReads(c, db, uuid, nameHex, ehloHex, rnd);
    SignUpAlone(c, db, row.ip, nameHex, ehloHex, rnd);
    var claim := DecodeClaim(c, row, nameHex, ehloHex);
    if claim.Success? {
      SignUpAllOrNothing(c, db, uuid, claim.value.name, SealColumn(c, claim.value.ehlo, rnd.nonce(0)), rnd);
    }
  }

  /** A sign-up from an address is accepted exactly when the device of that address sealed a name of 1 to
      64 bytes that is free and an ehlo. Then there is one new user with that name and the very ehlo
      sealed, and the device is linked to it; a refused sign-up changes nothing. */
  lemma SignUpIsExact(c: Config, db: Db, uuid: Id, private: Bytes, nameHex: string, ehloHex: string, rnd: Inputs)
    requires ValidConfig(c) && DbInv(c, db) && ValidInputs(rnd)
    requires uuid in db.identities && Holds(c, db.identities[uuid], private)
    requires rnd.id !in Ids(db) && c.suite.hash(rnd.token) !in LiveTokens(db)
    ensures var row := db.identities[uuid];
            var (db', reply) := Handle(c, db, SignUp(row.ip, nameHex, ehloHex), rnd);
            && (reply.Token? <==> exists name, ehlo :: ClaimsNew(c, db, row, private, nameHex, ehloHex, name, ehlo))
            && (forall name, ehlo | ClaimsNew(c, db, row, private, nameHex, ehloHex, name, ehlo) ::
                  reply == Token(rnd.token) && SignedUp(c, db, db', uuid, name, ehlo, rnd))
            && (!reply.Token? ==> reply.Failed? && db' == db)
  {
    SignUpComesTo(c, db, uuid, nameHex, ehloHex, rnd);
    SignUpFits(c, db, uuid, private, nameHex, ehloHex, rnd,
               Handle(c, db, SignUp(db.identities[uuid].ip, nameHex, ehloHex), rnd));
  }

  lemma SignUpFits(
    c: Config, db: Db, uuid: Id, private: Bytes, nameHex: string, ehloHex: string, rnd: Inputs, result: (Db, Reply)
  )
    requires ValidConfig(c) && DbInv(c, db) && ValidInputs(rnd)
    requires uuid in db.identities && Holds(c, db.identities[uuid], private)
    requires rnd.id !in Ids(db) && c.suite.hash(rnd.token) !in LiveTokens(db)
    requires var claim := DecodeClaim(c, db.identities[uuid], nameHex, ehloHex);
             if claim.Success? && 1 <= claim.value.nameLen <= 64 && FindByName(db, claim.value.name).None?
             then
               var secret := SealColumn(c, claim.value.ehlo, rnd.nonce(0));
               var r := SignUpTransaction(c, db, uuid, claim.value.name, secret, rnd);
               result == Outcome(db, r)
             else result.0 == db && result.1.Failed?
    ensures var row := db.identities[uuid];
            && (result.1.Token? <==> exists name, ehlo :: ClaimsNew(c, db, row, private, nameHex, ehloHex, name, ehlo))
            && (forall name, ehlo | ClaimsNew(c, db, row, private, nameHex, ehloHex, name, ehlo) ::
                  result.1 == Token(rnd.token) && SignedUp(c, db, result.0, uuid, name, ehlo, rnd))
            && (!result.1.Token? ==> result.1.Failed? && result.0 == db)
  {
    var row := db.identities[uuid];
    var claim := DecodeClaim(c, row, nameHex, ehloHex);
    var name, ehlo := DecryptFromClient(c, nameHex, row), DecryptFromClient(c, ehloHex, row);
    ClaimIsTwoEnvelopes(c, row, nameHex, ehloHex);
    ClaimIsRead(c, row, nameHex, ehloHex);
    forall n, e {
      ClaimsNewIsRead(c, db, row, private, nameHex, ehloHex, n, e);
    }
    if claim.Success? && 1 <= claim.value.nameLen <= 64 && FindByName(db, claim.value.name).None? {
      TransactionSignsUp(c, db, uuid, name.value, ehlo.value, rnd);
      assert ClaimsNew(c, db, row, private, nameHex, ehloHex, name.value, ehlo.value);
    }
  }

  /** From then on any device that seals the same name and ehlo signs in as the new user. */
  lemma NewUserSignsIn(
    c: Config, db: Db, db': Db, uuid: Id, name: Bytes, ehlo: Bytes, rnd: Inputs,
    device: Id, private: Bytes, nameHex: string, ehloHex: string, later: Inputs
  )
    requires ValidConfig(c) && DbInv(c, db') && SignedUp(c, db, db', uuid, name, ehlo, rnd)
    requires |later.private| == KEY_LEN && c.suite.hash(later.token) !in LiveTokens(db')
    requires device in db'.identities && Holds(c, db'.identities[device], private)
    requires SealedBy(c, db'.identities[device], private, nameHex, name)
    requires SealedBy(c, db'.identities[device], private, ehloHex, ehlo)
    ensures var row := db'.identities[device];
            Handle(c, db', SignIn(row.ip, nameHex, ehloHex), later) ==
            (db'.(identities := db'.identities[device := Linked(c, row, rnd.id, later.token, false)]),
             Token(later.token))
  {
    SignInIsExact(c, db', device, private, nameHex, ehloHex, later);
    assert ClaimsUser(c, db', db'.identities[device], private, nameHex, ehloHex, rnd.id);
  }
}
