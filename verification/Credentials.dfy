/** What each credential request must prove, exactly: when it is accepted, what the device sealed
    under its own key, and what changes then. */
module Credentials {
  import opened Wrappers
  import opened Hex
  import opened Crypto
  import opened Schema
  import opened Statements
  import opened Protocol
  import opened Races
  import opened Vault
  import opened Recovery
  import opened Isolation

  /** The hex text is an envelope of this text sealed under the device's own shared key. */
  predicate SealedBy(c: Config, row: Identity, private: Bytes, blob: string, text: Bytes) {
    && Decode(blob).Some? && |Decode(blob).value| >= NONCE_LEN
    && Decode(blob).value == Encrypt(c.suite, ClientKey(c, row, private), Decode(blob).value[..NONCE_LEN], text)
  }

  lemma ClaimIsTwoEnvelopes(c: Config, row: Identity, nameHex: string, ehloHex: string)
    ensures var name, ehlo := DecryptFromClient(c, nameHex, row), DecryptFromClient(c, ehloHex, row);
            var claim := DecodeClaim(c, row, nameHex, ehloHex);
            && (claim.Success? <==> name.Success? && ehlo.Success? && c.suite.utf8(name.value).Some?)
            && (claim.Success? ==> claim.value.name == c.suite.utf8(name.value).value && claim.value.ehlo == ehlo.value)
  {
  }

  /** The user owns this ehlo and is not deleted. */
  ghost predicate Proves(c: Config, db: Db, user: Id, ehlo: Bytes) {
    user in db.users && !db.users[user].isDeleted && Unsealed(c, db.users[user].ehloSecret) == Success(ehlo)
  }

  lemma ProofIsExact(c: Config, db: Db, user: Id, ehlo: Bytes)
    requires Sealed(c, db)
    ensures ProveEhlo(c, Lookup(db.users, user), ehlo).Success? <==> Proves(c, db, user, ehlo)
  {
    if user in db.users {
      assert Unsealed(c, db.users[user].ehloSecret).Success?;
    }
  }

  // ----- sign-in -----

  /** The device sealed the name and the ehlo of this user. */
  ghost predicate ClaimsUser(
    c: Config, db: Db, row: Identity, private: Bytes, nameHex: string, ehloHex: string, user: Id
  ) {
    exists name, ehlo ::
      && SealedBy(c, row, private, nameHex, name) && SealedBy(c, row, private, ehloHex, ehlo)
      && Proves(c, db, user, ehlo) && c.suite.utf8(name) == Some(db.users[user].name)
  }

  lemma ClaimStart(c: Config, db: Db, row: Identity, private: Bytes, nameHex: string, ehloHex: string, user: Id)
    requires ValidConfig(c) && DbInv(c, db) && DeviceKeysOk(c, row) && Holds(c, row, private)
    ensures ClaimsUser(c, db, row, private, nameHex, ehloHex, user) <==>
            && DecodeClaim(c, row, nameHex, ehloHex).Success?
            && var claim := DecodeClaim(c, row, nameHex, ehloHex).value;
               Proves(c, db, user, claim.ehlo) && claim.name == db.users[user].name
  {
    var name, ehlo := DecryptFromClient(c, nameHex, row), DecryptFromClient(c, ehloHex, row);
    ClaimIsTwoEnvelopes(c, row, nameHex, ehloHex);
    forall text {
      ServerReadsWhatDeviceSealed(c, row, private, nameHex, text);
    }
    forall text {
      ServerReadsWhatDeviceSealed(c, row, private, ehloHex, text);
    }
    if DecodeClaim(c, row, nameHex, ehloHex).Success? {
      assert SealedBy(c, row, private, nameHex, name.value) && SealedBy(c, row, private, ehloHex, ehlo.value);
    }
  }

  lemma NameDecides(c: Config, db: Db, name: string, ehlo: Bytes)
    requires DbInv(c, db)
    ensures ProveEhlo(c, FindByName(db, name), ehlo).Success? <==>
            exists u :: Proves(c, db, u, ehlo) && db.users[u].name == name
    ensures ProveEhlo(c, FindByName(db, name), ehlo).Success? ==>
            var u := FindByName(db, name).value.uuid; Proves(c, db, u, ehlo) && db.users[u].name == name
  {
    if FindByName(db, name).Some? {
      var u := FindByName(db, name).value.uuid;
      assert u in db.users && Lookup(db.users, u) == FindByName(db, name);
      ProofIsExact(c, db, u, ehlo);
      forall v | Proves(c, db, v, ehlo) && db.users[v].name == name ensures v == u {
      }
    }
  }

  /** A sign-in from an address is accepted exactly when the device of that address sealed the name
      and the ehlo of a user who is not deleted. Then that device is linked to that user, holds the
      new token and is unconfirmed; nothing else changes. A refused sign-in changes nothing. */
  lemma SignInIsExact(
    c: Config, db: Db, uuid: Id, private: Bytes, nameHex: string, ehloHex: string, rnd: Inputs
  )
    requires ValidConfig(c) && DbInv(c, db) && |rnd.private| == KEY_LEN
    requires uuid in db.identities && Holds(c, db.identities[uuid], private)
    requires c.suite.hash(rnd.token) !in LiveTokens(db)
    ensures var row := db.identities[uuid];
            var (db', reply) := Handle(c, db, SignIn(row.ip, nameHex, ehloHex), rnd);
            && (reply.Token? <==> exists u :: ClaimsUser(c, db, row, private, nameHex, ehloHex, u))
            && (forall u | ClaimsUser(c, db, row, private, nameHex, ehloHex, u) ::
                  reply == Token(rnd.token) &&
                  db' == db.(identities := db.identities[uuid := Linked(c, row, u, rnd.token, false)]))
            && (!reply.Token? ==> reply.Failed? && db' == db)
  {
    var row := db.identities[uuid];
    var req := SignIn(row.ip, nameHex, ehloHex);
    FindByIpIs(db, uuid);
    FinishRead(c, db, Start(req), rnd);
    forall u {
      ClaimStart(c, db, row, private, nameHex, ehloHex, u);
    }
    var claim := DecodeClaim(c, row, nameHex, ehloHex);
    if claim.Success? {
      SignInServed(c, db, uuid, claim.value.name, claim.value.ehlo, rnd);
    }
  }

  /** The two statements after the claim is decoded. */
  lemma SignInServed(c: Config, db: Db, uuid: Id, name: string, ehlo: Bytes, rnd: Inputs)
    requires DbInv(c, db) && |rnd.private| == KEY_LEN && uuid in db.identities
    requires c.suite.hash(rnd.token) !in LiveTokens(db)
    ensures var (db', reply) := Finish(c, db, SignInUser(uuid, name, ehlo), rnd);
            && (reply.Token? <==> exists u :: Proves(c, db, u, ehlo) && db.users[u].name == name)
            && (forall u | Proves(c, db, u, ehlo) && db.users[u].name == name ::
                  reply == Token(rnd.token) &&
                  db' == db.(identities := db.identities[uuid := Linked(c, db.identities[uuid], u, rnd.token, false)]))
            && (!reply.Token? ==> reply.Failed? && db' == db)
  {
    NameDecides(c, db, name, ehlo);
    FinishRead(c, db, SignInUser(uuid, name, ehlo), rnd);
    if ProveEhlo(c, FindByName(db, name), ehlo).Success? {
      var u := FindByName(db, name).value.uuid;
      SignInEnds(c, db, uuid, u, ehlo, rnd);
    }
  }

  // ----- refresh -----

  /** The device sealed its current token and the ehlo of its user. */
  ghost predicate ClaimsToken(c: Config, db: Db, row: Identity, private: Bytes, tokenHex: string, ehloHex: string) {
    && row.userId.Some?
    && exists text, ehlo ::
         && SealedBy(c, row, private, tokenHex, text) && SealedBy(c, row, private, ehloHex, ehlo)
         && c.suite.utf8(text).Some? && row.token == Some(c.suite.hash(c.suite.utf8(text).value))
         && Proves(c, db, row.userId.value, ehlo)
  }

  lemma RefreshDecodes(c: Config, row: Identity, tokenHex: string, ehloHex: string)
    requires Lawful(c.suite)
    ensures var text, ehlo := DecryptFromClient(c, tokenHex, row), DecryptFromClient(c, ehloHex, row);
            var sent := DecodeRefresh(c, row, tokenHex, ehloHex);
            && (sent.Success? <==>
                  && text.Success? && ehlo.Success? && c.suite.utf8(text.value).Some? && row.userId.Some?
                  && row.token == Some(c.suite.hash(c.suite.utf8(text.value).value)))
            && (sent.Success? ==> sent.value == ehlo.value)
  {
  }

  lemma RefreshClaim(c: Config, db: Db, row: Identity, private: Bytes, tokenHex: string, ehloHex: string)
    requires ValidConfig(c) && DbInv(c, db) && DeviceKeysOk(c, row) && Holds(c, row, private)
    ensures ClaimsToken(c, db, row, private, tokenHex, ehloHex) <==>
            && DecodeRefresh(c, row, tokenHex, ehloHex).Success? && row.userId.Some?
            && Proves(c, db, row.userId.value, DecodeRefresh(c, row, tokenHex, ehloHex).value)
  {
    var token, ehlo := DecryptFromClient(c, tokenHex, row), DecryptFromClient(c, ehloHex, row);
    RefreshDecodes(c, row, tokenHex, ehloHex);
    forall text {
      ServerReadsWhatDeviceSealed(c, row, private, tokenHex, text);
    }
    forall text {
      ServerReadsWhatDeviceSealed(c, row, private, ehloHex, text);
    }
    if DecodeRefresh(c, row, tokenHex, ehloHex).Success? {
      assert SealedBy(c, row, private, tokenHex, token.value) && SealedBy(c, row, private, ehloHex, ehlo.value);
    }
  }

  lemma RefreshFits(c: Config, db: Db, uuid: Id, token: string)
    requires Consistent(db) && uuid in db.identities && c.suite.hash(token) !in LiveTokens(db)
    ensures UpdateIdentity(db, uuid, RefreshChanges(c, token)) ==
            Success(db.(identities := db.identities[uuid := db.identities[uuid].(token := Some(c.suite.hash(token)))]))
  {
    assert forall i | i in db.identities :: db.identities[i].token != Some(c.suite.hash(token));
  }

  /** Refresh once the device and its ehlo are read. */
  lemma RefreshProved(c: Config, db: Db, row: Identity, ehlo: Bytes, rnd: Inputs)
    requires |rnd.private| == KEY_LEN
    ensures Finish(c, db, RefreshUser(row, ehlo), rnd) ==
            var proof := ProveEhlo(c, Lookup(db.users, row.userId.GetOr(Id(""))), ehlo);
            if proof.Success? then Finish(c, db, RefreshWrite(row.uuid), rnd) else (db, Failed(proof.error))
  {
    FinishRead(c, db, RefreshUser(row, ehlo), rnd);
  }

  lemma RefreshServed(c: Config, db: Db, uuid: Id, ehlo: Bytes, rnd: Inputs)
    requires DbInv(c, db) && |rnd.private| == KEY_LEN && uuid in db.identities
    requires db.identities[uuid].userId.Some? && c.suite.hash(rnd.token) !in LiveTokens(db)
    ensures var row := db.identities[uuid];
            var (db', reply) := Finish(c, db, RefreshUser(row, ehlo), rnd);
            if Proves(c, db, row.userId.value, ehlo) then
              && reply == Token(rnd.token)
              && db' == db.(identities := db.identities[uuid := row.(token := Some(c.suite.hash(rnd.token)))])
            else reply.Failed? && db' == db
  {
    var row := db.identities[uuid];
    ProofIsExact(c, db, row.userId.value, ehlo);
    RefreshProved(c, db, row, ehlo, rnd);
    RefreshWrites(c, db, uuid, rnd);
  }

  lemma RefreshWrites(c: Config, db: Db, uuid: Id, rnd: Inputs)
    requires Consistent(db) && |rnd.private| == KEY_LEN && uuid in db.identities
    requires c.suite.hash(rnd.token) !in LiveTokens(db)
    ensures Finish(c, db, RefreshWrite(uuid), rnd) ==
            (db.(identities := db.identities[uuid := db.identities[uuid].(token := Some(c.suite.hash(rnd.token)))]),
             Token(rnd.token))
  {
    RefreshFits(c, db, uuid, rnd.token);
    FinishWrite(c, db, RefreshWrite(uuid), rnd);
  }

  lemma RefreshStarts(c: Config, db: Db, uuid: Id, tokenHex: string, ehloHex: string, rnd: Inputs)
    requires Consistent(db) && |rnd.private| == KEY_LEN && uuid in db.identities
    ensures Handle(c, db, Refresh(db.identities[uuid].ip, tokenHex, ehloHex), rnd) ==
            var sent := DecodeRefresh(c, db.identities[uuid], tokenHex, ehloHex);
            if sent.Success? then Finish(c, db, RefreshUser(db.identities[uuid], sent.value), rnd)
            else (db, Failed(sent.error))
  {
    FindByIpIs(db, uuid);
    FinishRead(c, db, Start(Refresh(db.identities[uuid].ip, tokenHex, ehloHex)), rnd);
  }

  /** A refresh from an address is accepted exactly when the device of that address sealed its
      current token and the ehlo of its user, who is not deleted. Then only the token changes: the
      user, the address and the approval stay. A refused refresh changes nothing. */
  lemma RefreshIsExact(
    c: Config, db: Db, uuid: Id, private: Bytes, tokenHex: string, ehloHex: string, rnd: Inputs
  )
    requires ValidConfig(c) && DbInv(c, db) && |rnd.private| == KEY_LEN
    requires uuid in db.identities && Holds(c, db.identities[uuid], private)
    requires c.suite.hash(rnd.token) !in LiveTokens(db)
    ensures var row := db.identities[uuid];
            var (db', reply) := Handle(c, db, Refresh(row.ip, tokenHex, ehloHex), rnd);
            if ClaimsToken(c, db, row, private, tokenHex, ehloHex) then
              && reply == Token(rnd.token)
              && db' == db.(identities := db.identities[uuid := row.(token := Some(c.suite.hash(rnd.token)))])
            else reply.Failed? && db' == db
  {
    var row := db.identities[uuid];
    RefreshClaim(c, db, row, private, tokenHex, ehloHex);
    RefreshStarts(c, db, uuid, tokenHex, ehloHex, rnd);
    var sent := DecodeRefresh(c, row, tokenHex, ehloHex);
    if sent.Success? {
      RefreshServed(c, db, uuid, sent.value, rnd);
    }
  }

  // ----- re-sign -----

  /** The device sealed the ehlo of its user. */
  ghost predicate ClaimsEhlo(c: Config, db: Db, row: Identity, private: Bytes, ehloHex: string) {
    && row.userId.Some?
    && exists ehlo :: SealedBy(c, row, private, ehloHex, ehlo) && Proves(c, db, row.userId.value, ehlo)
  }

  lemma ResignClaim(c: Config, db: Db, row: Identity, private: Bytes, ehloHex: string)
    requires ValidConfig(c) && DbInv(c, db) && DeviceKeysOk(c, row) && Holds(c, row, private)
    ensures ClaimsEhlo(c, db, row, private, ehloHex) <==>
            && DecodeResignEhlo(c, row, ehloHex).Success? && row.userId.Some?
            && Proves(c, db, row.userId.value, DecodeResignEhlo(c, row, ehloHex).value)
  {
    var ehlo := DecryptFromClient(c, ehloHex, row);
    forall text {
      ServerReadsWhatDeviceSealed(c, row, private, ehloHex, text);
    }
    if DecodeResignEhlo(c, row, ehloHex).Success? {
      assert SealedBy(c, row, private, ehloHex, ehlo.value);
    }
  }

  /** No other device holds the address. */
  ghost predicate AddressFree(db: Db, uuid: Id, ip: Ip) {
    forall i | i in db.identities && i != uuid :: db.identities[i].ip != ip
  }

  lemma ResignFits(db: Db, uuid: Id, ip: Ip)
    requires Consistent(db) && uuid in db.identities
    ensures UpdateIdentity(db, uuid, ResignChanges(ip)) ==
            if AddressFree(db, uuid, ip)
            then Success(db.(identities := db.identities[uuid := db.identities[uuid].(ip := ip, confirmed := false)]))
            else Failure(UniqueViolation)
  {
  }

  /** Re-sign once the device and its ehlo are read. */
  lemma ResignProved(c: Config, db: Db, row: Identity, ip: Ip, ehlo: Bytes, rnd: Inputs)
    requires |rnd.private| == KEY_LEN
    ensures Finish(c, db, ResignUser(row, ip, ehlo), rnd) ==
            var proof := ProveEhlo(c, Lookup(db.users, row.userId.GetOr(Id(""))), ehlo);
            if proof.Success? then Finish(c, db, ResignWrite(row.uuid, ip), rnd) else (db, Failed(proof.error))
  {
    FinishRead(c, db, ResignUser(row, ip, ehlo), rnd);
  }

  lemma ResignServed(c: Config, db: Db, uuid: Id, ip: Ip, ehlo: Bytes, rnd: Inputs)
    requires DbInv(c, db) && |rnd.private| == KEY_LEN && uuid in db.identities
    requires db.identities[uuid].userId.Some?
    ensures var row := db.identities[uuid];
            var (db', reply) := Finish(c, db, ResignUser(row, ip, ehlo), rnd);
            if Proves(c, db, row.userId.value, ehlo) && AddressFree(db, uuid, ip) then
              && reply == Unit
              && db' == db.(identities := db.identities[uuid := row.(ip := ip, confirmed := false)])
            else reply.Failed? && db' == db
  {
    var row := db.identities[uuid];
    ProofIsExact(c, db, row.userId.value, ehlo);
    ResignProved(c, db, row, ip, ehlo, rnd);
    ResignWrites(c, db, uuid, ip, rnd);
  }

  lemma ResignWrites(c: Config, db: Db, uuid: Id, ip: Ip, rnd: Inputs)
    requires Consistent(db) && |rnd.private| == KEY_LEN && uuid in db.identities
    ensures Finish(c, db, ResignWrite(uuid, ip), rnd) ==
            if AddressFree(db, uuid, ip)
            then (db.(identities := db.identities[uuid := db.identities[uuid].(ip := ip, confirmed := false)]), Unit)
            else (db, Failed(Database(UniqueViolation)))
  {
    ResignFits(db, uuid, ip);
    FinishWrite(c, db, ResignWrite(uuid, ip), rnd);
  }

  lemma ResignStarts(c: Config, db: Db, uuid: Id, ip: Ip, tokenHex: string, ehloHex: string, rnd: Inputs)
    requires Consistent(db) && |rnd.private| == KEY_LEN && uuid in db.identities
    requires Decode(tokenHex).Some? && c.suite.utf8(Decode(tokenHex).value).Some?
    requires db.identities[uuid].token == Some(c.suite.hash(c.suite.utf8(Decode(tokenHex).value).value))
    ensures Handle(c, db, Resign(ip, tokenHex, ehloHex), rnd) ==
            var row := db.identities[uuid];
            var sent := DecodeResignEhlo(c, row, ehloHex);
            if sent.Success? then Finish(c, db, ResignUser(row, ip, sent.value), rnd) else (db, Failed(sent.error))
  {
    var row := db.identities[uuid];
    assert FindByToken(db, row.token.value) == Some(row);
    FinishRead(c, db, Start(Resign(ip, tokenHex, ehloHex)), rnd);
  }

  /** A re-sign with the token of a device (sent as plain hex) is accepted exactly when that device
      sealed the ehlo of its user, who is not deleted, and no other device holds the new address.
      Then the device has the new address and has lost its approval; token and user stay. */
  lemma ResignIsExact(
    c: Config, db: Db, uuid: Id, private: Bytes, ip: Ip, tokenHex: string, ehloHex: string, rnd: Inputs
  )
    requires ValidConfig(c) && DbInv(c, db) && |rnd.private| == KEY_LEN
    requires uuid in db.identities && Holds(c, db.identities[uuid], private)
    requires Decode(tokenHex).Some? && c.suite.utf8(Decode(tokenHex).value).Some?
    requires db.identities[uuid].token == Some(c.suite.hash(c.suite.utf8(Decode(tokenHex).value).value))
    ensures var row := db.identities[uuid];
            var (db', reply) := Handle(c, db, Resign(ip, tokenHex, ehloHex), rnd);
            if ClaimsEhlo(c, db, row, private, ehloHex) && AddressFree(db, uuid, ip) then
              && reply == Unit
              && db' == db.(identities := db.identities[uuid := row.(ip := ip, confirmed := false)])
            else reply.Failed? && db' == db
  {
    var row := db.identities[uuid];
    ResignClaim(c, db, row, private, ehloHex);
    ResignStarts(c, db, uuid, ip, tokenHex, ehloHex, rnd);
    var sent := DecodeResignEhlo(c, row, ehloHex);
    if sent.Success? {
      ResignServed(c, db, uuid, ip, sent.value, rnd);
    }
  }

  // ----- validate_auth -----

  /** A token authenticates exactly the device that holds it, from the device's own address, while
      the device is confirmed and its user is not deleted. */
  lemma AuthenticationIsExact(c: Config, db: Db, token: Option<string>, ip: Ip, row: Identity)
    requires DbInv(c, db)
    ensures Authenticate(c, db, token, ip) == Success(row) <==>
            && token.Some? && row.uuid in db.identities && db.identities[row.uuid] == row
            && row.token == Some(c.suite.hash(token.value)) && row.ip == ip && row.confirmed
            && row.userId.Some? && !db.users[row.userId.value].isDeleted
  {
    if token.Some? && FindByToken(db, c.suite.hash(token.value)).Some? {
      var found := FindByToken(db, c.suite.hash(token.value)).value;
      assert found.uuid in db.identities && db.identities[found.uuid] == found;
    }
  }

  // ----- under interleaving -----

  /** A request comes to its write only by proving an ehlo in the step before: sign-in that of the user
      it links, refresh and re-sign that of the user the device had when its row was read. What that
      proof is still worth at the write is the subject of LateWrites. */
  lemma WritesNeedProof(c: Config, db: Db, pc: Pc, rnd: Inputs)
    requires DbInv(c, db) && Reads(pc) && !pc.Authed? && !pc.Start? && Read(c, db, pc, rnd).Success?
    ensures match Read(c, db, pc, rnd).value
            case LinkWrite(uuid, user) =>
              pc.SignInUser? && pc.uuid == uuid && Proves(c, db, user, pc.ehlo) && db.users[user].name == pc.name
            case RefreshWrite(uuid) =>
              pc.RefreshUser? && pc.row.uuid == uuid && Proves(c, db, pc.row.userId.GetOr(Id("")), pc.ehlo)
            case ResignWrite(uuid, ip) =>
              && pc.ResignUser? && pc.row.uuid == uuid && pc.ip == ip
              && Proves(c, db, pc.row.userId.GetOr(Id("")), pc.ehlo)
            case _ => true
  {
    match pc
    case SignInUser(uuid, name, ehlo) => NameDecides(c, db, name, ehlo);
    case RefreshUser(row, ehlo) => ProofIsExact(c, db, row.userId.GetOr(Id("")), ehlo);
    case ResignUser(row, ip, ehlo) => ProofIsExact(c, db, row.userId.GetOr(Id("")), ehlo);
    case _ => OtherReadsComeToNoLink(c, db, pc, rnd);
  }

  /** The write of a refresh goes by uuid, to the row as it is by then: it changes the token and
      nothing else, whatever happened to the row since it was read, or fails if the row is gone. */
  lemma LateRefresh(c: Config, db: Db, uuid: Id, rnd: Inputs)
    requires Consistent(db) && |rnd.private| == KEY_LEN && c.suite.hash(rnd.token) !in LiveTokens(db)
    ensures Next(c, db, RefreshWrite(uuid), rnd) ==
            if uuid in db.identities
            then (db.(identities := db.identities[uuid :=
                    db.identities[uuid].(token := Some(c.suite.hash(rnd.token)))]),
                  Done(Token(rnd.token)))
            else (db, Done(Failed(Database(RowNotFound))))
  {
    if uuid in db.identities {
      RefreshFits(c, db, uuid, rnd.token);
    }
  }

  /** The write of a re-sign changes address and approval of the row as it is by then; it fails if
      the row is gone or another device took the address. */
  lemma LateResign(c: Config, db: Db, uuid: Id, ip: Ip, rnd: Inputs)
    requires Consistent(db) && |rnd.private| == KEY_LEN
    ensures Next(c, db, ResignWrite(uuid, ip), rnd) ==
            if uuid !in db.identities then (db, Done(Failed(Database(RowNotFound))))
            else if !AddressFree(db, uuid, ip) then (db, Done(Failed(Database(UniqueViolation))))
            else (db.(identities := db.identities[uuid := db.identities[uuid].(ip := ip, confirmed := false)]),
                  Done(Unit))
  {
    if uuid in db.identities {
      ResignFits(db, uuid, ip);
    }
  }

  /** The write of a sign-in links the row as it is by then to the user that was proved. */
  lemma LateLink(c: Config, db: Db, uuid: Id, user: Id, rnd: Inputs)
    requires Consistent(db) && |rnd.private| == KEY_LEN && user in db.users
    requires c.suite.hash(rnd.token) !in LiveTokens(db)
    ensures Next(c, db, LinkWrite(uuid, user), rnd) ==
            if uuid in db.identities
            then (db.(identities := db.identities[uuid := Linked(c, db.identities[uuid], user, rnd.token, false)]),
                  Done(Token(rnd.token)))
            else (db, Done(Failed(Database(RowNotFound))))
  {
    if uuid in db.identities {
      LinkFits(c, db, uuid, user, rnd.token);
    }
  }

  lemma OtherReadsComeToNoLink(c: Config, db: Db, pc: Pc, rnd: Inputs)
    requires Reads(pc) && !pc.Authed? && !pc.Start? && Read(c, db, pc, rnd).Success?
    requires !pc.SignInUser? && !pc.RefreshUser? && !pc.ResignUser?
    ensures var next := Read(c, db, pc, rnd).value;
            !next.LinkWrite? && !next.RefreshWrite? && !next.ResignWrite?
  {
  }

  /** Only the write of a sign-in or the transaction of a sign-up changes the user of a device, to
      the user that was proved or created, and it takes the approval away in the same statement. */
  lemma OnlyLinkChangesUser(c: Config, db: Db, pc: Pc, rnd: Inputs, i: Id)
    requires !pc.Done? && |rnd.private| == KEY_LEN
    requires i in db.identities && i in Next(c, db, pc, rnd).0.identities
    ensures var row := Next(c, db, pc, rnd).0.identities[i];
            row.userId != db.identities[i].userId ==>
              && !row.confirmed && row.token == Some(c.suite.hash(rnd.token))
              && ((pc.LinkWrite? && pc.uuid == i && row.userId == Some(pc.userId)) ||
                  (pc.SignUpTx? && pc.uuid == i && row.userId == Some(rnd.id)))
  {
    if !Reads(pc) && Write(c, db, pc, rnd).Success? {
      WriteLinks(c, db, pc, rnd, i);
    }
  }

  lemma WriteLinks(c: Config, db: Db, pc: Pc, rnd: Inputs, i: Id)
    requires !pc.Done? && !Reads(pc) && |rnd.private| == KEY_LEN && Write(c, db, pc, rnd).Success?
    requires i in db.identities && i in Write(c, db, pc, rnd).value.0.identities
    ensures var row := Write(c, db, pc, rnd).value.0.identities[i];
            row.userId != db.identities[i].userId ==>
              && !row.confirmed && row.token == Some(c.suite.hash(rnd.token))
              && ((pc.LinkWrite? && pc.uuid == i && row.userId == Some(pc.userId)) ||
                  (pc.SignUpTx? && pc.uuid == i && row.userId == Some(rnd.id)))
  {
  }
}
