/** Refresh, re-sign and sign-in prove something about a device row and then write by uuid, with other
    requests in between. When the late write amounts to the atomic request, exactly, and what comes of
    it otherwise. */
module LateWrites {
  import opened Wrappers
  import opened Hex
  import opened Crypto
  import opened Schema
  import opened Statements
  import opened Protocol
  import opened Effects
  import opened Races
  import opened Vault
  import opened Recovery
  import opened Credentials

  function WithToken(c: Config, db: Db, uuid: Id, token: string): Db
    requires uuid in db.identities
  {
    db.(identities := db.identities[uuid := db.identities[uuid].(token := Some(c.suite.hash(token)))])
  }

  function WithLink(c: Config, db: Db, uuid: Id, user: Id, token: string): Db
    requires uuid in db.identities
  {
    db.(identities := db.identities[uuid := Linked(c, db.identities[uuid], user, token, false)])
  }

  lemma ProofRefuses(c: Config, user: Option<User>, ehlo: Bytes)
    ensures ProveEhlo(c, user, ehlo).Failure? ==> Refusal(ProveEhlo(c, user, ehlo).error)
  {
  }

  /** Two writes of a fresh token differ unless they are to the same device. */
  lemma FreshTokenShows(c: Config, db: Db, uuid: Id, token: string)
    requires uuid in db.identities && c.suite.hash(token) !in LiveTokens(db)
    ensures db.identities[uuid].token != Some(c.suite.hash(token))
  {
  }

  // ----- refresh -----

  /** The device still has the address, and what it sealed still proves its token and its user. */
  ghost predicate RefreshStands(
    c: Config, db: Db, uuid: Id, ip: Ip, private: Bytes, tokenHex: string, ehloHex: string
  ) {
    && uuid in db.identities && db.identities[uuid].ip == ip
    && ClaimsToken(c, db, db.identities[uuid], private, tokenHex, ehloHex)
  }

  lemma RefreshRefuses(c: Config, row: Identity, tokenHex: string, ehloHex: string)
    ensures var sent := DecodeRefresh(c, row, tokenHex, ehloHex); sent.Failure? ==> Refusal(sent.error)
  {
    DecryptRefuses(c, tokenHex, row);
    DecryptRefuses(c, ehloHex, row);
  }

  /** An atomic refresh is refused by the handler itself, or writes to the device of its address. */
  lemma RefreshAlone(c: Config, db: Db, ip: Ip, tokenHex: string, ehloHex: string, rnd: Inputs)
    requires Consistent(db) && |rnd.private| == KEY_LEN && c.suite.hash(rnd.token) !in LiveTokens(db)
    ensures var (db', reply) := Handle(c, db, Refresh(ip, tokenHex, ehloHex), rnd);
            || (db' == db && reply.Failed? && Refusal(reply.error))
            || exists v | v in db.identities :: db.identities[v].ip == ip && db' == WithToken(c, db, v, rnd.token)
  {
    FinishRead(c, db, Start(Refresh(ip, tokenHex, ehloHex)), rnd);
    if FindByIp(db, ip).Some? {
      var row := FindByIp(db, ip).value;
      assert row.uuid in db.identities && db.identities[row.uuid] == row;
      RefreshRefuses(c, row, tokenHex, ehloHex);
      if DecodeRefresh(c, row, tokenHex, ehloHex).Success? {
        RefreshEnds(c, db, row.uuid, DecodeRefresh(c, row, tokenHex, ehloHex).value, rnd);
      }
    }
  }

  lemma RefreshEnds(c: Config, db: Db, uuid: Id, ehlo: Bytes, rnd: Inputs)
    requires Consistent(db) && |rnd.private| == KEY_LEN && c.suite.hash(rnd.token) !in LiveTokens(db)
    requires uuid in db.identities
    ensures var (db', reply) := Finish(c, db, RefreshUser(db.identities[uuid], ehlo), rnd);
            (db' == db && reply.Failed? && Refusal(reply.error)) || db' == WithToken(c, db, uuid, rnd.token)
  {
    var row := db.identities[uuid];
    ProofRefuses(c, Lookup(db.users, row.userId.GetOr(Id(""))), ehlo);
    RefreshProved(c, db, row, ehlo, rnd);
    RefreshWrites(c, db, uuid, rnd);
  }

  lemma RefreshHere(
    c: Config, db: Db, uuid: Id, private: Bytes, tokenHex: string, ehloHex: string, rnd: Inputs, atomic: (Db, Reply)
  )
    requires Consistent(db) && |rnd.private| == KEY_LEN && c.suite.hash(rnd.token) !in LiveTokens(db)
    requires uuid in db.identities
    requires if ClaimsToken(c, db, db.identities[uuid], private, tokenHex, ehloHex)
             then atomic == (WithToken(c, db, uuid, rnd.token), Token(rnd.token))
             else atomic.1.Failed? && atomic.0 == db
    ensures Next(c, db, RefreshWrite(uuid), rnd) == (atomic.0, Done(atomic.1)) <==>
            ClaimsToken(c, db, db.identities[uuid], private, tokenHex, ehloHex)
  {
    LateRefresh(c, db, uuid, rnd);
  }

  lemma RefreshElsewhere(c: Config, db: Db, uuid: Id, ip: Ip, rnd: Inputs, atomic: (Db, Reply))
    requires Consistent(db) && |rnd.private| == KEY_LEN && c.suite.hash(rnd.token) !in LiveTokens(db)
    requires uuid in db.identities ==> db.identities[uuid].ip != ip
    requires || (atomic.0 == db && atomic.1.Failed? && Refusal(atomic.1.error))
             || exists v | v in db.identities :: db.identities[v].ip == ip && atomic.0 == WithToken(c, db, v, rnd.token)
    ensures Next(c, db, RefreshWrite(uuid), rnd) != (atomic.0, Done(atomic.1))
  {
    LateRefresh(c, db, uuid, rnd);
    if uuid in db.identities {
      FreshTokenShows(c, db, uuid, rnd.token);
      assert WithToken(c, db, uuid, rnd.token).identities[uuid].token == Some(c.suite.hash(rnd.token));
    } else if v :| v in db.identities && db.identities[v].ip == ip && atomic.0 == WithToken(c, db, v, rnd.token) {
      FreshTokenShows(c, db, v, rnd.token);
      assert atomic.0.identities[v].token == Some(c.suite.hash(rnd.token));
    }
  }

  /** Whatever happened since the refresh proved its token and ehlo: its write is the atomic refresh at
      that moment if and only if the device still has the address and the proof still stands. */
  lemma RefreshLinearizesExactly(
    c: Config, db: Db, uuid: Id, ip: Ip, private: Bytes, tokenHex: string, ehloHex: string, rnd: Inputs
  )
    requires ValidConfig(c) && DbInv(c, db) && |rnd.private| == KEY_LEN
    requires uuid in db.identities ==> Holds(c, db.identities[uuid], private)
    requires c.suite.hash(rnd.token) !in LiveTokens(db)
    ensures AsAtomic(c, db, RefreshWrite(uuid), Refresh(ip, tokenHex, ehloHex), rnd) <==>
            RefreshStands(c, db, uuid, ip, private, tokenHex, ehloHex)
  {
    var atomic := Handle(c, db, Refresh(ip, tokenHex, ehloHex), rnd);
    if uuid in db.identities && db.identities[uuid].ip == ip {
      RefreshIsExact(c, db, uuid, private, tokenHex, ehloHex, rnd);
      RefreshHere(c, db, uuid, private, tokenHex, ehloHex, rnd, atomic);
    } else {
      RefreshAlone(c, db, ip, tokenHex, ehloHex, rnd);
      RefreshElsewhere(c, db, uuid, ip, rnd, atomic);
    }
  }

  /** The address and the token are the device's still, and the user it has by now is there, is not
      deleted, and owns the ehlo. */
  ghost predicate RefreshCheck(c: Config, db: Db, uuid: Id, ip: Ip, token: Option<string>, ehlo: Bytes) {
    && uuid in db.identities && db.identities[uuid].ip == ip && db.identities[uuid].token == token
    && db.identities[uuid].userId.Some? && Proves(c, db, db.identities[uuid].userId.value, ehlo)
  }

  /** The keys of a device never change, so of what a refresh read from the row, and opened to this
      ehlo, only that is left to check at the write. */
  lemma RefreshStillStands(
    c: Config, row: Identity, db: Db, ip: Ip, private: Bytes, tokenHex: string, ehloHex: string, ehlo: Bytes
  )
    requires ValidConfig(c) && DbInv(c, db) && Holds(c, row, private)
    requires DecodeRefresh(c, row, tokenHex, ehloHex) == Success(ehlo)
    requires row.uuid in db.identities ==> SameKeys(row, db.identities[row.uuid])
    ensures RefreshStands(c, db, row.uuid, ip, private, tokenHex, ehloHex) <==>
            RefreshCheck(c, db, row.uuid, ip, row.token, ehlo)
  {
    RefreshDecodes(c, row, tokenHex, ehloHex);
    if row.uuid in db.identities {
      var now := db.identities[row.uuid];
      SameKeysSameText(c, row, now, tokenHex);
      SameKeysSameText(c, row, now, ehloHex);
      RefreshClaim(c, db, now, private, tokenHex, ehloHex);
      RefreshDecodes(c, now, tokenHex, ehloHex);
    }
  }

  lemma SameKeysSameText(c: Config, a: Identity, b: Identity, text: string)
    requires SameKeys(a, b)
    ensures DecryptFromClient(c, text, a) == DecryptFromClient(c, text, b)
  {
    assert DeviceKey(c, a) == DeviceKey(c, b);
  }

  /** The failing run, from any database: a refresh proves the ehlo of the device's user a, a sign-in
      then links the device to user b, and the refresh still goes through: the token it replies with
      is live on a device of user b. */
  lemma RefreshAfterRelink(c: Config, db: Db, uuid: Id, b: Id, ehlo: Bytes, link: Inputs, rnd: Inputs)
    requires DbInv(c, db) && |link.private| == KEY_LEN && |rnd.private| == KEY_LEN
    requires uuid in db.identities && b in db.users
    requires db.identities[uuid].userId.Some? && Proves(c, db, db.identities[uuid].userId.value, ehlo)
    requires c.suite.hash(link.token) !in LiveTokens(db) && c.suite.hash(rnd.token) !in LiveTokens(db)
    requires c.suite.hash(rnd.token) != c.suite.hash(link.token)
    ensures Next(c, db, RefreshUser(db.identities[uuid], ehlo), rnd) == (db, RefreshWrite(uuid))
    ensures var relinked := Next(c, db, LinkWrite(uuid, b), link).0;
            var (after, pc) := Next(c, relinked, RefreshWrite(uuid), rnd);
            && pc == Done(Token(rnd.token)) && uuid in after.identities
            && after.identities[uuid].userId == Some(b)
            && after.identities[uuid].token == Some(c.suite.hash(rnd.token))
  {
    RefreshProves(c, db, db.identities[uuid], ehlo, rnd);
    LateLink(c, db, uuid, b, link);
    TokensAfterWrite(c, db, uuid, Linked(c, db.identities[uuid], b, link.token, false));
    RefreshOnRow(c, WithLink(c, db, uuid, b, link.token), uuid, rnd);
  }

  lemma RefreshProves(c: Config, db: Db, row: Identity, ehlo: Bytes, rnd: Inputs)
    requires Sealed(c, db) && |rnd.private| == KEY_LEN && row.userId.Some? && Proves(c, db, row.userId.value, ehlo)
    ensures Next(c, db, RefreshUser(row, ehlo), rnd) == (db, RefreshWrite(row.uuid))
  {
    ProofIsExact(c, db, row.userId.value, ehlo);
  }

  lemma TokensAfterWrite(c: Config, db: Db, uuid: Id, row: Identity)
    ensures LiveTokens(db.(identities := db.identities[uuid := row])) <=
            LiveTokens(db) + (if row.token.Some? then {row.token.value} else {})
  {
  }

  /** The write of a refresh, with as much of the invariant as it needs. */
  lemma RefreshOnRow(c: Config, db: Db, uuid: Id, rnd: Inputs)
    requires |rnd.private| == KEY_LEN && uuid in db.identities && db.identities[uuid].uuid == uuid
    requires UniqueIps(db.identities) && c.suite.hash(rnd.token) !in LiveTokens(db)
    requires db.identities[uuid].userId.Some? ==> db.identities[uuid].userId.value in db.users
    ensures Next(c, db, RefreshWrite(uuid), rnd) == (WithToken(c, db, uuid, rnd.token), Done(Token(rnd.token)))
  {
    assert forall i | i in db.identities :: db.identities[i].token != Some(c.suite.hash(rnd.token));
  }

  /** Two refreshes of one device that both proved its token both succeed; the token of the first is
      dead by the time its reply can be used. */
  lemma TwoRefreshesOneToken(c: Config, db: Db, uuid: Id, first: Inputs, second: Inputs)
    requires Consistent(db) && |first.private| == KEY_LEN && |second.private| == KEY_LEN
    requires uuid in db.identities
    requires c.suite.hash(first.token) !in LiveTokens(db) && c.suite.hash(second.token) !in LiveTokens(db)
    requires c.suite.hash(first.token) != c.suite.hash(second.token)
    ensures var (mid, one) := Next(c, db, RefreshWrite(uuid), first);
            var (after, two) := Next(c, mid, RefreshWrite(uuid), second);
            && one == Done(Token(first.token)) && two == Done(Token(second.token))
            && c.suite.hash(second.token) in LiveTokens(after) && c.suite.hash(first.token) !in LiveTokens(after)
  {
    LateRefresh(c, db, uuid, first);
    var mid := WithToken(c, db, uuid, first.token);
    TokensAfterWrite(c, db, uuid, mid.identities[uuid]);
    RefreshOnRow(c, mid, uuid, second);
    var after := WithToken(c, mid, uuid, second.token);
    assert after.identities[uuid].token == Some(c.suite.hash(second.token));
    forall i | i in after.identities ensures after.identities[i].token != Some(c.suite.hash(first.token)) {
      if i != uuid {
        FreshTokenShows(c, db, i, first.token);
      }
    }
  }

  // ----- sign-in -----

  /** The device still has the address, and what it sealed still proves this user. */
  ghost predicate SignInStands(
    c: Config, db: Db, uuid: Id, ip: Ip, private: Bytes, nameHex: string, ehloHex: string, user: Id
  ) {
    && uuid in db.identities && db.identities[uuid].ip == ip
    && ClaimsUser(c, db, db.identities[uuid], private, nameHex, ehloHex, user)
  }

  /** An atomic sign-in is refused by the handler itself, or links the device of its address. */
  lemma SignInAlone(c: Config, db: Db, ip: Ip, nameHex: string, ehloHex: string, rnd: Inputs)
    requires Consistent(db) && |rnd.private| == KEY_LEN && c.suite.hash(rnd.token) !in LiveTokens(db)
    ensures var (db', reply) := Handle(c, db, SignIn(ip, nameHex, ehloHex), rnd);
            || (db' == db && reply.Failed? && Refusal(reply.error))
            || exists v, u | v in db.identities :: db.identities[v].ip == ip && db' == WithLink(c, db, v, u, rnd.token)
  {
    FinishRead(c, db, Start(SignIn(ip, nameHex, ehloHex)), rnd);
    if FindByIp(db, ip).Some? {
      var row := FindByIp(db, ip).value;
      assert row.uuid in db.identities && db.identities[row.uuid] == row;
      ClaimRefuses(c, row, nameHex, ehloHex);
      var claim := DecodeClaim(c, row, nameHex, ehloHex);
      if claim.Success? {
        SignInEndsWith(c, db, row.uuid, claim.value.name, claim.value.ehlo, rnd);
      }
    }
  }

  lemma SignInEndsWith(c: Config, db: Db, uuid: Id, name: string, ehlo: Bytes, rnd: Inputs)
    requires Consistent(db) && |rnd.private| == KEY_LEN && c.suite.hash(rnd.token) !in LiveTokens(db)
    requires uuid in db.identities
    ensures var (db', reply) := Finish(c, db, SignInUser(uuid, name, ehlo), rnd);
            || (db' == db && reply.Failed? && Refusal(reply.error))
            || exists u :: db' == WithLink(c, db, uuid, u, rnd.token)
  {
    var user := FindByName(db, name);
    ProofRefuses(c, user, ehlo);
    FinishRead(c, db, SignInUser(uuid, name, ehlo), rnd);
    if user.Some? && ProveEhlo(c, user, ehlo).Success? {
      assert user.value.uuid in db.users;
      LinkEnds(c, db, uuid, user.value.uuid, rnd);
    }
  }

  lemma LinkEnds(c: Config, db: Db, uuid: Id, user: Id, rnd: Inputs)
    requires Consistent(db) && |rnd.private| == KEY_LEN && c.suite.hash(rnd.token) !in LiveTokens(db)
    requires uuid in db.identities && user in db.users
    ensures Finish(c, db, LinkWrite(uuid, user), rnd).0 == WithLink(c, db, uuid, user, rnd.token)
  {
    LinkFits(c, db, uuid, user, rnd.token);
    FinishWrite(c, db, LinkWrite(uuid, user), rnd);
  }

  lemma SignInHere(
    c: Config, db: Db, uuid: Id, private: Bytes, nameHex: string, ehloHex: string, user: Id, rnd: Inputs,
    atomic: (Db, Reply)
  )
    requires Consistent(db) && |rnd.private| == KEY_LEN && c.suite.hash(rnd.token) !in LiveTokens(db)
    requires uuid in db.identities && user in db.users
    requires atomic.1.Token? <==> exists u :: ClaimsUser(c, db, db.identities[uuid], private, nameHex, ehloHex, u)
    requires forall u | ClaimsUser(c, db, db.identities[uuid], private, nameHex, ehloHex, u) ::
               atomic == (WithLink(c, db, uuid, u, rnd.token), Token(rnd.token))
    ensures Next(c, db, LinkWrite(uuid, user), rnd) == (atomic.0, Done(atomic.1)) <==>
            ClaimsUser(c, db, db.identities[uuid], private, nameHex, ehloHex, user)
  {
    LateLink(c, db, uuid, user, rnd);
    if atomic.1.Token? {
      var u :| ClaimsUser(c, db, db.identities[uuid], private, nameHex, ehloHex, u);
      assert WithLink(c, db, uuid, u, rnd.token).identities[uuid].userId == Some(u);
      assert WithLink(c, db, uuid, user, rnd.token).identities[uuid].userId == Some(user);
    }
  }

  lemma SignInElsewhere(c: Config, db: Db, uuid: Id, ip: Ip, user: Id, rnd: Inputs, atomic: (Db, Reply))
    requires Consistent(db) && |rnd.private| == KEY_LEN && c.suite.hash(rnd.token) !in LiveTokens(db)
    requires user in db.users && (uuid in db.identities ==> db.identities[uuid].ip != ip)
    requires || (atomic.0 == db && atomic.1.Failed? && Refusal(atomic.1.error))
             || exists v, u | v in db.identities ::
                  db.identities[v].ip == ip && atomic.0 == WithLink(c, db, v, u, rnd.token)
    ensures Next(c, db, LinkWrite(uuid, user), rnd) != (atomic.0, Done(atomic.1))
  {
    LateLink(c, db, uuid, user, rnd);
    if uuid in db.identities {
      FreshTokenShows(c, db, uuid, rnd.token);
      assert WithLink(c, db, uuid, user, rnd.token).identities[uuid].token == Some(c.suite.hash(rnd.token));
    } else if v, u :| v in db.identities && db.identities[v].ip == ip && atomic.0 == WithLink(c, db, v, u, rnd.token) {
      FreshTokenShows(c, db, v, rnd.token);
      assert atomic.0.identities[v].token == Some(c.suite.hash(rnd.token));
    }
  }

  /** The write of a sign-in is the atomic sign-in at that moment if and only if the device still has
      the address and still proves the user, that is, the user is not deleted by then. */
  lemma SignInLinearizesExactly(
    c: Config, db: Db, uuid: Id, ip: Ip, private: Bytes, nameHex: string, ehloHex: string, user: Id, rnd: Inputs
  )
    requires ValidConfig(c) && DbInv(c, db) && |rnd.private| == KEY_LEN && user in db.users
    requires uuid in db.identities ==> Holds(c, db.identities[uuid], private)
    requires c.suite.hash(rnd.token) !in LiveTokens(db)
    ensures AsAtomic(c, db, LinkWrite(uuid, user), SignIn(ip, nameHex, ehloHex), rnd) <==>
            SignInStands(c, db, uuid, ip, private, nameHex, ehloHex, user)
  {
    var atomic := Handle(c, db, SignIn(ip, nameHex, ehloHex), rnd);
    if uuid in db.identities && db.identities[uuid].ip == ip {
      SignInIsExact(c, db, uuid, private, nameHex, ehloHex, rnd);
      SignInHere(c, db, uuid, private, nameHex, ehloHex, user, rnd, atomic);
    } else {
      SignInAlone(c, db, ip, nameHex, ehloHex, rnd);
      SignInElsewhere(c, db, uuid, ip, user, rnd, atomic);
    }
  }

  /** Names and ehlos of users and the keys of devices never change, so of what the request proved only
      the address of the device and the deletion of the user are left to check. */
  lemma SignInStillStands(
    c: Config, before: Db, db: Db, uuid: Id, ip: Ip, private: Bytes, nameHex: string, ehloHex: string, user: Id
  )
    requires SignInStands(c, before, uuid, ip, private, nameHex, ehloHex, user)
    requires UsersEvolve(before.users, db.users)
    requires uuid in db.identities ==> SameKeys(before.identities[uuid], db.identities[uuid])
    ensures SignInStands(c, db, uuid, ip, private, nameHex, ehloHex, user) <==>
            uuid in db.identities && db.identities[uuid].ip == ip && !db.users[user].isDeleted
  {
    var row := before.identities[uuid];
    var name, ehlo :| && SealedBy(c, row, private, nameHex, name) && SealedBy(c, row, private, ehloHex, ehlo)
                      && Proves(c, before, user, ehlo) && c.suite.utf8(name) == Some(before.users[user].name);
    if uuid in db.identities {
      SealedStill(c, row, db.identities[uuid], private, nameHex, name);
      SealedStill(c, row, db.identities[uuid], private, ehloHex, ehlo);
      ClaimFromParts(c, db, db.identities[uuid], private, nameHex, ehloHex, user, name, ehlo);
    }
  }

  lemma SealedStill(c: Config, a: Identity, b: Identity, private: Bytes, blob: string, text: Bytes)
    requires SameKeys(a, b) && SealedBy(c, a, private, blob, text)
    ensures SealedBy(c, b, private, blob, text)
  {
  }

  lemma ClaimFromParts(
    c: Config, db: Db, row: Identity, private: Bytes, nameHex: string, ehloHex: string, user: Id,
    name: Bytes, ehlo: Bytes
  )
    requires SealedBy(c, row, private, nameHex, name) && SealedBy(c, row, private, ehloHex, ehlo)
    requires user in db.users && Unsealed(c, db.users[user].ehloSecret) == Success(ehlo)
    requires c.suite.utf8(name) == Some(db.users[user].name)
    ensures ClaimsUser(c, db, row, private, nameHex, ehloHex, user) <==> !db.users[user].isDeleted
  {
  }

  /** The failing run, from any database: a sign-in proves the user's ehlo ... */
  lemma SignInProves(c: Config, db: Db, uuid: Id, user: Id, ehlo: Bytes, rnd: Inputs)
    requires Consistent(db) && |rnd.private| == KEY_LEN && Proves(c, db, user, ehlo)
    ensures Next(c, db, SignInUser(uuid, db.users[user].name, ehlo), rnd) == (db, LinkWrite(uuid, user))
  {
    SignInFinds(c, db, user, ehlo, rnd, uuid);
  }

  /** ... the user is deleted, and the write then links the device to the deleted user. */
  lemma SignInAfterDelete(c: Config, db: Db, uuid: Id, user: Id, delete: Inputs, rnd: Inputs)
    requires Consistent(db) && |delete.private| == KEY_LEN && |rnd.private| == KEY_LEN
    requires uuid in db.identities && user in db.users && c.suite.hash(rnd.token) !in LiveTokens(db)
    ensures var gone := Next(c, db, UserWrite(user, true), delete).0;
            && user in gone.users && gone.users[user].isDeleted && uuid in gone.identities
            && Next(c, gone, LinkWrite(uuid, user), rnd)
               == (WithLink(c, gone, uuid, user, rnd.token), Done(Token(rnd.token)))
  {
    var gone := UpdateUser(db, user, true).value;
    UpdateUserStored(db, user, true);
    DeleteLands(c, db, user, delete);
    LateLink(c, gone, uuid, user, rnd);
  }

  lemma DeleteLands(c: Config, db: Db, user: Id, rnd: Inputs)
    requires |rnd.private| == KEY_LEN && user in db.users
    ensures Next(c, db, UserWrite(user, true), rnd) == (UpdateUser(db, user, true).value, Done(Unit))
  {
  }

  // ----- re-sign -----

  /** The device still has the token, and what it sealed still proves its user. */
  ghost predicate ResignStands(c: Config, db: Db, uuid: Id, private: Bytes, token: string, ehloHex: string) {
    && uuid in db.identities && db.identities[uuid].token == Some(token)
    && ClaimsEhlo(c, db, db.identities[uuid], private, ehloHex)
  }

  lemma ResignRefuses(c: Config, row: Identity, ehloHex: string)
    ensures var sent := DecodeResignEhlo(c, row, ehloHex); sent.Failure? ==> Refusal(sent.error)
  {
    DecryptRefuses(c, ehloHex, row);
  }

  lemma ResignProof(c: Config, db: Db, uuid: Id, ip: Ip, ehlo: Bytes, rnd: Inputs)
    requires DbInv(c, db) && |rnd.private| == KEY_LEN && uuid in db.identities
    requires db.identities[uuid].userId.Some?
    ensures var row := db.identities[uuid];
            var result := Finish(c, db, ResignUser(row, ip, ehlo), rnd);
            if Proves(c, db, row.userId.value, ehlo) then result == Finish(c, db, ResignWrite(uuid, ip), rnd)
            else result.0 == db && result.1.Failed? && Refusal(result.1.error)
  {
    var row := db.identities[uuid];
    ProofIsExact(c, db, row.userId.value, ehlo);
    ProofRefuses(c, Lookup(db.users, row.userId.value), ehlo);
    ResignProved(c, db, row, ip, ehlo, rnd);
  }

  /** An atomic re-sign with the token of a device comes to the write, or the handler refuses it. */
  lemma ResignAlone(
    c: Config, db: Db, uuid: Id, ip: Ip, private: Bytes, tokenHex: string, ehloHex: string, rnd: Inputs
  )
    requires ValidConfig(c) && DbInv(c, db) && |rnd.private| == KEY_LEN
    requires uuid in db.identities && Holds(c, db.identities[uuid], private)
    requires Decode(tokenHex).Some? && c.suite.utf8(Decode(tokenHex).value).Some?
    requires db.identities[uuid].token == Some(c.suite.hash(c.suite.utf8(Decode(tokenHex).value).value))
    ensures var result := Handle(c, db, Resign(ip, tokenHex, ehloHex), rnd);
            if ClaimsEhlo(c, db, db.identities[uuid], private, ehloHex)
            then result == Finish(c, db, ResignWrite(uuid, ip), rnd)
            else result.0 == db && result.1.Failed? && Refusal(result.1.error)
  {
    var row := db.identities[uuid];
    ResignClaim(c, db, row, private, ehloHex);
    ResignStarts(c, db, uuid, ip, tokenHex, ehloHex, rnd);
    ResignRefuses(c, row, ehloHex);
    var sent := DecodeResignEhlo(c, row, ehloHex);
    if sent.Success? {
      ResignProof(c, db, uuid, ip, sent.value, rnd);
    }
  }

  lemma ResignUnknown(c: Config, db: Db, ip: Ip, tokenHex: string, ehloHex: string, rnd: Inputs)
    requires |rnd.private| == KEY_LEN
    requires Decode(tokenHex).Some? && c.suite.utf8(Decode(tokenHex).value).Some?
    requires c.suite.hash(c.suite.utf8(Decode(tokenHex).value).value) !in LiveTokens(db)
    ensures Handle(c, db, Resign(ip, tokenHex, ehloHex), rnd) == (db, Failed(Unauthorized))
  {
    FinishRead(c, db, Start(Resign(ip, tokenHex, ehloHex)), rnd);
  }

  lemma ResignWriteFinishes(c: Config, db: Db, uuid: Id, ip: Ip, rnd: Inputs)
    requires |rnd.private| == KEY_LEN
    ensures var (db', pc) := Next(c, db, ResignWrite(uuid, ip), rnd);
            pc.Done? && Finish(c, db, ResignWrite(uuid, ip), rnd) == (db', pc.reply)
  {
    FinishWrite(c, db, ResignWrite(uuid, ip), rnd);
  }

  /** The write of a re-sign is the atomic re-sign at that moment, with its reply when the address is
      taken, if and only if the device still has the token and still proves its user. */
  lemma ResignLinearizesExactly(
    c: Config, db: Db, uuid: Id, ip: Ip, private: Bytes, tokenHex: string, ehloHex: string, rnd: Inputs
  )
    requires ValidConfig(c) && DbInv(c, db) && |rnd.private| == KEY_LEN
    requires uuid in db.identities ==> Holds(c, db.identities[uuid], private)
    requires Decode(tokenHex).Some? && c.suite.utf8(Decode(tokenHex).value).Some?
    requires HeldOnlyBy(db, uuid, c.suite.hash(c.suite.utf8(Decode(tokenHex).value).value))
    ensures AsAtomic(c, db, ResignWrite(uuid, ip), Resign(ip, tokenHex, ehloHex), rnd) <==>
            ResignStands(c, db, uuid, private, c.suite.hash(c.suite.utf8(Decode(tokenHex).value).value), ehloHex)
  {
    var token := c.suite.hash(c.suite.utf8(Decode(tokenHex).value).value);
    LateResign(c, db, uuid, ip, rnd);
    ResignWriteFinishes(c, db, uuid, ip, rnd);
    if uuid in db.identities && db.identities[uuid].token == Some(token) {
      ResignAlone(c, db, uuid, ip, private, tokenHex, ehloHex, rnd);
    } else {
      ResignUnknown(c, db, ip, tokenHex, ehloHex, rnd);
    }
  }

  /** The failing run, from any database: a re-sign proves the ehlo of the device's user, a sign-in then
      links the device to user b, and the re-sign still moves what is now a device of user b. */
  lemma ResignAfterRelink(c: Config, db: Db, uuid: Id, b: Id, ip: Ip, ehlo: Bytes, link: Inputs, rnd: Inputs)
    requires DbInv(c, db) && |link.private| == KEY_LEN && |rnd.private| == KEY_LEN
    requires uuid in db.identities && b in db.users && AddressFree(db, uuid, ip)
    requires db.identities[uuid].userId.Some? && Proves(c, db, db.identities[uuid].userId.value, ehlo)
    requires c.suite.hash(link.token) !in LiveTokens(db)
    ensures Next(c, db, ResignUser(db.identities[uuid], ip, ehlo), rnd) == (db, ResignWrite(uuid, ip))
    ensures var relinked := Next(c, db, LinkWrite(uuid, b), link).0;
            var (after, pc) := Next(c, relinked, ResignWrite(uuid, ip), rnd);
            && pc == Done(Unit) && uuid in after.identities
            && after.identities[uuid].userId == Some(b) && after.identities[uuid].ip == ip
  {
    ResignProves(c, db, db.identities[uuid], ip, ehlo, rnd);
    LateLink(c, db, uuid, b, link);
    UpdateIdentityStored(db, uuid, LinkChanges(c, b, link.token));
    LinkFits(c, db, uuid, b, link.token);
    ResignOnRow(c, WithLink(c, db, uuid, b, link.token), uuid, ip, rnd);
  }

  lemma ResignProves(c: Config, db: Db, row: Identity, ip: Ip, ehlo: Bytes, rnd: Inputs)
    requires Sealed(c, db) && |rnd.private| == KEY_LEN && row.userId.Some? && Proves(c, db, row.userId.value, ehlo)
    ensures Next(c, db, ResignUser(row, ip, ehlo), rnd) == (db, ResignWrite(row.uuid, ip))
  {
    ProofIsExact(c, db, row.userId.value, ehlo);
  }

  lemma ResignOnRow(c: Config, db: Db, uuid: Id, ip: Ip, rnd: Inputs)
    requires Consistent(db) && |rnd.private| == KEY_LEN && uuid in db.identities && AddressFree(db, uuid, ip)
    ensures Next(c, db, ResignWrite(uuid, ip), rnd) ==
            (db.(identities := db.identities[uuid := db.identities[uuid].(ip := ip, confirmed := false)]), Done(Unit))
  {
    LateResign(c, db, uuid, ip, rnd);
  }
}
