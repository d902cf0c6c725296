/** What the replies of the data requests show, field by field and across requests, and what the guards
    in front of them refuse. */
module Replies {
  import opened Wrappers
  import opened Hex
  import opened Bits
  import opened Crypto
  import opened Schema
  import opened Statements
  import opened Protocol
  import opened Guarantee
  import opened Isolation
  import opened Races
  import opened Expiry
  import opened Vault
  import opened Recovery

  // ----- a password that was created or updated, read again -----

  /** What a create was sent, as an item of the vault. */
  function AskedItem(op: DataOp, text: Bytes, now: int): Item
    requires op.PwdCreate?
  {
    Item(op.groupId, text, op.pname.GetOr(""), op.pextra.GetOr("{}"), AskedDays(op.days), now, now)
  }

  /** A create by a device of the owner succeeds; the reply opens under that device's key to the text it
      sent, and shows the whole window. */
  lemma CreateShows(c: Config, db: Db, row: Identity, private: Bytes, op: DataOp, text: Bytes, rnd: Inputs)
    requires ValidConfig(c) && DbInv(c, db) && Bearer(c, row) && Holds(c, row, private) && ValidInputs(rnd)
    requires op.PwdCreate? && DecryptFromClient(c, op.pwd, row) == Success(text)
    requires OwnedGroup(db, op.groupId, row.userId) && rnd.id !in Ids(db)
    ensures var (after, reply) := Serve(c, db, row, op, rnd);
            && after == Added(db, NewPassword(op, SealColumn(c, text, rnd.nonce(0)), rnd))
            && reply.Created? && reply.entry.uuid == rnd.id
            && ClientOpens(c, row, private, reply.entry.pwd) == Success(text)
            && reply.entry.days == reply.entry.expires == AskedDays(op.days)
  {
    var p := NewPassword(op, SealColumn(c, text, rnd.nonce(0)), rnd);
    CreateResult(c, db, row, op, rnd);
    SealedColumnOpens(c, text, rnd.nonce(0));
    DeviceOpensStored(c, row, private, p.pwd, rnd.nonce(1));
  }

  lemma CreateStores(c: Config, db: Db, row: Identity, op: DataOp, text: Bytes, rnd: Inputs)
    requires Consistent(db) && |rnd.private| == KEY_LEN && row.userId.Some?
    requires op.PwdCreate? && DecryptFromClient(c, op.pwd, row) == Success(text)
    requires OwnedGroup(db, op.groupId, row.userId) && rnd.id !in Ids(db)
    ensures Serve(c, db, row, op, rnd).0 == Added(db, NewPassword(op, SealColumn(c, text, rnd.nonce(0)), rnd))
  {
    CreateResult(c, db, row, op, rnd);
  }

  function Added(db: Db, p: Password): Db {
    db.(passwords := db.passwords[p.uuid := p])
  }

  lemma UpdateStores(c: Config, db: Db, row: Identity, op: DataOp, text: Bytes, rnd: Inputs)
    requires Consistent(db) && |rnd.private| == KEY_LEN && row.userId.Some?
    requires op.PwdUpdate? && DecryptFromClient(c, op.pwd, row) == Success(text)
    requires Owner(db, op.pid) == row.userId && OwnedGroup(db, op.groupId, row.userId)
    ensures var ch := UpdateChanges(op, SealColumn(c, text, rnd.nonce(0)));
            Serve(c, db, row, op, rnd).0 == Added(db, ApplyPassword(db.passwords[op.pid], ch, rnd.now))
  {
    UpdateResult(c, db, row, op, rnd);
  }

  /** A stored row of the reader's user is what the reader gets. */
  lemma AddedIsGot(c: Config, db: Db, p: Password, reader: Identity, private: Bytes, later: Inputs)
    requires ValidConfig(c) && Consistent(db) && Bearer(c, reader) && Holds(c, reader, private) && ValidInputs(later)
    requires OwnedGroup(db, p.groupId, reader.userId) && Unsealed(c, p.pwd).Success?
    ensures ShowsItem(c, reader, private, Serve(c, Added(db, p), reader, PwdGet(p.uuid), later).1, p.uuid,
                      ItemOf(c, p), db.groups[p.groupId], later.now)
  {
    GetShows(c, Added(db, p), reader, private, p.uuid, later);
  }

  /** A get of a password of the device's user, by row. */
  lemma GetShows(c: Config, db: Db, row: Identity, private: Bytes, pid: Id, rnd: Inputs)
    requires ValidConfig(c) && Consistent(db) && Bearer(c, row) && Holds(c, row, private) && ValidInputs(rnd)
    requires Owner(db, pid) == row.userId && Unsealed(c, db.passwords[pid].pwd).Success?
    ensures var p := db.passwords[pid];
            ShowsItem(c, row, private, Serve(c, db, row, PwdGet(pid), rnd).1, pid, ItemOf(c, p),
                      db.groups[p.groupId], rnd.now)
  {
    GetResult(c, db, row, PwdGet(pid), rnd);
    DetailShows(c, row, private, db.passwords[pid], db.groups[db.passwords[pid].groupId], rnd);
  }

  /** What one device creates, every device of the same user gets: the group, the name, the extra text, the
      window and the text that were sent, under its own key. */
  lemma CreatedIsGot(
    c: Config, db: Db, row: Identity, op: DataOp, text: Bytes, rnd: Inputs,
    reader: Identity, private: Bytes, later: Inputs
  )
    requires ValidConfig(c) && DbInv(c, db) && Bearer(c, row) && ValidInputs(rnd) && ValidInputs(later)
    requires op.PwdCreate? && DecryptFromClient(c, op.pwd, row) == Success(text)
    requires OwnedGroup(db, op.groupId, row.userId) && rnd.id !in Ids(db)
    requires Bearer(c, reader) && Holds(c, reader, private) && reader.userId == row.userId
    ensures var after := Serve(c, db, row, op, rnd).0;
            ShowsItem(c, reader, private, Serve(c, after, reader, PwdGet(rnd.id), later).1, rnd.id,
                      AskedItem(op, text, rnd.now), db.groups[op.groupId], later.now)
  {
    var p := NewPassword(op, SealColumn(c, text, rnd.nonce(0)), rnd);
    CreateStores(c, db, row, op, text, rnd);
    SealedColumnOpens(c, text, rnd.nonce(0));
    AddedIsGot(c, db, p, reader, private, later);
  }

  /** An update by one device is what every device of the same user gets from then on: the text and group
      sent, the name and extra text if sent, and the window counted from the update. */
  lemma UpdatedIsGot(
    c: Config, db: Db, row: Identity, op: DataOp, text: Bytes, rnd: Inputs,
    reader: Identity, private: Bytes, later: Inputs
  )
    requires ValidConfig(c) && DbInv(c, db) && Bearer(c, row) && ValidInputs(rnd) && ValidInputs(later)
    requires op.PwdUpdate? && DecryptFromClient(c, op.pwd, row) == Success(text)
    requires Owner(db, op.pid) == row.userId && OwnedGroup(db, op.groupId, row.userId)
    requires Bearer(c, reader) && Holds(c, reader, private) && reader.userId == row.userId
    ensures var after := Serve(c, db, row, op, rnd).0;
            var was := ItemOf(c, db.passwords[op.pid]);
            var item := was.(gid := op.groupId, text := text, name := op.pname.GetOr(was.name),
                             extra := op.pextra.GetOr(was.extra), validSince := rnd.now);
            ShowsItem(c, reader, private, Serve(c, after, reader, PwdGet(op.pid), later).1, op.pid,
                      item, db.groups[op.groupId], later.now)
  {
    var p := ApplyPassword(db.passwords[op.pid], UpdateChanges(op, SealColumn(c, text, rnd.nonce(0))), rnd.now);
    UpdateStores(c, db, row, op, text, rnd);
    SealedColumnOpens(c, text, rnd.nonce(0));
    AddedIsGot(c, db, p, reader, private, later);
  }

  /** A list of groups holds exactly the user's. */
  lemma GroupListIsExact(c: Config, db: Db, row: Identity, rnd: Inputs)
    requires Consistent(db) && |rnd.private| == KEY_LEN && row.userId.Some?
    ensures var reply := Serve(c, db, row, GroupList, rnd).1;
            && reply.Groups?
            && forall g :: g in reply.groups <==>
                 g.uuid in db.groups && db.groups[g.uuid] == g && g.userId == row.userId.value
  {
    GroupListResult(c, db, row, rnd);
  }

  // ----- guards -----

  /** Names of groups over 128 bytes, names of passwords over 256 and extra texts over 4096 are refused,
      and nothing else is. */
  lemma LengthsAreExact(c: Config, op: DataOp)
    ensures CheckLengths(c, op).Success? <==>
            && (op.GroupCreate? ==> c.suite.byteLen(op.name) <= 128)
            && ((op.PwdCreate? || op.PwdUpdate?) ==>
                  && c.suite.byteLen(op.pname.GetOr("")) <= 256
                  && (op.pextra.Some? ==> c.suite.byteLen(op.pextra.value) <= 4096))
    ensures CheckLengths(c, op).Failure? ==> CheckLengths(c, op) == Failure(Validation)
  {
  }

  /** Whatever is wrong, a request that is not authenticated learns the same. */
  lemma AuthenticationFailsAlike(c: Config, db: Db, token: Option<string>, ip: Ip)
    ensures Authenticate(c, db, token, ip).Failure? ==> Authenticate(c, db, token, ip) == Failure(Unauthorized)
  {
  }

  /** A sign-in whose claim decodes learns the same from an unknown name, a deleted user and a wrong ehlo. */
  lemma SignInFailsAlike(c: Config, db: Db, uuid: Id, name: string, ehlo: Bytes, rnd: Inputs)
    requires DbInv(c, db) && |rnd.private| == KEY_LEN && uuid in db.identities
    requires c.suite.hash(rnd.token) !in LiveTokens(db)
    ensures var reply := Finish(c, db, SignInUser(uuid, name, ehlo), rnd).1;
            reply.Token? || reply == Failed(Unauthorized)
  {
    var user := FindByName(db, name);
    SignInProved(c, db, uuid, name, ehlo, rnd);
    ProofFailsAlike(c, db, user, ehlo);
    if ProveEhlo(c, user, ehlo).Success? {
      assert user.value.uuid in db.users;
      LinkFits(c, db, uuid, user.value.uuid, rnd.token);
    }
  }

  lemma ProofFailsAlike(c: Config, db: Db, user: Option<User>, ehlo: Bytes)
    requires user.Some? ==> Unsealed(c, user.value.ehloSecret).Success?
    ensures ProveEhlo(c, user, ehlo).Failure? ==> ProveEhlo(c, user, ehlo) == Failure(Unauthorized)
  {
  }

  // ----- which error -----

  /** Text from a device: not hex, or not sealed under its key. */
  lemma TextErrors(c: Config, text: string, row: Identity)
    requires ValidConfig(c) && DeviceKeysOk(c, row)
    ensures DecryptFromClient(c, text, row).Failure? ==>
              DecryptFromClient(c, text, row) ==
              Failure(if Decode(text).None? then Validation else AppError.Crypto)
  {
  }

  /** The claim of a sign-up or sign-in: a part that is not hex, one that was not sealed under the device's
      key, or a name that is no text. */
  lemma ClaimErrors(c: Config, row: Identity, nameHex: string, ehloHex: string)
    requires ValidConfig(c) && DeviceKeysOk(c, row)
    ensures var name, ehlo := DecryptFromClient(c, nameHex, row), DecryptFromClient(c, ehloHex, row);
            DecodeClaim(c, row, nameHex, ehloHex).Failure? ==>
              DecodeClaim(c, row, nameHex, ehloHex) ==
              Failure(if Decode(nameHex).None? || Decode(ehloHex).None? then Validation
                      else if name.Failure? || ehlo.Failure? then AppError.Crypto else Validation)
  {
  }

  /** A refresh: the same, and a token or a missing user that is unauthorized. */
  lemma RefreshErrors(c: Config, row: Identity, tokenHex: string, ehloHex: string)
    requires ValidConfig(c) && DeviceKeysOk(c, row)
    ensures var token, ehlo := DecryptFromClient(c, tokenHex, row), DecryptFromClient(c, ehloHex, row);
            DecodeRefresh(c, row, tokenHex, ehloHex).Failure? ==>
              DecodeRefresh(c, row, tokenHex, ehloHex) ==
              Failure(if Decode(tokenHex).None? || Decode(ehloHex).None? then Validation
                      else if token.Failure? || ehlo.Failure? then AppError.Crypto
                      else if c.suite.utf8(token.value).None? then Validation else Unauthorized)
  {
  }

  /** A re-sign: the ehlo as for a claim, and a missing user unauthorized. */
  lemma ResignErrors(c: Config, row: Identity, ehloHex: string)
    requires ValidConfig(c) && DeviceKeysOk(c, row)
    ensures var ehlo := DecryptFromClient(c, ehloHex, row);
            DecodeResignEhlo(c, row, ehloHex).Failure? ==>
              DecodeResignEhlo(c, row, ehloHex) ==
              Failure(if ehlo.Failure? then ehlo.error else Unauthorized)
  {
  }

  /** Nobody at the address, or nobody with the token: unauthorized; a token that is not hex: invalid. */
  lemma NobodyIsUnauthorized(c: Config, db: Db, req: Request, rnd: Inputs)
    requires |rnd.private| == KEY_LEN
    requires req.SignUp? || req.SignIn? || req.Refresh? || req.Resign?
    ensures !req.Resign? && FindByIp(db, req.ip).None? ==> Handle(c, db, req, rnd) == (db, Failed(Unauthorized))
    ensures req.Resign? && Decode(req.token).None? ==> Handle(c, db, req, rnd) == (db, Failed(Validation))
    ensures req.Resign? && Decode(req.token).Some? && c.suite.utf8(Decode(req.token).value).None? ==>
              Handle(c, db, req, rnd) == (db, Failed(Unauthorized))
    ensures req.Resign? && Decode(req.token).Some? && c.suite.utf8(Decode(req.token).value).Some?
            && FindByToken(db, c.suite.hash(c.suite.utf8(Decode(req.token).value).value)).None? ==>
              Handle(c, db, req, rnd) == (db, Failed(Unauthorized))
  {
    FinishRead(c, db, Start(req), rnd);
  }

  // ----- greet -----

  /** The row of a greet: an unlinked, unconfirmed device with the key it sent, whose stored private key
      opens to a clamped scalar (section 5 of RFC 7748) that makes the public key in the reply. */
  lemma GreetRowIsExact(c: Config, ip: Ip, clientKey: Bytes, rnd: Inputs)
    requires ValidConfig(c) && ValidInputs(rnd)
    ensures var row := GreetRow(c, ip, clientKey, rnd);
            && row.uuid == rnd.id && row.ip == ip && row.clientPublic == clientKey
            && row.userId == None && row.token == None && !row.confirmed
            && Decrypt(c.suite, c.secret, row.serverPrivate).Success?
            && var private := Decrypt(c.suite, c.secret, row.serverPrivate).value;
               && row.serverPublic == c.suite.dh(private, BASE)
               && LittleEndian(private) % 8 == 0 && Pow2(254) <= LittleEndian(private) < Pow2(255)
  {
    EnvelopeOpens(c.suite, c.secret, rnd.nonce(0), Clamped(rnd.private));
    ClampIsScalar(rnd.private);
  }

  /** A greet is refused exactly for a key that is not the hex text of 32 bytes, and then for an address
      that is taken; otherwise one row is added. */
  lemma GreetIsExact(c: Config, db: Db, ip: Ip, pubKey: string, rnd: Inputs)
    requires Consistent(db) && |rnd.private| == KEY_LEN && rnd.id !in Ids(db)
    ensures Handle(c, db, Greet(ip, pubKey), rnd) ==
            if Decode(pubKey).None? || |Decode(pubKey).value| != 32 then (db, Failed(Validation))
            else if exists i | i in db.identities :: db.identities[i].ip == ip then (db, Failed(PreconditionFailed))
            else
              var row := GreetRow(c, ip, Decode(pubKey).value, rnd);
              (db.(identities := db.identities[rnd.id := row]), ServerKey(Encode(row.serverPublic)))
  {
    if Decode(pubKey).Some? && |Decode(pubKey).value| == 32 {
      AtomicGreet(c, db, ip, pubKey, Decode(pubKey).value, rnd);
    } else {
      GreetAlone(c, db, ip, pubKey, rnd);
    }
  }
}
