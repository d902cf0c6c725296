/** Check-then-write handlers under races: greet against the unique address index, and sign-up
    against everything that may happen between decoding the request and its transaction. */
module Races {
  import opened Wrappers
  import opened Hex
  import opened Crypto
  import opened Schema
  import opened Statements
  import opened Protocol

  /** What the step and the atomic handler come to is the same. */
  ghost predicate AsAtomic(c: Config, db: Db, pc: Pc, req: Request, rnd: Inputs)
    requires !pc.Done? && |rnd.private| == KEY_LEN
  {
    Next(c, db, pc, rnd) == (Handle(c, db, req, rnd).0, Done(Handle(c, db, req, rnd).1))
  }

  // ----- greet -----

  lemma GreetAlone(c: Config, db: Db, ip: Ip, pubKey: string, rnd: Inputs)
    requires |rnd.private| == KEY_LEN
    ensures Handle(c, db, Greet(ip, pubKey), rnd) ==
            var first := ReadStart(c, db, Greet(ip, pubKey), rnd);
            if first.Failure? then (db, Failed(first.error))
            else
              var last := Write(c, db, first.value, rnd);
              if last.Success? then last.value else (db, Failed(last.error))
  {
    var first := ReadStart(c, db, Greet(ip, pubKey), rnd);
    FinishRead(c, db, Start(Greet(ip, pubKey)), rnd);
    if first.Success? {
      FinishWrite(c, db, first.value, rnd);
    }
  }

  /** The insert of a greet that passed its check, without the unique index or with it: a taken address
      is refused exactly once the index is there. */
  lemma InsertDecides(c: Config, db: Db, ip: Ip, clientKey: Bytes, rnd: Inputs)
    requires Stored(db) && |rnd.private| == KEY_LEN && rnd.id !in Ids(db)
    ensures var last := Write(c, db, GreetInsert(ip, clientKey), rnd);
            if FindByIp(db, ip).Some? && !db.stage.Unindexed? then last == Failure(PreconditionFailed)
            else last == Success((Greeted(c, db, ip, clientKey, rnd),
                                  ServerKey(Encode(GreetRow(c, ip, clientKey, rnd).serverPublic))))
  {
  }

  /** The tables with the row of a greet added. */
  function Greeted(c: Config, db: Db, ip: Ip, clientKey: Bytes, rnd: Inputs): Db
    requires |rnd.private| == KEY_LEN
  {
    db.(identities := db.identities[rnd.id := GreetRow(c, ip, clientKey, rnd)], stage := Appended(db.stage, rnd.id))
  }

  /** A greet that its check refuses is the atomic greet at the check. */
  lemma GreetRefusedAtCheck(c: Config, db: Db, ip: Ip, pubKey: string, rnd: Inputs)
    requires |rnd.private| == KEY_LEN && Next(c, db, Start(Greet(ip, pubKey)), rnd).1.Done?
    ensures AsAtomic(c, db, Start(Greet(ip, pubKey)), Greet(ip, pubKey), rnd)
  {
    GreetAlone(c, db, ip, pubKey, rnd);
  }

  /** What the atomic greet with a good key comes to. */
  lemma AtomicGreet(c: Config, db: Db, ip: Ip, pubKey: string, clientKey: Bytes, rnd: Inputs)
    requires Stored(db) && |rnd.private| == KEY_LEN && rnd.id !in Ids(db)
    requires DecodeHex(pubKey) == Success(clientKey) && |clientKey| == KEY_LEN
    ensures Handle(c, db, Greet(ip, pubKey), rnd) ==
            if FindByIp(db, ip).Some? then (db, Failed(PreconditionFailed))
            else (Greeted(c, db, ip, clientKey, rnd), ServerKey(Encode(GreetRow(c, ip, clientKey, rnd).serverPublic)))
  {
    GreetAlone(c, db, ip, pubKey, rnd);
    InsertDecides(c, db, ip, clientKey, rnd);
  }

  /** A greet that passed its check is the atomic greet at its insert, if and only if the unique index
      is there or the address is free at that moment. */
  lemma GreetLinearizesAtInsert(c: Config, db: Db, ip: Ip, pubKey: string, clientKey: Bytes, rnd: Inputs)
    requires Stored(db) && |rnd.private| == KEY_LEN && rnd.id !in Ids(db)
    requires DecodeHex(pubKey) == Success(clientKey) && |clientKey| == KEY_LEN
    ensures AsAtomic(c, db, GreetInsert(ip, clientKey), Greet(ip, pubKey), rnd) <==>
            (db.stage.Unindexed? ==> FindByIp(db, ip).None?)
  {
    AtomicGreet(c, db, ip, pubKey, clientKey, rnd);
    InsertDecides(c, db, ip, clientKey, rnd);
  }

  /** What a greet knows after its check. */
  lemma GreetChecked(c: Config, db: Db, ip: Ip, pubKey: string, rnd: Inputs)
    requires |rnd.private| == KEY_LEN && !Next(c, db, Start(Greet(ip, pubKey)), rnd).1.Done?
    ensures DecodeHex(pubKey).Success? && |DecodeHex(pubKey).value| == KEY_LEN
    ensures Next(c, db, Start(Greet(ip, pubKey)), rnd) == (db, GreetInsert(ip, DecodeHex(pubKey).value))
  {
  }

  /** Whatever other requests do between the check of a greet and its insert, the greet behaves as one
      atomic greet: at the check if the check refuses it, and otherwise at the insert, where a racing
      greet of the same address shows as the same reply and no change. The one exception is an insert
      into a database that has no unique index yet, at an address taken since the check. */
  lemma GreetIsLinearizable(c: Config, atCheck: Db, atInsert: Db, ip: Ip, pubKey: string, rnd1: Inputs, rnd2: Inputs)
    requires Stored(atInsert) && |rnd1.private| == KEY_LEN && |rnd2.private| == KEY_LEN
    requires rnd2.id !in Ids(atInsert)
    ensures var pc := Next(c, atCheck, Start(Greet(ip, pubKey)), rnd1).1;
            if pc.Done? then AsAtomic(c, atCheck, Start(Greet(ip, pubKey)), Greet(ip, pubKey), rnd1)
            else
              AsAtomic(c, atInsert, pc, Greet(ip, pubKey), rnd2) <==>
              (atInsert.stage.Unindexed? ==> FindByIp(atInsert, ip).None?)
  {
    if Next(c, atCheck, Start(Greet(ip, pubKey)), rnd1).1.Done? {
      GreetRefusedAtCheck(c, atCheck, ip, pubKey, rnd1);
    } else {
      GreetChecked(c, atCheck, ip, pubKey, rnd1);
      GreetLinearizesAtInsert(c, atInsert, ip, pubKey, DecodeHex(pubKey).value, rnd2);
    }
  }

  /** Sign-in once the device and its claim are read. */
  lemma SignInProved(c: Config, db: Db, uuid: Id, name: string, ehlo: Bytes, rnd: Inputs)
    requires |rnd.private| == KEY_LEN
    ensures Finish(c, db, SignInUser(uuid, name, ehlo), rnd) ==
            var user := FindByName(db, name);
            var proof := ProveEhlo(c, user, ehlo);
            if proof.Failure? then (db, Failed(proof.error))
            else
              var last := Write(c, db, LinkWrite(uuid, user.value.uuid), rnd);
              if last.Success? then last.value else (db, Failed(last.error))
  {
    FinishRead(c, db, SignInUser(uuid, name, ehlo), rnd);
    if ProveEhlo(c, FindByName(db, name), ehlo).Success? {
      FinishWrite(c, db, LinkWrite(uuid, FindByName(db, name).value.uuid), rnd);
    }
  }

  // ----- sign-up -----

  /** The transaction of a sign-up creates one user with a fresh uuid and links one device to it, or
      changes nothing at all; it succeeds exactly when the name is free, the device is still there
      and the drawn uuid and token are new. */
  lemma SignUpAllOrNothing(c: Config, db: Db, uuid: Id, name: string, ehloSecret: string, rnd: Inputs)
    requires Consistent(db) && rnd.id !in Ids(db) && c.suite.hash(rnd.token) !in LiveTokens(db)
    ensures var r := SignUpTransaction(c, db, uuid, name, ehloSecret, rnd);
            if FindByName(db, name).Some? then r == Failure(Conflict)
            else if uuid !in db.identities then r == Failure(Database(RowNotFound))
            else r == Success((
              db.(users := db.users[rnd.id := User(rnd.id, name, ehloSecret, false)],
                  identities := db.identities[uuid := db.identities[uuid].(
                    userId := Some(rnd.id), token := Some(c.suite.hash(rnd.token)), confirmed := false)]),
              Token(rnd.token)))
  {
    if FindByName(db, name).None? && uuid in db.identities {
      var mid := db.(users := db.users[rnd.id := User(rnd.id, name, ehloSecret, false)]);
      LinkFits(c, mid, uuid, rnd.id, rnd.token);
    }
  }

  lemma LinkFits(c: Config, db: Db, uuid: Id, userId: Id, token: string)
    requires uuid in db.identities && db.identities[uuid].uuid == uuid && UniqueIps(db.identities)
    requires userId in db.users && c.suite.hash(token) !in LiveTokens(db)
    ensures UpdateIdentity(db, uuid, LinkChanges(c, userId, token)) ==
            Success(db.(identities := db.identities[uuid := db.identities[uuid].(
              userId := Some(userId), token := Some(c.suite.hash(token)), confirmed := false)]))
  {
    assert forall i | i in db.identities :: db.identities[i].token != Some(c.suite.hash(token));
  }

  lemma SignUpAlone(c: Config, db: Db, ip: Ip, name: string, ehlo: string, rnd: Inputs)
    requires |rnd.private| == KEY_LEN
    ensures Handle(c, db, SignUp(ip, name, ehlo), rnd) ==
            var first := ReadStart(c, db, SignUp(ip, name, ehlo), rnd);
            if first.Failure? then (db, Failed(first.error))
            else
              var last := Write(c, db, first.value, rnd);
              if last.Success? then last.value else (db, Failed(last.error))
  {
    var first := ReadStart(c, db, SignUp(ip, name, ehlo), rnd);
    FinishRead(c, db, Start(SignUp(ip, name, ehlo)), rnd);
    if first.Success? {
      FinishWrite(c, db, first.value, rnd);
    }
  }

  /** The same device row, however linked and confirmed by now, decodes the request the same way. */
  lemma SameKeysSameClaim(c: Config, a: Identity, b: Identity, name: string, ehlo: string)
    requires SameKeys(a, b)
    ensures DecodeClaim(c, a, name, ehlo).Success? <==> DecodeClaim(c, b, name, ehlo).Success?
    ensures DecodeClaim(c, a, name, ehlo).Success? ==>
              var x, y := DecodeClaim(c, a, name, ehlo).value, DecodeClaim(c, b, name, ehlo).value;
              x.name == y.name && x.nameLen == y.nameLen && x.ehlo == y.ehlo
    ensures DecodeClaim(c, a, name, ehlo).Failure? ==>
              DecodeClaim(c, b, name, ehlo) == Failure(DecodeClaim(c, a, name, ehlo).error)
  {
    assert DeviceKey(c, a) == DeviceKey(c, b);
  }

  lemma FindByIpIs(db: Db, uuid: Id)
    requires Consistent(db) && uuid in db.identities
    ensures FindByIp(db, db.identities[uuid].ip) == Some(db.identities[uuid])
  {
  }

  /** The device that decoded the request still holds the address at the transaction. */
  ghost predicate DeviceStays(db: Db, uuid: Id, ip: Ip) {
    uuid in db.identities && db.identities[uuid].ip == ip
  }

  /** A sign-up decoded at one state whose device still holds the address when the transaction runs
      is the atomic sign-up at the transaction. */
  lemma SignUpLinearizesIfDeviceStays(
    c: Config, atDecode: Db, atTx: Db, ip: Ip, name: string, ehlo: string, rnd1: Inputs, rnd2: Inputs
  )
    requires Consistent(atDecode) && Consistent(atTx)
    requires |rnd1.private| == KEY_LEN && |rnd2.private| == KEY_LEN && rnd1.nonce(0) == rnd2.nonce(0)
    requires ReadStart(c, atDecode, SignUp(ip, name, ehlo), rnd1).Success?
    requires var uuid := ReadStart(c, atDecode, SignUp(ip, name, ehlo), rnd1).value.uuid;
             && DeviceStays(atTx, uuid, ip)
             && SameKeys(atDecode.identities[uuid], atTx.identities[uuid])
    ensures var pc := ReadStart(c, atDecode, SignUp(ip, name, ehlo), rnd1).value;
            && ReadStart(c, atTx, SignUp(ip, name, ehlo), rnd2) == Success(pc)
            && Next(c, atTx, pc, rnd2) == (Handle(c, atTx, SignUp(ip, name, ehlo), rnd2).0,
                                           Done(Handle(c, atTx, SignUp(ip, name, ehlo), rnd2).1))
  {
    SameStart(c, atDecode, atTx, ip, name, ehlo, rnd1, rnd2);
    SignUpAlone(c, atTx, ip, name, ehlo, rnd2);
  }

  lemma SameStart(
    c: Config, atDecode: Db, atTx: Db, ip: Ip, name: string, ehlo: string, rnd1: Inputs, rnd2: Inputs
  )
    requires Consistent(atDecode) && Consistent(atTx) && rnd1.nonce(0) == rnd2.nonce(0)
    requires ReadStart(c, atDecode, SignUp(ip, name, ehlo), rnd1).Success?
    requires var uuid := ReadStart(c, atDecode, SignUp(ip, name, ehlo), rnd1).value.uuid;
             && DeviceStays(atTx, uuid, ip)
             && SameKeys(atDecode.identities[uuid], atTx.identities[uuid])
    ensures ReadStart(c, atTx, SignUp(ip, name, ehlo), rnd2) == ReadStart(c, atDecode, SignUp(ip, name, ehlo), rnd1)
    ensures ReadStart(c, atTx, SignUp(ip, name, ehlo), rnd2).value.SignUpTx?
  {
    var row1 := FindByIp(atDecode, ip).value;
    assert row1.uuid in atDecode.identities && atDecode.identities[row1.uuid] == row1;
    FindByIpIs(atTx, row1.uuid);
    SameKeysSameClaim(c, row1, atTx.identities[row1.uuid], name, ehlo);
  }

  /** With the name still free, that is the only way: once the device is gone or has moved to another
      address, no atomic sign-up at the transaction gives the same reply and tables. */
  lemma SignUpLinearizesOnlyIfDeviceStays(
    c: Config, atTx: Db, uuid: Id, ip: Ip, name: string, ehlo: string, text: string, ehloSecret: string, rnd: Inputs
  )
    requires Consistent(atTx) && |rnd.private| == KEY_LEN
    requires rnd.id !in Ids(atTx) && c.suite.hash(rnd.token) !in LiveTokens(atTx)
    requires FindByName(atTx, text).None? && !DeviceStays(atTx, uuid, ip)
    ensures Next(c, atTx, SignUpTx(uuid, text, ehloSecret), rnd) !=
            (Handle(c, atTx, SignUp(ip, name, ehlo), rnd).0, Done(Handle(c, atTx, SignUp(ip, name, ehlo), rnd).1))
  {
    var first := ReadStart(c, atTx, SignUp(ip, name, ehlo), rnd);
    SignUpAlone(c, atTx, ip, name, ehlo, rnd);
    SignUpErrors(c, atTx, ip, name, ehlo, rnd);
    if first.Success? {
      StartsAtAddress(c, atTx, ip, name, ehlo, rnd);
    }
    SignUpDiffers(c, atTx, uuid, text, ehloSecret, rnd, first);
  }

  lemma StartsAtAddress(c: Config, db: Db, ip: Ip, name: string, ehlo: string, rnd: Inputs)
    requires Consistent(db) && ReadStart(c, db, SignUp(ip, name, ehlo), rnd).Success?
    ensures var pc := ReadStart(c, db, SignUp(ip, name, ehlo), rnd).value; pc.SignUpTx? && DeviceStays(db, pc.uuid, ip)
  {
    var row := FindByIp(db, ip).value;
    assert row.uuid in db.identities && db.identities[row.uuid] == row;
  }

  /** The transaction for one device against what another start comes to. */
  lemma SignUpDiffers(
    c: Config, db: Db, uuid: Id, text: string, ehloSecret: string, rnd: Inputs, first: Result<Pc, AppError>
  )
    requires Consistent(db) && |rnd.private| == KEY_LEN
    requires rnd.id !in Ids(db) && c.suite.hash(rnd.token) !in LiveTokens(db) && FindByName(db, text).None?
    requires first.Failure? ==> Refusal(first.error)
    requires first.Success? ==>
               first.value.SignUpTx? && first.value.uuid in db.identities && first.value.uuid != uuid
    ensures var (db', pc) := Next(c, db, SignUpTx(uuid, text, ehloSecret), rnd);
            var other := if first.Failure? then (db, Failed(first.error))
                         else Outcome(db, Write(c, db, first.value, rnd));
            (db', pc) != (other.0, Done(other.1))
  {
    if first.Success? {
      OutcomesDiffer(c, db, uuid, text, ehloSecret, first.value.uuid, first.value.name, first.value.ehloSecret, rnd);
    } else {
      SignUpAllOrNothing(c, db, uuid, text, ehloSecret, rnd);
    }
  }

  /** What the caller sees of a transaction: unchanged tables if it failed. */
  ghost function Outcome(db: Db, r: Result<(Db, Reply), AppError>): (Db, Reply) {
    if r.Success? then r.value else (db, Failed(r.error))
  }

  /** Transactions that link different devices never come to the same, if the first one's name is free. */
  lemma OutcomesDiffer(
    c: Config, db: Db, a: Id, nameA: string, ehloA: string, b: Id, nameB: string, ehloB: string, rnd: Inputs
  )
    requires Consistent(db) && rnd.id !in Ids(db) && c.suite.hash(rnd.token) !in LiveTokens(db)
    requires FindByName(db, nameA).None? && a != b && b in db.identities
    ensures Outcome(db, SignUpTransaction(c, db, a, nameA, ehloA, rnd)) !=
            Outcome(db, SignUpTransaction(c, db, b, nameB, ehloB, rnd))
  {
    SignUpAllOrNothing(c, db, a, nameA, ehloA, rnd);
    SignUpAllOrNothing(c, db, b, nameB, ehloB, rnd);
    assert db.identities[b].token != Some(c.suite.hash(rnd.token));
    var left := Outcome(db, SignUpTransaction(c, db, a, nameA, ehloA, rnd));
    var right := Outcome(db, SignUpTransaction(c, db, b, nameB, ehloB, rnd));
    if a in db.identities && FindByName(db, nameB).None? {
      assert left.0.identities[b] == db.identities[b];
      assert right.0.identities[b].token == Some(c.suite.hash(rnd.token));
    }
  }

  /** An error that a handler itself refuses a request with, as opposed to one of the database. */
  predicate Refusal(error: AppError) {
    error.Validation? || error.Unauthorized? || error.Crypto?
  }

  lemma DecryptRefuses(c: Config, text: string, row: Identity)
    ensures DeviceKey(c, row).Failure? ==> Refusal(DeviceKey(c, row).error)
    ensures DecryptFromClient(c, text, row).Failure? ==> Refusal(DecryptFromClient(c, text, row).error)
  {
  }

  lemma ClaimRefuses(c: Config, row: Identity, name: string, ehlo: string)
    ensures DecodeClaim(c, row, name, ehlo).Failure? ==> Refusal(DecodeClaim(c, row, name, ehlo).error)
  {
    DecryptRefuses(c, name, row);
    DecryptRefuses(c, ehlo, row);
  }

  lemma SignUpErrors(c: Config, db: Db, ip: Ip, name: string, ehlo: string, rnd: Inputs)
    ensures var first := ReadStart(c, db, SignUp(ip, name, ehlo), rnd);
            first.Failure? ==> Refusal(first.error)
  {
    if FindByIp(db, ip).Some? {
      ClaimRefuses(c, FindByIp(db, ip).value, name, ehlo);
    }
  }

  /** The device that holds the address decodes the request to a valid name that is taken. */
  ghost predicate ConflictsThere(c: Config, db: Db, ip: Ip, name: string, ehlo: string) {
    && FindByIp(db, ip).Some?
    && var claim := DecodeClaim(c, FindByIp(db, ip).value, name, ehlo);
       claim.Success? && 0 < claim.value.nameLen <= MAX_NAME_LEN && FindByName(db, claim.value.name).Some?
  }

  lemma ConflictIsRead(c: Config, db: Db, ip: Ip, name: string, ehlo: string, rnd: Inputs)
    ensures var first := ReadStart(c, db, SignUp(ip, name, ehlo), rnd);
            ConflictsThere(c, db, ip, name, ehlo) <==> first.Success? && FindByName(db, first.value.name).Some?
  {
  }

  /** With the name taken the transaction replies with a conflict, whatever became of the device; an
      atomic sign-up replies so exactly if the device then at the address decodes to a taken name. */
  lemma SignUpConflictLinearizes(
    c: Config, atTx: Db, uuid: Id, ip: Ip, name: string, ehlo: string, text: string, ehloSecret: string, rnd: Inputs
  )
    requires |rnd.private| == KEY_LEN && FindByName(atTx, text).Some?
    ensures Next(c, atTx, SignUpTx(uuid, text, ehloSecret), rnd) == (atTx, Done(Failed(Conflict)))
    ensures Handle(c, atTx, SignUp(ip, name, ehlo), rnd) == (atTx, Failed(Conflict)) <==>
            ConflictsThere(c, atTx, ip, name, ehlo)
  {
    AtomicConflict(c, atTx, ip, name, ehlo, rnd);
  }

  /** The points at which a conflict is the reply of an atomic sign-up, wherever they lie. */
  lemma AtomicConflict(c: Config, db: Db, ip: Ip, name: string, ehlo: string, rnd: Inputs)
    requires |rnd.private| == KEY_LEN
    ensures Handle(c, db, SignUp(ip, name, ehlo), rnd) == (db, Failed(Conflict)) <==>
            ConflictsThere(c, db, ip, name, ehlo)
  {
    SignUpAlone(c, db, ip, name, ehlo, rnd);
    SignUpErrors(c, db, ip, name, ehlo, rnd);
    ConflictIsRead(c, db, ip, name, ehlo, rnd);
    var first := ReadStart(c, db, SignUp(ip, name, ehlo), rnd);
    if first.Success? {
      OnlyTakenNamesConflict(c, db, first.value.uuid, first.value.name, first.value.ehloSecret, rnd);
    }
  }

  lemma OnlyTakenNamesConflict(c: Config, db: Db, uuid: Id, name: string, ehloSecret: string, rnd: Inputs)
    ensures SignUpTransaction(c, db, uuid, name, ehloSecret, rnd) == Failure(Conflict) <==> FindByName(db, name).Some?
  {
  }

  /** A sign-up decoded at one state is the atomic sign-up at its transaction if and only if: the name
      is free and the device still holds the address, or the name is taken and the device that holds
      the address decodes the request to a taken name. */
  lemma SignUpLinearizesExactly(
    c: Config, atDecode: Db, atTx: Db, ip: Ip, name: string, ehlo: string, rnd1: Inputs, rnd2: Inputs
  )
    requires Consistent(atDecode) && Consistent(atTx)
    requires |rnd1.private| == KEY_LEN && |rnd2.private| == KEY_LEN && rnd1.nonce(0) == rnd2.nonce(0)
    requires rnd2.id !in Ids(atTx) && c.suite.hash(rnd2.token) !in LiveTokens(atTx)
    requires ReadStart(c, atDecode, SignUp(ip, name, ehlo), rnd1).Success?
    requires var uuid := ReadStart(c, atDecode, SignUp(ip, name, ehlo), rnd1).value.uuid;
             uuid in atTx.identities ==> SameKeys(atDecode.identities[uuid], atTx.identities[uuid])
    ensures var pc := ReadStart(c, atDecode, SignUp(ip, name, ehlo), rnd1).value;
            AsAtomic(c, atTx, pc, SignUp(ip, name, ehlo), rnd2) <==>
            if FindByName(atTx, pc.name).None? then DeviceStays(atTx, pc.uuid, ip)
            else ConflictsThere(c, atTx, ip, name, ehlo)
  {
    var pc := ReadStart(c, atDecode, SignUp(ip, name, ehlo), rnd1).value;
    if FindByName(atTx, pc.name).Some? {
      SignUpConflictLinearizes(c, atTx, pc.uuid, ip, name, ehlo, pc.name, pc.ehloSecret, rnd2);
    } else if DeviceStays(atTx, pc.uuid, ip) {
      SignUpLinearizesIfDeviceStays(c, atDecode, atTx, ip, name, ehlo, rnd1, rnd2);
    } else {
      SignUpLinearizesOnlyIfDeviceStays(c, atTx, pc.uuid, ip, name, ehlo, pc.name, pc.ehloSecret, rnd2);
    }
  }

  /** At the decode that is exactly when the name was already taken then. A conflict whose device is
      gone by the transaction is therefore explained by the decode if the name was taken there; and if
      the name was only taken after the device had gone, by no point of the request. */
  lemma SignUpConflictAtDecode(c: Config, atDecode: Db, ip: Ip, name: string, ehlo: string, rnd: Inputs)
    requires |rnd.private| == KEY_LEN && ReadStart(c, atDecode, SignUp(ip, name, ehlo), rnd).Success?
    ensures Handle(c, atDecode, SignUp(ip, name, ehlo), rnd) == (atDecode, Failed(Conflict)) <==>
            FindByName(atDecode, ReadStart(c, atDecode, SignUp(ip, name, ehlo), rnd).value.name).Some?
  {
    AtomicConflict(c, atDecode, ip, name, ehlo, rnd);
    ConflictIsRead(c, atDecode, ip, name, ehlo, rnd);
  }

  /** The failing run, from any database with the name free: the device that decoded the request is
      deleted before the transaction, and the sign-up ends in an error of the database ... */
  lemma DeviceDeletedBetween(c: Config, db: Db, uuid: Id, name: string, ehloSecret: string, rnd1: Inputs, rnd2: Inputs)
    requires Consistent(db) && |rnd1.private| == KEY_LEN && |rnd2.private| == KEY_LEN
    requires FindByName(db, name).None?
    requires rnd2.id !in Ids(db) && c.suite.hash(rnd2.token) !in LiveTokens(db)
    ensures var gone := Next(c, db, DeleteWrite(uuid), rnd1).0;
            Next(c, gone, SignUpTx(uuid, name, ehloSecret), rnd2) == (gone, Done(Failed(Database(RowNotFound))))
  {
    var gone := DeleteIdentity(db, uuid);
    assert Next(c, db, DeleteWrite(uuid), rnd1) == (gone, Done(Unit));
    SignUpWithoutDevice(c, gone, uuid, name, ehloSecret, rnd2) by {
      DeleteIdentityStored(db, uuid);
      SameUsersSameNames(db, gone, name);
    }
  }

  lemma SignUpWithoutDevice(c: Config, db: Db, uuid: Id, name: string, ehloSecret: string, rnd: Inputs)
    requires Consistent(db) && |rnd.private| == KEY_LEN && uuid !in db.identities
    requires FindByName(db, name).None? && rnd.id !in Ids(db) && c.suite.hash(rnd.token) !in LiveTokens(db)
    ensures Next(c, db, SignUpTx(uuid, name, ehloSecret), rnd) == (db, Done(Failed(Database(RowNotFound))))
  {
    SignUpAllOrNothing(c, db, uuid, name, ehloSecret, rnd);
  }

  lemma SameUsersSameNames(a: Db, b: Db, name: string)
    requires a.users == b.users
    ensures FindByName(a, name).None? <==> FindByName(b, name).None?
  {
  }

  /** ... which no atomic sign-up on any database ever gives. */
  lemma AtomicSignUpFindsItsDevice(c: Config, db: Db, ip: Ip, name: string, ehlo: string, rnd: Inputs)
    requires Consistent(db) && |rnd.private| == KEY_LEN
    ensures Handle(c, db, SignUp(ip, name, ehlo), rnd).1 != Failed(Database(RowNotFound))
  {
    SignUpAlone(c, db, ip, name, ehlo, rnd);
    SignUpErrors(c, db, ip, name, ehlo, rnd);
    var first := ReadStart(c, db, SignUp(ip, name, ehlo), rnd);
    if first.Success? {
      DeviceIsThere(c, db, first.value.uuid, first.value.name, first.value.ehloSecret, rnd);
    }
  }

  lemma DeviceIsThere(c: Config, db: Db, uuid: Id, name: string, ehloSecret: string, rnd: Inputs)
    requires uuid in db.identities
    ensures SignUpTransaction(c, db, uuid, name, ehloSecret, rnd) != Failure(Database(RowNotFound))
  {
  }
}
