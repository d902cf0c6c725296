/** The encrypted store as an implementation of a plaintext vault: every step of every request is
    a move of the vault, or leaves it alone, and what a device receives opens under the device's
    own key to what the vault holds. */
module Vault {
  import opened Wrappers
  import opened Hex
  import opened Crypto
  import opened Schema
  import opened Statements
  import opened Protocol
  import opened Guarantee
  import opened Expiry

  // ----- the plaintext vault -----

  datatype Item = Item(
    gid: Id,
    text: Bytes,
    name: string,
    extra: string,
    days: int,
    createdAt: int,
    validSince: int
  )

  datatype Vault = Vault(groups: map<Id, Group>, items: map<Id, Item>)

  datatype Move =
    | Stutter
    | AddGroup(user: Id, gid: Id, gname: string, gextra: string)
    | AddItem(user: Id, pid: Id, item: Item)
    | SetItem(user: Id, pid: Id, gid: Id, text: Bytes, name: Option<string>, extra: Option<string>, now: int)

  predicate OwnsGroup(v: Vault, user: Id, gid: Id) {
    gid in v.groups && v.groups[gid].userId == user
  }

  /** The vault lets a user add to and change only what is the user's own. */
  function Apply(v: Vault, m: Move): Option<Vault> {
    match m
    case Stutter => Some(v)
    case AddGroup(user, gid, name, extra) =>
      if gid in v.groups then None else Some(v.(groups := v.groups[gid := Group(gid, user, name, extra)]))
    case AddItem(user, pid, item) =>
      if pid in v.items || !OwnsGroup(v, user, item.gid) || !(1 <= item.days <= 365) then None
      else Some(v.(items := v.items[pid := item]))
    case SetItem(user, pid, gid, text, name, extra, now) =>
      if pid !in v.items || !OwnsGroup(v, user, v.items[pid].gid) || !OwnsGroup(v, user, gid) then None
      else
        var was := v.items[pid];
        Some(v.(items := v.items[pid := was.(
          gid := gid, text := text, name := name.GetOr(was.name), extra := extra.GetOr(was.extra), validSince := now
        )]))
  }

  // ----- the abstraction -----

  function Text(c: Config, column: string): Bytes {
    var data := Unsealed(c, column);
    if data.Success? then data.value else []
  }

  function ItemOf(c: Config, p: Password): Item {
    Item(p.groupId, Text(c, p.pwd), p.name, p.extra, p.days, p.createdAt, p.validSince)
  }

  function ItemsOf(c: Config, passwords: map<Id, Password>): map<Id, Item> {
    map p | p in passwords :: ItemOf(c, passwords[p])
  }

  function VaultOf(c: Config, db: Db): Vault {
    Vault(db.groups, ItemsOf(c, db.passwords))
  }

  /** The text the server read out of what the device sent. */
  function Sent(c: Config, pwd: string, row: Identity): Bytes {
    var data := DecryptFromClient(c, pwd, row);
    if data.Success? then data.value else []
  }

  /** The vault move a step of a request makes; the user is the authenticated one. */
  ghost function MoveOf(c: Config, db: Db, pc: Pc, rnd: Inputs): Move
    requires !pc.Done? && |rnd.private| == KEY_LEN
  {
    if Reads(pc) || Write(c, db, pc, rnd).Failure? then Stutter
    else
      match pc
      case GroupInsert(user, name, extra) => AddGroup(user, rnd.id, name, extra)
      case PwdInsert(row, op, _) =>
        var item := Item(op.groupId, Sent(c, op.pwd, row), op.pname.GetOr(""), op.pextra.GetOr("{}"),
                         AskedDays(op.days), rnd.now, rnd.now);
        AddItem(row.userId.GetOr(Id("")), rnd.id, item)
      case PwdWrite(row, op, _) =>
        SetItem(row.userId.GetOr(Id("")), op.pid, op.groupId, Sent(c, op.pwd, row), op.pname, op.pextra, rnd.now)
      case _ => Stutter
  }

  lemma ItemsAfter(c: Config, passwords: map<Id, Password>, pid: Id, p: Password)
    ensures ItemsOf(c, passwords[pid := p]) == ItemsOf(c, passwords)[pid := ItemOf(c, p)]
  {
  }

  lemma InsertIsAddItem(c: Config, db: Db, user: Id, p: Password)
    requires InsertPassword(db, p).Success? && 1 <= p.days <= 365
    requires OwnedGroup(db, p.groupId, Some(user))
    ensures Apply(VaultOf(c, db), AddItem(user, p.uuid, ItemOf(c, p)))
            == Some(VaultOf(c, InsertPassword(db, p).value))
  {
    ItemsAfter(c, db.passwords, p.uuid, p);
  }

  lemma InsertMoves(c: Config, issued: set<Id>, db: Db, pc: Pc, rnd: Inputs)
    requires PcOk(c, issued, db, pc) && pc.PwdInsert? && |rnd.private| == KEY_LEN
    requires Write(c, db, pc, rnd).Success?
    ensures Apply(VaultOf(c, db), MoveOf(c, db, pc, rnd)) == Some(VaultOf(c, Next(c, db, pc, rnd).0))
  {
    var p := CreatedRow(pc.op, pc.blob, rnd);
    InsertIsAddItem(c, db, pc.row.userId.value, p);
    assert ItemOf(c, p).text == Sent(c, pc.op.pwd, pc.row);
  }

  lemma UpdateIsSetItem(c: Config, db: Db, user: Id, pid: Id, ch: PasswordChanges, now: int)
    requires Stored(db) && UpdatePassword(db, pid, ch, now).Success?
    requires ch.pwd.Some? && ch.groupId.Some?
    requires Owner(db, pid) == Some(user) && OwnedGroup(db, ch.groupId.value, Some(user))
    ensures Apply(VaultOf(c, db), SetItem(user, pid, ch.groupId.value, Text(c, ch.pwd.value), ch.name, ch.extra, now))
            == Some(VaultOf(c, UpdatePassword(db, pid, ch, now).value))
  {
    ItemsAfter(c, db.passwords, pid, ApplyPassword(db.passwords[pid], ch, now));
  }

  lemma UpdateMoves(c: Config, issued: set<Id>, db: Db, pc: Pc, rnd: Inputs)
    requires Stored(db) && PcOk(c, issued, db, pc) && pc.PwdWrite? && |rnd.private| == KEY_LEN
    requires Write(c, db, pc, rnd).Success?
    ensures Apply(VaultOf(c, db), MoveOf(c, db, pc, rnd)) == Some(VaultOf(c, Next(c, db, pc, rnd).0))
  {
    UpdateIsSetItem(c, db, pc.row.userId.value, pc.op.pid, UpdateChanges(pc.op, pc.blob), rnd.now);
    assert Text(c, pc.blob) == Sent(c, pc.op.pwd, pc.row);
  }

  /** Under any interleaving, a step is exactly one move of the vault by the user that the request
      was authenticated for, with exactly the text that user's device sent. */
  lemma StepRefinesVault(c: Config, issued: set<Id>, db: Db, pc: Pc, rnd: Inputs)
    requires StoreOk(c, db) && PcOk(c, issued, db, pc) && !pc.Done? && |rnd.private| == KEY_LEN
    ensures Apply(VaultOf(c, db), MoveOf(c, db, pc, rnd)) == Some(VaultOf(c, Next(c, db, pc, rnd).0))
  {
    if !Reads(pc) && Write(c, db, pc, rnd).Success? {
      if pc.PwdInsert? {
        InsertMoves(c, issued, db, pc, rnd);
      } else if pc.PwdWrite? {
        UpdateMoves(c, issued, db, pc, rnd);
      } else {
        OtherWritesMove(c, db, pc, rnd);
      }
    }
  }

  lemma OtherWritesMove(c: Config, db: Db, pc: Pc, rnd: Inputs)
    requires !Reads(pc) && !pc.Done? && !pc.PwdInsert? && !pc.PwdWrite? && |rnd.private| == KEY_LEN
    requires Write(c, db, pc, rnd).Success?
    ensures Apply(VaultOf(c, db), MoveOf(c, db, pc, rnd)) == Some(VaultOf(c, Next(c, db, pc, rnd).0))
  {
    if pc.GroupInsert? {
    } else {
      OtherWritesKeepData(c, db, pc, rnd);
    }
  }

  lemma OtherWritesKeepData(c: Config, db: Db, pc: Pc, rnd: Inputs)
    requires !Reads(pc) && !pc.Done? && |rnd.private| == KEY_LEN
    requires !pc.GroupInsert? && !pc.PwdInsert? && !pc.PwdWrite?
    requires Write(c, db, pc, rnd).Success?
    ensures Write(c, db, pc, rnd).value.0.groups == db.groups
    ensures Write(c, db, pc, rnd).value.0.passwords == db.passwords
  {
  }

  // ----- the device's side -----

  /** The device that greeted with the public key of this row knows the matching private key. */
  predicate Holds(c: Config, row: Identity, private: Bytes) {
    |private| == KEY_LEN && c.suite.dh(private, BASE) == row.clientPublic
  }

  /** The key the device derives from the public key it got in the greet reply. */
  function ClientKey(c: Config, row: Identity, private: Bytes): Bytes {
    c.suite.dh(private, row.serverPublic)
  }

  function ClientOpens(c: Config, row: Identity, private: Bytes, blob: string): Result<Bytes, AppError> {
    var data :- DecodeHex(blob);
    Decrypt(c.suite, ClientKey(c, row, private), data)
  }

  lemma DeviceKeyIsClientKey(c: Config, row: Identity, private: Bytes)
    requires ValidConfig(c) && DeviceKeysOk(c, row) && Holds(c, row, private)
    ensures DeviceKey(c, row) == Success(ClientKey(c, row, private))
    ensures |ClientKey(c, row, private)| == KEY_LEN
  {
    KeysAgree(c.suite, Decrypt(c.suite, c.secret, row.serverPrivate).value, private);
  }

  /** What the server reads is the text the device sealed, and nothing the device did not seal is read. */
  lemma ServerReadsWhatDeviceSealed(c: Config, row: Identity, private: Bytes, blob: string, text: Bytes)
    requires ValidConfig(c) && DeviceKeysOk(c, row) && Holds(c, row, private)
    ensures DecryptFromClient(c, blob, row) == Success(text) <==>
            && Decode(blob).Some? && |Decode(blob).value| >= NONCE_LEN
            && Decode(blob).value ==
               Encrypt(c.suite, ClientKey(c, row, private), Decode(blob).value[..NONCE_LEN], text)
  {
    DeviceKeyIsClientKey(c, row, private);
    if Decode(blob).Some? {
      EnvelopeIsSealed(c.suite, ClientKey(c, row, private), Decode(blob).value, text);
    }
  }

  lemma DeviceSealIsRead(c: Config, row: Identity, private: Bytes, nonce: Bytes, text: Bytes)
    requires ValidConfig(c) && DeviceKeysOk(c, row) && Holds(c, row, private) && |nonce| == NONCE_LEN
    ensures DecryptFromClient(c, Encode(Encrypt(c.suite, ClientKey(c, row, private), nonce, text)), row)
            == Success(text)
  {
    var key := ClientKey(c, row, private);
    DeviceKeyIsClientKey(c, row, private);
    RoundTrip(Encrypt(c.suite, key, nonce, text));
    EnvelopeOpens(c.suite, key, nonce, text);
  }

  /** A stored column always re-encrypts for the device, and the device opens it to the stored text. */
  lemma DeviceOpensStored(c: Config, row: Identity, private: Bytes, column: string, nonce: Bytes)
    requires ValidConfig(c) && DeviceKeysOk(c, row) && Holds(c, row, private) && |nonce| == NONCE_LEN
    requires Unsealed(c, column).Success?
    ensures EncryptForClient(c, column, row, nonce).Success?
    ensures ClientOpens(c, row, private, EncryptForClient(c, column, row, nonce).value) == Success(Text(c, column))
  {
    var key := ClientKey(c, row, private);
    DeviceKeyIsClientKey(c, row, private);
    RoundTrip(Encrypt(c.suite, key, nonce, Text(c, column)));
    EnvelopeOpens(c.suite, key, nonce, Text(c, column));
  }

  // ----- get -----

  /** The reply shows this item and this group: the device opens the blob with its own key to the item's
      text, and the days left are counted from the start of the item's window. */
  ghost predicate ShowsItem(
    c: Config, row: Identity, private: Bytes, reply: Reply, pid: Id, item: Item, group: Group, now: int
  ) {
    && reply.Detail? && reply.entry.uuid == pid
    && ClientOpens(c, row, private, reply.entry.pwd) == Success(item.text)
    && reply.name == item.name && reply.extra == item.extra
    && reply.groupName == group.name && reply.groupExtra == group.extra
    && reply.entry.days == item.days
    && (item.days >= 0 ==> reply.entry.expires == DaysLeft(item.validSince, item.days, now))
  }

  /** The request ends with such a reply. */
  ghost predicate Shows(
    c: Config, row: Identity, private: Bytes, next: Result<Pc, AppError>, pid: Id, item: Item, group: Group, now: int
  ) {
    next.Success? && next.value.Done? && ShowsItem(c, row, private, next.value.reply, pid, item, group, now)
  }

  lemma GroupReadReply(c: Config, db: Db, row: Identity, found: Password, rnd: Inputs)
    requires found.groupId in db.groups && EncryptForClient(c, found.pwd, row, rnd.nonce(1)).Success?
    ensures Read(c, db, ReadGroup(row, found), rnd) ==
            var g := db.groups[found.groupId];
            if Some(g.userId) != row.userId then Failure(Unauthorized)
            else
              var blob := EncryptForClient(c, found.pwd, row, rnd.nonce(1)).value;
              Success(Done(Detail(ToEntry(found, blob, rnd.now), found.name, found.extra, g.name, g.extra)))
  {
  }

  /** The second read of a get, at whatever state of the same database it runs: the password found
      at the first read, if its group is the user's. */
  lemma GetReply(c: Config, db: Db, row: Identity, private: Bytes, found: Password, rnd: Inputs)
    requires ValidConfig(c) && Bearer(c, row) && Holds(c, row, private) && ValidInputs(rnd)
    requires Unsealed(c, found.pwd).Success? && found.groupId in db.groups
    ensures var reply := Read(c, db, ReadGroup(row, found), rnd);
            if OwnedGroup(db, found.groupId, row.userId)
            then Shows(c, row, private, reply, found.uuid, ItemOf(c, found), db.groups[found.groupId], rnd.now)
            else reply == Failure(Unauthorized)
  {
    DeviceOpensStored(c, row, private, found.pwd, rnd.nonce(1));
    GroupReadReply(c, db, row, found, rnd);
    if found.days >= 0 {
      RemainingIsCeiling(found.validSince, found.days, rnd.now);
    }
  }

  /** A get reads the password and, later, its group; other requests may run in between. The reply
      is the vault's item as it was at the first read, opened by the device's own key, exactly when
      the item was then the user's own; otherwise the request is refused. */
  lemma GetReturnsVaultItem(
    c: Config, issued: set<Id>, db1: Db, db2: Db, row: Identity, private: Bytes, pid: Id, rnd1: Inputs, rnd2: Inputs
  )
    requires ValidConfig(c) && DbInv(c, db1) && Bearer(c, row) && Holds(c, row, private)
    requires ValidInputs(rnd2) && Evolves(issued, db1, db2)
    ensures var first := ReadAuthed(c, db1, row, PwdGet(pid), rnd1);
            if pid !in VaultOf(c, db1).items then first == Failure(Unauthorized)
            else
              && first.Success? && first.value.ReadGroup?
              && if Owner(db1, pid) == row.userId
                 then
                   var v := VaultOf(c, db1);
                   Shows(c, row, private, Read(c, db2, first.value, rnd2), pid, v.items[pid],
                         v.groups[v.items[pid].gid], rnd2.now)
                 else Read(c, db2, first.value, rnd2) == Failure(Unauthorized)
  {
    GetFinds(c, db1, row, pid, rnd1);
    if pid in db1.passwords {
      GetReply(c, db2, row, private, db1.passwords[pid], rnd2);
      GroupStays(db1, db2, pid, row.userId);
    }
  }

  lemma GetFinds(c: Config, db: Db, row: Identity, pid: Id, rnd: Inputs)
    requires row.userId.Some? && db.stage.Runtime?
    ensures ReadAuthed(c, db, row, PwdGet(pid), rnd) ==
            if pid in VaultOf(c, db).items then Success(ReadGroup(row, db.passwords[pid])) else Failure(Unauthorized)
    ensures pid in db.passwords ==> VaultOf(c, db).items[pid] == ItemOf(c, db.passwords[pid])
  {
  }

  lemma GroupStays(db1: Db, db2: Db, pid: Id, user: Option<Id>)
    requires Stored(db1) && GroupsEvolve(db1.groups, db2.groups) && pid in db1.passwords
    ensures db1.passwords[pid].groupId in db2.groups && db1.passwords[pid].uuid == pid
    ensures db2.groups[db1.passwords[pid].groupId] == db1.groups[db1.passwords[pid].groupId]
    ensures OwnedGroup(db2, db1.passwords[pid].groupId, user) <==> Owner(db1, pid) == user
  {
  }

  // ----- list -----

  /** The entry is that of the row: its blob is sealed with the k-th nonce, the device opens it to the
      stored text, and the days left are counted, or 0 in the list of expired ones. */
  ghost predicate EntryOf(
    c: Config, row: Identity, private: Bytes, p: Password, entry: Entry, expired: bool, rnd: Inputs, k: nat
  ) {
    && entry.uuid == p.uuid && entry.days == p.days
    && EncryptForClient(c, p.pwd, row, rnd.nonce(k)) == Success(entry.pwd)
    && ClientOpens(c, row, private, entry.pwd) == Success(Text(c, p.pwd))
    && (p.days >= 0 ==> entry.expires == if expired then 0 else DaysLeft(p.validSince, p.days, rnd.now))
  }

  lemma OneRowOpens(c: Config, p: Password, row: Identity, private: Bytes, expired: bool, rnd: Inputs, k: nat)
    requires ValidConfig(c) && DeviceKeysOk(c, row) && Holds(c, row, private) && ValidInputs(rnd)
    requires Unsealed(c, p.pwd).Success?
    ensures EncryptForClient(c, p.pwd, row, rnd.nonce(k)).Success?
    ensures var blob := EncryptForClient(c, p.pwd, row, rnd.nonce(k)).value;
            EntryOf(c, row, private, p, ToListed(p, blob, expired, rnd.now), expired, rnd, k)
  {
    DeviceOpensStored(c, row, private, p.pwd, rnd.nonce(k));
    if p.days >= 0 {
      RemainingIsCeiling(p.validSince, p.days, rnd.now);
    }
  }

  ghost predicate EntriesOf(
    c: Config, row: Identity, private: Bytes, rows: seq<Password>, entries: seq<Entry>, expired: bool,
    rnd: Inputs, k: nat
  ) {
    && |entries| == |rows|
    && forall i | 0 <= i < |rows| :: EntryOf(c, row, private, rows[i], entries[i], expired, rnd, k + i)
  }

  lemma EntriesJoin(
    c: Config, row: Identity, private: Bytes, rows: seq<Password>, first: Entry, rest: seq<Entry>, expired: bool,
    rnd: Inputs, k: nat
  )
    requires rows != [] && EntryOf(c, row, private, rows[0], first, expired, rnd, k)
    requires EntriesOf(c, row, private, rows[1..], rest, expired, rnd, k + 1)
    ensures EntriesOf(c, row, private, rows, [first] + rest, expired, rnd, k)
  {
    forall i | 0 <= i < |rows| ensures EntryOf(c, row, private, rows[i], ([first] + rest)[i], expired, rnd, k + i) {
      if i > 0 {
        assert EntryOf(c, row, private, rows[1..][i - 1], rest[i - 1], expired, rnd, k + 1 + (i - 1));
      }
    }
  }

  lemma EncryptsFirst(c: Config, rows: seq<Password>, row: Identity, expired: bool, rnd: Inputs, k: nat)
    requires rows != [] && EncryptForClient(c, rows[0].pwd, row, rnd.nonce(k)).Success?
    requires EncryptRows(c, rows[1..], row, expired, rnd, k + 1).Success?
    ensures EncryptRows(c, rows, row, expired, rnd, k) ==
            Success([ToListed(rows[0], EncryptForClient(c, rows[0].pwd, row, rnd.nonce(k)).value, expired, rnd.now)]
                    + EncryptRows(c, rows[1..], row, expired, rnd, k + 1).value)
  {
  }

  /** Listing never fails on a row, and each entry is that of its row, sealed with a nonce of its own. */
  lemma {:induction false} EveryRowOpens(
    c: Config, rows: seq<Password>, row: Identity, private: Bytes, expired: bool, rnd: Inputs, k: nat
  )
    requires ValidConfig(c) && DeviceKeysOk(c, row) && Holds(c, row, private) && ValidInputs(rnd)
    requires forall i | 0 <= i < |rows| :: Unsealed(c, rows[i].pwd).Success?
    ensures EncryptRows(c, rows, row, expired, rnd, k).Success?
    ensures EntriesOf(c, row, private, rows, EncryptRows(c, rows, row, expired, rnd, k).value, expired, rnd, k)
  {
    if rows != [] {
      var first := ToListed(rows[0], EncryptForClient(c, rows[0].pwd, row, rnd.nonce(k)).value, expired, rnd.now);
      OneRowOpens(c, rows[0], row, private, expired, rnd, k);
      EveryRowOpens(c, rows[1..], row, private, expired, rnd, k + 1);
      EncryptsFirst(c, rows, row, expired, rnd, k);
      var rest := EncryptRows(c, rows[1..], row, expired, rnd, k + 1).value;
      EntriesJoin(c, row, private, rows, first, rest, expired, rnd, k);
    }
  }
}
