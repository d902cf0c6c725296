/** The migration chain from the first schema to the runtime schema (migrations/). Device rows are a
    sequence in rowid order, because one migration keeps the row with the highest rowid. */
module Migrations {
  import opened Wrappers
  import opened Hex
  import opened Crypto
  import opened Schema
  import opened Expiry

  // ----- the first schema -----

  datatype Device1 = Device1(
    uuid: Id,
    ip: Ip,
    token: Option<string>,
    ehloSecret: string,
    serverPrivate: Bytes,
    serverPublic: Bytes,
    clientPublic: Bytes,
    confirmed: bool
  )

  datatype Group1 = Group1(uuid: Id, identityId: Id, name: string, extra: string)

  datatype Password1 = Password1(
    uuid: Id,
    groupId: Id,
    pwd: string,
    name: string,
    extra: string,
    days: int,
    createdAt: int
  )

  datatype Db1 = Db1(identities: seq<Device1>, groups: map<Id, Group1>, passwords: map<Id, Password1>)

  /** After `add_users_table`: users own the groups, and devices point at users. */
  datatype Db2 = Db2(
    users: map<Id, User>,
    identities: seq<Identity>,
    groups: map<Id, Group>,
    passwords: map<Id, Password1>
  )

  ghost predicate DistinctUuids(rows: seq<Device1>) {
    forall i, j | 0 <= i < j < |rows| :: rows[i].uuid != rows[j].uuid
  }

  ghost predicate DistinctTokens(rows: seq<Device1>) {
    forall i, j | 0 <= i < j < |rows| && rows[i].token.Some? :: rows[i].token != rows[j].token
  }

  ghost predicate HasDevice(rows: seq<Device1>, uuid: Id) {
    exists i | 0 <= i < |rows| :: rows[i].uuid == uuid
  }

  /** What the first schema enforces. */
  ghost predicate Consistent1(db: Db1) {
    && DistinctUuids(db.identities)
    && DistinctTokens(db.identities)
    && (forall g | g in db.groups :: db.groups[g].uuid == g && HasDevice(db.identities, db.groups[g].identityId))
    && (forall p | p in db.passwords :: db.passwords[p].uuid == p && db.passwords[p].groupId in db.groups)
  }

  ghost predicate Sealed1(c: Config, db: Db1) {
    && (forall i | 0 <= i < |db.identities| ::
          && DeviceKeysOk(c, WithUser(db.identities[i]))
          && Unsealed(c, db.identities[i].ehloSecret).Success?)
    && (forall p | p in db.passwords :: Unsealed(c, db.passwords[p].pwd).Success?)
  }

  // ----- add_users_table, up -----

  /** The device row once it has its user, whose uuid is the device's own, and has lost its ehlo. */
  function WithUser(d: Device1): Identity {
    Identity(d.uuid, Some(d.uuid), d.ip, d.token, d.serverPrivate, d.serverPublic, d.clientPublic, d.confirmed)
  }

  function BackfilledUser(d: Device1): User {
    User(d.uuid, "migrated-" + d.uuid.text, d.ehloSecret, false)
  }

  function UsersFrom(rows: seq<Device1>): map<Id, User> {
    if rows == [] then map[]
    else
      var last := rows[|rows| - 1];
      UsersFrom(rows[..|rows| - 1])[last.uuid := BackfilledUser(last)]
  }

  function Rekeyed(g: Group1): Group {
    Group(g.uuid, g.identityId, g.name, g.extra)
  }

  function UsersUp(db: Db1): Db2 {
    Db2(
      UsersFrom(db.identities),
      seq(|db.identities|, i requires 0 <= i < |db.identities| => WithUser(db.identities[i])),
      map g | g in db.groups :: Rekeyed(db.groups[g]),
      db.passwords
    )
  }

  // ----- add_users_table, down -----

  function EhloOf(users: map<Id, User>, row: Identity): string {
    if row.userId.Some? && row.userId.value in users then users[row.userId.value].ehloSecret else ""
  }

  function WithoutUser(users: map<Id, User>, row: Identity): Device1 {
    Device1(row.uuid, row.ip, row.token, EhloOf(users, row), row.serverPrivate, row.serverPublic,
            row.clientPublic, row.confirmed)
  }

  function UsersDown(db: Db2): Db1 {
    Db1(
      seq(|db.identities|, i requires 0 <= i < |db.identities| => WithoutUser(db.users, db.identities[i])),
      map g | g in db.groups :: Group1(db.groups[g].uuid, db.groups[g].userId, db.groups[g].name, db.groups[g].extra),
      db.passwords
    )
  }

  lemma {:induction false} UsersFromRows(rows: seq<Device1>)
    requires DistinctUuids(rows)
    ensures forall i | 0 <= i < |rows| ::
              rows[i].uuid in UsersFrom(rows) && UsersFrom(rows)[rows[i].uuid] == BackfilledUser(rows[i])
    ensures forall u | u in UsersFrom(rows) :: HasDevice(rows, u)
  {
    if rows != [] {
      var front, last := rows[..|rows| - 1], rows[|rows| - 1];
      UsersFromRows(front);
      forall i | 0 <= i < |rows|
        ensures rows[i].uuid in UsersFrom(rows) && UsersFrom(rows)[rows[i].uuid] == BackfilledUser(rows[i])
      {
        if i < |front| {
          assert front[i] == rows[i];
        }
      }
      forall u | u in UsersFrom(rows) ensures HasDevice(rows, u) {
        if u == last.uuid {
          assert rows[|rows| - 1].uuid == u;
        } else {
          assert HasDevice(front, u);
          var i :| 0 <= i < |front| && front[i].uuid == u;
          assert rows[i].uuid == u;
        }
      }
    }
  }

  /** Going up and down again is the identity on the first schema: every device gets its own ehlo
      back and every group its owner. */
  lemma DownUndoesUp(db: Db1)
    requires DistinctUuids(db.identities)
    ensures UsersDown(UsersUp(db)) == db
  {
    var up := UsersUp(db);
    UsersFromRows(db.identities);
    forall i | 0 <= i < |db.identities|
      ensures UsersDown(up).identities[i] == db.identities[i]
    {
      assert up.identities[i] == WithUser(db.identities[i]);
      assert EhloOf(up.users, up.identities[i]) == db.identities[i].ehloSecret;
    }
    assert UsersDown(up).identities == db.identities;
    assert UsersDown(up).groups == db.groups;
  }

  // ----- unique_identity_ip, up -----

  /** No later row has the address of row i. */
  ghost predicate Latest(rows: seq<Identity>, i: nat)
    requires i < |rows|
  {
    forall j | i < j < |rows| :: rows[j].ip != rows[i].ip
  }

  predicate SeenIp(rows: seq<Identity>, ip: Ip) {
    exists j | 0 <= j < |rows| :: rows[j].ip == ip
  }

  /** The rows whose address no later row has. */
  function LatestPerIp(rows: seq<Identity>): seq<Identity> {
    if rows == [] then []
    else if SeenIp(rows[1..], rows[0].ip) then LatestPerIp(rows[1..])
    else [rows[0]] + LatestPerIp(rows[1..])
  }

  /** The rows kept are the latest ones, each exactly once and in the order they had. */
  lemma {:induction false} KeepsExactlyTheLatest(rows: seq<Identity>)
    ensures forall r | r in LatestPerIp(rows) :: exists i | 0 <= i < |rows| :: rows[i] == r && Latest(rows, i)
    ensures forall i | 0 <= i < |rows| && Latest(rows, i) :: rows[i] in LatestPerIp(rows)
    ensures forall i, j | 0 <= i < j < |LatestPerIp(rows)| :: LatestPerIp(rows)[i].ip != LatestPerIp(rows)[j].ip
    ensures forall i | 0 <= i < |rows| :: SeenIp(LatestPerIp(rows), rows[i].ip)
  {
    if rows != [] {
      var rest := rows[1..];
      KeepsExactlyTheLatest(rest);
      LatestShift(rows);
      var kept := LatestPerIp(rest);
      forall r | r in LatestPerIp(rows) ensures exists i | 0 <= i < |rows| :: rows[i] == r && Latest(rows, i) {
        if r in kept {
          var i :| 0 <= i < |rest| && rest[i] == r && Latest(rest, i);
          assert rows[i + 1] == r && Latest(rows, i + 1);
        } else {
          assert rows[0] == r && Latest(rows, 0);
        }
      }
      forall i | 0 <= i < |rows| && Latest(rows, i) ensures rows[i] in LatestPerIp(rows) {
        if i > 0 {
          assert rest[i - 1] == rows[i] && Latest(rest, i - 1);
        }
      }
      if !SeenIp(rest, rows[0].ip) {
        assert forall j | 0 <= j < |kept| :: kept[j].ip != rows[0].ip by {
          forall j | 0 <= j < |kept| ensures kept[j].ip != rows[0].ip {
            assert kept[j] in kept;
          }
        }
        assert LatestPerIp(rows) == [rows[0]] + kept;
      }
      IpsKept(rows);
    }
  }

  lemma LatestShift(rows: seq<Identity>)
    requires rows != []
    ensures forall i | 0 <= i < |rows| - 1 :: Latest(rows[1..], i) <==> Latest(rows, i + 1)
    ensures Latest(rows, 0) <==> !SeenIp(rows[1..], rows[0].ip)
  {
    var rest := rows[1..];
    forall i | 0 <= i < |rest| ensures Latest(rest, i) <==> Latest(rows, i + 1) {
      if Latest(rest, i) {
        forall j | i + 1 < j < |rows| ensures rows[j].ip != rows[i + 1].ip {
          assert rows[j] == rest[j - 1];
        }
      }
      if Latest(rows, i + 1) {
        forall j | i < j < |rest| ensures rest[j].ip != rest[i].ip {
          assert rest[j] == rows[j + 1];
        }
      }
    }
    if !SeenIp(rest, rows[0].ip) {
      forall j | 0 < j < |rows| ensures rows[j].ip != rows[0].ip {
        assert rows[j] == rest[j - 1];
      }
    }
  }

  /** No address vanishes. */
  lemma {:induction false} IpsKept(rows: seq<Identity>)
    ensures forall i | 0 <= i < |rows| :: SeenIp(LatestPerIp(rows), rows[i].ip)
  {
    if rows != [] {
      var rest := rows[1..];
      IpsKept(rest);
      forall i | 0 <= i < |rows| ensures SeenIp(LatestPerIp(rows), rows[i].ip) {
        if i == 0 && !SeenIp(rest, rows[0].ip) {
          assert LatestPerIp(rows)[0].ip == rows[0].ip;
        } else {
          var k := if i > 0 then i - 1 else var k :| 0 <= k < |rest| && rest[k].ip == rows[0].ip; k;
          assert rest[k].ip == rows[i].ip && SeenIp(LatestPerIp(rest), rest[k].ip);
          var j :| 0 <= j < |LatestPerIp(rest)| && LatestPerIp(rest)[j].ip == rest[k].ip;
          assert SeenIp(rest, rows[0].ip) || LatestPerIp(rows)[j + 1] == LatestPerIp(rest)[j];
        }
      }
    }
  }

  // ----- the DELETE by rowid -----

  /** `MAX(rowid)` of the group of an address: the last position that holds it, -1 if none does. */
  function MaxRowid(ips: seq<Ip>, ip: Ip): (k: int)
    ensures -1 <= k < |ips|
    ensures k >= 0 ==> ips[k] == ip
    ensures forall j | k < j < |ips| :: ips[j] != ip
  {
    if ips == [] then -1
    else if ips[|ips| - 1] == ip then |ips| - 1
    else MaxRowid(ips[..|ips| - 1], ip)
  }

  /** `SELECT MAX(rowid) ... GROUP BY ip_address`. */
  function MaxRowids(ips: seq<Ip>): set<int> {
    set k | 0 <= k < |ips| :: MaxRowid(ips, ips[k])
  }

  /** The rows left by `DELETE ... WHERE rowid NOT IN` this set; the first row has rowid `first`. */
  function DeleteNotIn<T>(rows: seq<T>, keep: set<int>, first: nat): seq<T> {
    if rows == [] then []
    else if first in keep then [rows[0]] + DeleteNotIn(rows[1..], keep, first + 1)
    else DeleteNotIn(rows[1..], keep, first + 1)
  }

  function IpsOf(rows: seq<Identity>): seq<Ip> {
    seq(|rows|, i requires 0 <= i < |rows| => rows[i].ip)
  }

  lemma MaxRowidIsLatest(rows: seq<Identity>, k: nat)
    requires k < |rows|
    ensures k in MaxRowids(IpsOf(rows)) <==> !SeenIp(rows[k + 1..], rows[k].ip)
  {
    var ips, rest := IpsOf(rows), rows[k + 1..];
    if k in MaxRowids(ips) {
      var i :| 0 <= i < |ips| && MaxRowid(ips, ips[i]) == k;
      forall j | 0 <= j < |rest| ensures rest[j].ip != rows[k].ip {
        assert rest[j].ip == ips[k + 1 + j];
      }
    }
    if !SeenIp(rest, rows[k].ip) {
      forall j | k < j < |ips| ensures ips[j] != ips[k] {
        assert rest[j - k - 1].ip == ips[j];
      }
      assert MaxRowid(ips, ips[k]) == k;
    }
  }

  /** The DELETE by rowid leaves exactly the rows whose address no later row has. */
  lemma {:induction false} DeleteLeavesLatest(rows: seq<Identity>, from: nat)
    requires from <= |rows|
    ensures DeleteNotIn(rows[from..], MaxRowids(IpsOf(rows)), from) == LatestPerIp(rows[from..])
    decreases |rows| - from
  {
    if from < |rows| {
      var rest := rows[from..];
      assert rest[0] == rows[from] && rest[1..] == rows[from + 1..];
      MaxRowidIsLatest(rows, from);
      DeleteLeavesLatest(rows, from + 1);
    }
  }

  // ----- password_valid_since, up, and the whole chain -----

  function WithValidSince(p: Password1): Password {
    Password(p.uuid, p.groupId, p.pwd, p.name, p.extra, p.days, p.createdAt, p.createdAt)
  }

  function ByUuid(rows: seq<Identity>): map<Id, Identity> {
    if rows == [] then map[] else ByUuid(rows[1..])[rows[0].uuid := rows[0]]
  }

  /** All three migrations after the first, in order and with nobody else at the tables. */
  function MigrateUp(db: Db1): Db {
    var db2 := UsersUp(db);
    Db(
      db2.users,
      ByUuid(LatestPerIp(db2.identities)),
      db2.groups,
      map p | p in db2.passwords :: WithValidSince(db2.passwords[p]),
      Runtime
    )
  }

  ghost predicate DistinctIds(rows: seq<Identity>) {
    forall i, j | 0 <= i < j < |rows| :: rows[i].uuid != rows[j].uuid
  }

  lemma {:induction false} ByUuidRows(rows: seq<Identity>)
    requires DistinctIds(rows)
    ensures forall u | u in ByUuid(rows) :: ByUuid(rows)[u].uuid == u && ByUuid(rows)[u] in rows
    ensures forall i | 0 <= i < |rows| :: rows[i].uuid in ByUuid(rows) && ByUuid(rows)[rows[i].uuid] == rows[i]
  {
    if rows != [] {
      ByUuidRows(rows[1..]);
      forall i | 0 <= i < |rows| ensures rows[i].uuid in ByUuid(rows) && ByUuid(rows)[rows[i].uuid] == rows[i] {
        if i > 0 {
          assert rows[1..][i - 1] == rows[i];
        }
      }
    }
  }

  lemma KeptDistinct(rows: seq<Identity>)
    requires DistinctIds(rows)
    ensures DistinctIds(LatestPerIp(rows))
  {
    var kept := LatestPerIp(rows);
    KeepsExactlyTheLatest(rows);
    forall i, j | 0 <= i < j < |kept| ensures kept[i].uuid != kept[j].uuid {
      assert kept[i] in kept && kept[j] in kept;
      var a :| 0 <= a < |rows| && rows[a] == kept[i];
      var b :| 0 <= b < |rows| && rows[b] == kept[j];
    }
  }

  /** The device table at the end of the chain is exactly the latest row of each address. */
  lemma KeptTable(rows: seq<Identity>)
    requires DistinctIds(rows)
    ensures var kept := ByUuid(LatestPerIp(rows));
            && (forall u | u in kept ::
                  kept[u].uuid == u && exists i | 0 <= i < |rows| :: rows[i] == kept[u] && Latest(rows, i))
            && (forall i | 0 <= i < |rows| && Latest(rows, i) :: rows[i].uuid in kept && kept[rows[i].uuid] == rows[i])
            && UniqueIps(kept)
  {
    var kept := LatestPerIp(rows);
    KeepsExactlyTheLatest(rows);
    KeptDistinct(rows);
    ByUuidRows(kept);
    forall i | 0 <= i < |rows| && Latest(rows, i)
      ensures rows[i].uuid in ByUuid(kept) && ByUuid(kept)[rows[i].uuid] == rows[i]
    {
      var k :| 0 <= k < |kept| && kept[k] == rows[i];
    }
  }

  lemma IpsInTable(rows: seq<Identity>, i: nat)
    requires DistinctIds(rows) && i < |rows|
    ensures exists u | u in ByUuid(LatestPerIp(rows)) :: ByUuid(LatestPerIp(rows))[u].ip == rows[i].ip
  {
    var kept := LatestPerIp(rows);
    IpsKept(rows);
    KeptDistinct(rows);
    ByUuidRows(kept);
    var k :| 0 <= k < |kept| && kept[k].ip == rows[i].ip;
    assert kept[k].uuid in ByUuid(kept);
  }

  // ----- the chain one migration at a time -----

  /** The database once `add_users_table` is committed. A password has no `valid_since` yet. */
  function AfterUsers(db: Db1): Db {
    var db2 := UsersUp(db);
    Db(
      db2.users,
      ByUuid(db2.identities),
      db2.groups,
      map p | p in db2.passwords :: WithValidSince(db2.passwords[p]),
      Unindexed(seq(|db2.identities|, i requires 0 <= i < |db2.identities| => db2.identities[i].uuid))
    )
  }

  /** The device rows in rowid order. */
  function RowsIn(identities: map<Id, Identity>, rowids: seq<Id>): seq<Identity> {
    if rowids == [] then []
    else if rowids[0] in identities then [identities[rowids[0]]] + RowsIn(identities, rowids[1..])
    else RowsIn(identities, rowids[1..])
  }

  /** `unique_identity_ip` on a database that others may have written to since `add_users_table`. */
  function Collapse(db: Db): Db
    requires db.stage.Unindexed?
  {
    db.(identities := ByUuid(LatestPerIp(RowsIn(db.identities, db.stage.rowids))), stage := Indexed)
  }

  /** `password_valid_since`: the column comes with a placeholder and is set from `created_at`. */
  function AddWindows(db: Db): Db {
    db.(
      passwords := map p | p in db.passwords :: db.passwords[p].(validSince := db.passwords[p].createdAt),
      stage := Runtime
    )
  }

  lemma {:induction false} RowsInAre(identities: map<Id, Identity>, rowids: seq<Id>)
    requires forall i | i in rowids :: i in identities
    ensures |RowsIn(identities, rowids)| == |rowids|
    ensures forall k | 0 <= k < |rowids| :: RowsIn(identities, rowids)[k] == identities[rowids[k]]
  {
    if rowids != [] {
      RowsInAre(identities, rowids[1..]);
    }
  }

  lemma RowsAfterUsers(db: Db1)
    requires DistinctUuids(db.identities)
    ensures RowsIn(AfterUsers(db).identities, AfterUsers(db).stage.rowids) == UsersUp(db).identities
  {
    var rows, rowids := UsersUp(db).identities, AfterUsers(db).stage.rowids;
    assert DistinctIds(rows);
    ByUuidRows(rows);
    forall i | i in rowids ensures i in ByUuid(rows) {
      var k :| 0 <= k < |rows| && rowids[k] == i;
      assert rows[k].uuid in ByUuid(rows);
    }
    RowsInAre(ByUuid(rows), rowids);
  }

  lemma WindowsAdded(passwords: map<Id, Password1>)
    ensures var table := map p | p in passwords :: WithValidSince(passwords[p]);
            (map p | p in table :: table[p].(validSince := table[p].createdAt)) == table
  {
  }

  /** With nobody in between, the three migrations one by one are the chain. */
  lemma ChainIsMigrateUp(db: Db1)
    requires DistinctUuids(db.identities)
    ensures AfterUsers(db).stage.Unindexed?
    ensures AddWindows(Collapse(AfterUsers(db))) == MigrateUp(db)
  {
    RowsAfterUsers(db);
    WindowsAdded(db.passwords);
  }

  /** Each migrated device row is some old device with its user. */
  lemma MigratedDevices(db: Db1)
    requires DistinctUuids(db.identities)
    ensures forall u | u in AfterUsers(db).identities ::
              exists i | 0 <= i < |db.identities| ::
                db.identities[i].uuid == u && AfterUsers(db).identities[u] == WithUser(db.identities[i])
    ensures forall i | 0 <= i < |db.identities| ::
              && db.identities[i].uuid in AfterUsers(db).identities
              && AfterUsers(db).identities[db.identities[i].uuid] == WithUser(db.identities[i])
  {
    var rows := UsersUp(db).identities;
    assert DistinctIds(rows);
    ByUuidRows(rows);
    forall u | u in AfterUsers(db).identities
      ensures exists i | 0 <= i < |db.identities| ::
                db.identities[i].uuid == u && AfterUsers(db).identities[u] == WithUser(db.identities[i])
    {
      var i :| 0 <= i < |rows| && rows[i] == AfterUsers(db).identities[u];
      assert db.identities[i].uuid == u;
    }
    forall i | 0 <= i < |db.identities|
      ensures db.identities[i].uuid in AfterUsers(db).identities
      ensures AfterUsers(db).identities[db.identities[i].uuid] == WithUser(db.identities[i])
    {
      assert rows[i] == WithUser(db.identities[i]);
    }
  }

  lemma MigratedStored(db: Db1)
    requires Consistent1(db)
    ensures Stored(AfterUsers(db)) && AfterUsers(db).stage.Unindexed?
  {
    MigratedKeys(db);
    MigratedUsersOk(db.identities);
    MigratedTokens(db);
    MigratedReferences(db);
    MigratedRowids(db);
  }

  lemma MigratedKeys(db: Db1)
    requires DistinctUuids(db.identities)
    ensures forall u | u in AfterUsers(db).identities :: AfterUsers(db).identities[u].uuid == u
    ensures TokensHaveUsers(AfterUsers(db).identities)
  {
    MigratedDevices(db);
  }

  /** After `add_users_table` everything of the invariant holds but one device per address. */
  lemma UsersStageOk(c: Config, db: Db1)
    requires Consistent1(db) && Sealed1(c, db)
    ensures StoreOk(c, AfterUsers(db)) && AfterUsers(db).stage.Unindexed?
  {
    MigratedStored(db);
    MigratedKeys(db);
    MigratedSealed(c, db);
  }

  /** There, one device per address holds exactly if it held in the first schema. */
  lemma UsersStageIps(db: Db1)
    requires DistinctUuids(db.identities)
    ensures UniqueIps(AfterUsers(db).identities) <==>
            forall i, j | 0 <= i < j < |db.identities| :: db.identities[i].ip != db.identities[j].ip
  {
    var up := AfterUsers(db).identities;
    MigratedDevices(db);
    if UniqueIps(up) {
      forall i, j | 0 <= i < j < |db.identities| ensures db.identities[i].ip != db.identities[j].ip {
        assert up[db.identities[i].uuid].ip != up[db.identities[j].uuid].ip;
      }
    }
  }

  lemma MigratedReferences(db: Db1)
    requires Consistent1(db)
    ensures var up := AfterUsers(db); GroupsOk(up.groups, up.users) && PasswordsOk(up.passwords, up.groups)
    ensures forall i | i in AfterUsers(db).identities && AfterUsers(db).identities[i].userId.Some? ::
              AfterUsers(db).identities[i].userId.value in AfterUsers(db).users
  {
    var up := AfterUsers(db);
    UsersFromRows(db.identities);
    MigratedDevices(db);
    forall g | g in up.groups ensures up.groups[g].uuid == g && up.groups[g].userId in up.users {
      var i :| 0 <= i < |db.identities| && db.identities[i].uuid == db.groups[g].identityId;
    }
  }

  lemma MigratedRowids(db: Db1)
    requires DistinctUuids(db.identities)
    ensures StageOk(AfterUsers(db))
  {
    var up := AfterUsers(db);
    RowidsOfRows(db);
    assert Distinct(up.stage.rowids);
  }

  lemma RowidsOfRows(db: Db1)
    requires DistinctUuids(db.identities)
    ensures forall i :: i in AfterUsers(db).identities <==> i in AfterUsers(db).stage.rowids
  {
    var devices, rowids := AfterUsers(db).identities, AfterUsers(db).stage.rowids;
    MigratedDevices(db);
    forall i ensures i in devices <==> i in rowids {
      if i in rowids {
        var k :| 0 <= k < |rowids| && rowids[k] == i;
        assert db.identities[k].uuid in devices;
      }
      if i in devices {
        var k :| 0 <= k < |db.identities| && db.identities[k].uuid == i;
        assert rowids[k] == i;
      }
    }
  }

  lemma MigratedUsersOk(rows: seq<Device1>)
    requires DistinctUuids(rows)
    ensures UsersOk(UsersFrom(rows))
  {
    UsersFromRows(rows);
    var users := UsersFrom(rows);
    forall u | u in users ensures users[u].uuid == u && users[u].name == "migrated-" + u.text {
      var i :| 0 <= i < |rows| && rows[i].uuid == u;
    }
    forall u, v | u in users && v in users && u != v ensures users[u].name != users[v].name {
      assert ("migrated-" + u.text)[9..] == u.text && ("migrated-" + v.text)[9..] == v.text;
    }
  }

  lemma MigratedTokens(db: Db1)
    requires DistinctUuids(db.identities) && DistinctTokens(db.identities)
    ensures UniqueTokens(AfterUsers(db).identities)
  {
    var devices := AfterUsers(db).identities;
    MigratedDevices(db);
    forall u, v | u in devices && v in devices && u != v && devices[u].token.Some?
      ensures devices[u].token != devices[v].token
    {
      var i :| 0 <= i < |db.identities| && db.identities[i].uuid == u && devices[u] == WithUser(db.identities[i]);
      var j :| 0 <= j < |db.identities| && db.identities[j].uuid == v && devices[v] == WithUser(db.identities[j]);
      assert i < j || j < i;
    }
  }

  lemma MigratedDevicesSealed(c: Config, db: Db1)
    requires DistinctUuids(db.identities)
    requires forall i | 0 <= i < |db.identities| :: DeviceKeysOk(c, WithUser(db.identities[i]))
    ensures DevicesSealed(c, AfterUsers(db).identities)
  {
    var devices := AfterUsers(db).identities;
    MigratedDevices(db);
    forall i | i in devices ensures DeviceKeysOk(c, devices[i]) {
      var k :| 0 <= k < |db.identities| && devices[i] == WithUser(db.identities[k]);
    }
  }

  lemma MigratedUsersSealed(c: Config, rows: seq<Device1>)
    requires DistinctUuids(rows) && forall i | 0 <= i < |rows| :: Unsealed(c, rows[i].ehloSecret).Success?
    ensures UsersSealed(c, UsersFrom(rows))
  {
    UsersFromRows(rows);
    forall u | u in UsersFrom(rows) ensures Unsealed(c, UsersFrom(rows)[u].ehloSecret).Success? {
      var k :| 0 <= k < |rows| && rows[k].uuid == u;
    }
  }

  lemma MigratedPasswordsSealed(c: Config, db: Db1)
    requires forall p | p in db.passwords :: Unsealed(c, db.passwords[p].pwd).Success?
    ensures PasswordsSealed(c, AfterUsers(db).passwords)
  {
    var passwords := AfterUsers(db).passwords;
    forall p | p in passwords ensures Unsealed(c, passwords[p].pwd).Success? {
      assert passwords[p] == WithValidSince(db.passwords[p]);
    }
  }

  lemma MigratedSealed(c: Config, db: Db1)
    requires DistinctUuids(db.identities) && Sealed1(c, db)
    ensures Sealed(c, AfterUsers(db))
  {
    MigratedDevicesSealed(c, db);
    MigratedUsersSealed(c, db.identities);
    MigratedPasswordsSealed(c, db);
  }

  /** A later row than this one has its address. */
  ghost predicate Superseded(db: Db, uuid: Id)
    requires db.stage.Unindexed?
  {
    exists k, j | 0 <= k < j < |db.stage.rowids| ::
      && db.stage.rowids[k] == uuid
      && uuid in db.identities && db.stage.rowids[j] in db.identities
      && db.identities[db.stage.rowids[j]].ip == db.identities[uuid].ip
  }

  lemma RowidsAreRows(db: Db)
    requires Stored(db) && db.stage.Unindexed?
    ensures var rows := RowsIn(db.identities, db.stage.rowids);
            && |rows| == |db.stage.rowids| && DistinctIds(rows)
            && forall k | 0 <= k < |rows| ::
                 db.stage.rowids[k] in db.identities && rows[k] == db.identities[db.stage.rowids[k]]
  {
    RowsInAre(db.identities, db.stage.rowids);
  }

  lemma KeptByPosition(rows: seq<Identity>, k: nat)
    requires DistinctIds(rows) && k < |rows|
    ensures rows[k].uuid in ByUuid(LatestPerIp(rows)) <==> Latest(rows, k)
  {
    KeptTable(rows);
    var kept := ByUuid(LatestPerIp(rows));
    if rows[k].uuid in kept {
      var i :| 0 <= i < |rows| && rows[i] == kept[rows[k].uuid] && Latest(rows, i);
      assert i == k;
    }
  }

  lemma CollapseRow(db: Db, u: Id)
    requires Stored(db) && db.stage.Unindexed? && u in db.identities
    ensures u in Collapse(db).identities <==> !Superseded(db, u)
    ensures exists v :: v in Collapse(db).identities && Collapse(db).identities[v].ip == db.identities[u].ip
  {
    var rowids := db.stage.rowids;
    var rows := RowsIn(db.identities, rowids);
    RowidsAreRows(db);
    var k :| 0 <= k < |rowids| && rowids[k] == u;
    KeptByPosition(rows, k);
    LatestIsNotSuperseded(db, rows, k);
    IpsInTable(rows, k);
  }

  /** Whatever was written since `add_users_table`: a device row stays, and stays as it is, exactly
      when no later row has its address; then addresses are unique, and none has vanished. */
  lemma CollapseKeepsExactly(db: Db)
    requires Stored(db) && db.stage.Unindexed?
    ensures forall u :: u in Collapse(db).identities <==> u in db.identities && !Superseded(db, u)
    ensures forall u | u in Collapse(db).identities :: Collapse(db).identities[u] == db.identities[u]
    ensures UniqueIps(Collapse(db).identities)
    ensures forall u | u in db.identities ::
              exists v :: v in Collapse(db).identities && Collapse(db).identities[v].ip == db.identities[u].ip
  {
    CollapsedRows(db);
    forall u | u in db.identities
      ensures u in Collapse(db).identities <==> !Superseded(db, u)
      ensures exists v :: v in Collapse(db).identities && Collapse(db).identities[v].ip == db.identities[u].ip
    {
      CollapseRow(db, u);
    }
  }

  lemma CollapsedRows(db: Db)
    requires Stored(db) && db.stage.Unindexed?
    ensures forall u | u in Collapse(db).identities ::
              u in db.identities && Collapse(db).identities[u] == db.identities[u]
    ensures UniqueIps(Collapse(db).identities)
  {
    var rows := RowsIn(db.identities, db.stage.rowids);
    RowidsAreRows(db);
    KeptTable(rows);
  }

  lemma LatestIsNotSuperseded(db: Db, rows: seq<Identity>, k: nat)
    requires Stored(db) && db.stage.Unindexed? && k < |rows| && |rows| == |db.stage.rowids|
    requires forall i | 0 <= i < |rows| ::
               db.stage.rowids[i] in db.identities && rows[i] == db.identities[db.stage.rowids[i]]
    ensures Latest(rows, k) <==> !Superseded(db, db.stage.rowids[k])
  {
    var rowids := db.stage.rowids;
    if !Latest(rows, k) {
      var j :| k < j < |rows| && rows[j].ip == rows[k].ip;
      assert rowids[j] in db.identities;
    }
  }

  lemma CollapseStored(db: Db)
    requires Stored(db) && db.stage.Unindexed?
    ensures Stored(Collapse(db)) && Collapse(db).stage.Indexed?
  {
    CollapsedRows(db);
  }

  lemma AddWindowsStored(db: Db)
    requires Stored(db) && db.stage.Indexed?
    ensures AddWindows(db) == db.(stage := Runtime) && Consistent(AddWindows(db))
  {
    assert AddWindows(db).passwords == db.passwords;
  }

  /** The second migration restores one device per address, with requests in flight or without. */
  lemma CollapseKeeps(c: Config, issued: set<Id>, db: Db)
    requires StoreOk(c, db) && db.stage.Unindexed?
    ensures StoreOk(c, Collapse(db)) && Collapse(db).stage.Indexed?
    ensures Evolves(issued, db, Collapse(db))
  {
    CollapsedRows(db);
    assert PasswordsEvolve(db, Collapse(db));
  }

  /** The third migration gives every password the window it was taken to have. */
  lemma AddWindowsKeeps(c: Config, issued: set<Id>, db: Db)
    requires StoreOk(c, db) && db.stage.Indexed?
    ensures AddWindows(db) == db.(stage := Runtime)
    ensures DbInv(c, AddWindows(db)) && Evolves(issued, db, AddWindows(db))
  {
    assert AddWindows(db).passwords == db.passwords;
    assert PasswordsEvolve(db, AddWindows(db));
  }

  /** The chain takes any database of the first schema to one that meets the runtime invariant. */
  lemma MigrationEstablishesInvariant(c: Config, db: Db1)
    requires Consistent1(db) && Sealed1(c, db)
    ensures DbInv(c, MigrateUp(db))
  {
    UsersStageOk(c, db);
    CollapseKeeps(c, {}, AfterUsers(db));
    AddWindowsKeeps(c, {}, Collapse(AfterUsers(db)));
    ChainIsMigrateUp(db);
  }

  /** Nothing the users own is lost: every group and password is there with the same contents and
      owner uuid, and each window starts at the creation time. */
  lemma MigrationKeepsData(db: Db1)
    requires Consistent1(db)
    ensures MigrateUp(db).groups.Keys == db.groups.Keys
    ensures forall g | g in db.groups :: MigrateUp(db).groups[g] == Rekeyed(db.groups[g])
    ensures MigrateUp(db).passwords.Keys == db.passwords.Keys
    ensures forall p | p in db.passwords ::
              && MigrateUp(db).passwords[p] == WithValidSince(db.passwords[p])
              && Owner(MigrateUp(db), p) == Some(db.groups[db.passwords[p].groupId].identityId)
  {
  }

  /** No window moves: the days left of a password are counted from its creation, as before. */
  lemma MigrationKeepsWindows(db: Db1, p: Id, now: int)
    requires p in db.passwords
    ensures var after := MigrateUp(db).passwords;
            && p in after
            && DaysRemaining(after[p].validSince, after[p].days, now) ==
               DaysRemaining(db.passwords[p].createdAt, db.passwords[p].days, now)
  {
    assert MigrateUp(db).passwords[p] == WithValidSince(db.passwords[p]);
  }

  /** A device stays, unchanged but for its user, exactly when no later row has its address; and
      every address still has a device. */
  lemma MigrationKeepsLatestDevices(db: Db1, i: nat)
    requires Consistent1(db) && i < |db.identities|
    ensures var d := db.identities[i];
            var after := MigrateUp(db).identities;
            && ((d.uuid in after && after[d.uuid] == WithUser(d)) <==>
                (forall j | i < j < |db.identities| :: db.identities[j].ip != d.ip))
            && exists u | u in after :: after[u].ip == d.ip
  {
    var rows := UsersUp(db).identities;
    var d, after := db.identities[i], MigrateUp(db).identities;
    KeptTable(rows);
    IpsInTable(rows, i);
    assert rows[i] == WithUser(d);
    if d.uuid in after {
      var k :| 0 <= k < |rows| && rows[k] == after[d.uuid] && Latest(rows, k);
      assert k == i;
      forall j | i < j < |db.identities| ensures db.identities[j].ip != d.ip {
        assert rows[j].ip != rows[i].ip;
      }
    }
    if forall j | i < j < |db.identities| :: db.identities[j].ip != d.ip {
      assert Latest(rows, i);
    }
  }
}
