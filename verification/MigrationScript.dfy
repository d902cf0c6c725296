/** The migration scripts as they run: ordered statements that rewrite the tables in place. Foreign
    keys are off while `add_users_table` runs, so no statement here checks them. */
module MigrationScript {
  import opened Wrappers
  import opened Hex
  import opened Schema
  import opened Expiry
  import opened Migrations

  /** A device row while columns come and go: a column that is not there holds None. */
  datatype WideDevice = WideDevice(
    uuid: Id,
    ip: Ip,
    token: Option<string>,
    ehloSecret: Option<string>,
    userId: Option<Id>,
    serverPrivate: Bytes,
    serverPublic: Bytes,
    clientPublic: Bytes,
    confirmed: bool
  )

  datatype GroupTable = ByDevice(old1: map<Id, Group1>) | ByUser(rows: map<Id, Group>)
  datatype PasswordTable = Plain(plain: map<Id, Password1>) | WithWindow(windowed: map<Id, Password>)

  function Narrow1(d: WideDevice): Device1 {
    Device1(d.uuid, d.ip, d.token, d.ehloSecret.GetOr(""), d.serverPrivate, d.serverPublic, d.clientPublic, d.confirmed)
  }

  function Narrow2(d: WideDevice): Identity {
    Identity(d.uuid, d.userId, d.ip, d.token, d.serverPrivate, d.serverPublic, d.clientPublic, d.confirmed)
  }

  function Narrowed(devices: seq<WideDevice>): seq<Identity> {
    seq(|devices|, i requires 0 <= i < |devices| => Narrow2(devices[i]))
  }

  function Narrowed1(devices: seq<WideDevice>): seq<Device1> {
    seq(|devices|, i requires 0 <= i < |devices| => Narrow1(devices[i]))
  }

  /** The row as ADD COLUMN leaves it: the column holds the first instant of 1970. */
  function Placeholder(p: Password1): Password {
    Password(p.uuid, p.groupId, p.pwd, p.name, p.extra, p.days, p.createdAt, 0)
  }

  function WithoutWindow(p: Password): Password1 {
    Password1(p.uuid, p.groupId, p.pwd, p.name, p.extra, p.days, p.createdAt)
  }

  function AddressesOf(devices: seq<WideDevice>): seq<Ip> {
    seq(|devices|, i requires 0 <= i < |devices| => devices[i].ip)
  }

  lemma {:induction false} NarrowDelete(devices: seq<WideDevice>, keep: set<int>, first: nat)
    ensures Narrowed(DeleteNotIn(devices, keep, first)) == DeleteNotIn(Narrowed(devices), keep, first)
    ensures forall d | d in DeleteNotIn(devices, keep, first) :: d in devices
  {
    if devices != [] {
      var rest := DeleteNotIn(devices[1..], keep, first + 1);
      NarrowDelete(devices[1..], keep, first + 1);
      assert Narrowed(devices)[1..] == Narrowed(devices[1..]);
      assert Narrowed([devices[0]] + rest) == [Narrow2(devices[0])] + Narrowed(rest);
    }
  }

  /** What the DELETE leaves of the wide rows are the latest row of each address. */
  lemma DeleteIsLatest(devices: seq<WideDevice>)
    ensures Narrowed(DeleteNotIn(devices, MaxRowids(AddressesOf(devices)), 0)) == LatestPerIp(Narrowed(devices))
  {
    var rows := Narrowed(devices);
    assert AddressesOf(devices) == IpsOf(rows);
    NarrowDelete(devices, MaxRowids(IpsOf(rows)), 0);
    DeleteLeavesLatest(rows, 0);
    assert rows[0..] == rows;
  }

  class Tables {
    var users: Option<map<Id, User>>
    var devices: seq<WideDevice>
    var groups: GroupTable
    var passwords: PasswordTable

    /** The first schema: no users table, an ehlo on every device. */
    ghost predicate Is1()
      reads this
    {
      && users.None? && groups.ByDevice? && passwords.Plain?
      && forall i | 0 <= i < |devices| :: devices[i].ehloSecret.Some? && devices[i].userId.None?
    }

    ghost predicate Is2()
      reads this
    {
      && users.Some? && groups.ByUser? && passwords.Plain?
      && forall i | 0 <= i < |devices| :: devices[i].ehloSecret.None?
    }

    ghost function View1(): Db1
      requires Is1()
      reads this
    {
      Db1(Narrowed1(devices), groups.old1, passwords.plain)
    }

    ghost function View2(): Db2
      requires Is2()
      reads this
    {
      Db2(users.value, Narrowed(devices), groups.rows, passwords.plain)
    }

    /** `add_users_table`, up. */
    method AddUsersTable()
      requires Is1()
      modifies this
      ensures Is2() && View2() == UsersUp(old(View1()))
    {
      ghost var before := devices;
      BackfillUsers();
      SetUserIds();
      RekeyGroups();
      DropEhloColumn();
      forall i | 0 <= i < |devices| ensures Narrow2(devices[i]) == WithUser(Narrow1(before[i])) {
      }
      assert Narrowed(devices) == UsersUp(old(View1())).identities;
    }

    /** INSERT INTO users SELECT one row for each device. */
    method BackfillUsers()
      modifies `users
      ensures users == Some(UsersFrom(Narrowed1(devices)))
    {
      users := Some(UsersFrom(Narrowed1(devices)));
    }

    /** UPDATE identities SET user_id = uuid. */
    method SetUserIds()
      modifies `devices
      ensures |devices| == |old(devices)|
      ensures forall i | 0 <= i < |devices| :: devices[i] == old(devices)[i].(userId := Some(old(devices)[i].uuid))
    {
      var rows := devices;
      devices := seq(|rows|, i requires 0 <= i < |rows| => rows[i].(userId := Some(rows[i].uuid)));
    }

    /** INSERT INTO groups_new SELECT from groups, then drop and rename. */
    method RekeyGroups()
      requires groups.ByDevice?
      modifies `groups
      ensures groups == ByUser(map g | g in old(groups).old1 :: Rekeyed(old(groups).old1[g]))
    {
      groups := ByUser(map g | g in groups.old1 :: Rekeyed(groups.old1[g]));
    }

    method DropEhloColumn()
      modifies `devices
      ensures |devices| == |old(devices)|
      ensures forall i | 0 <= i < |devices| :: devices[i] == old(devices)[i].(ehloSecret := None)
    {
      var rows := devices;
      devices := seq(|rows|, i requires 0 <= i < |rows| => rows[i].(ehloSecret := None));
    }

    /** `add_users_table`, down. */
    method DropUsersTable()
      requires Is2()
      modifies this
      ensures Is1() && View1() == UsersDown(old(View2()))
    {
      ghost var before, table := devices, users.value;
      RestoreEhloColumn();
      groups := ByDevice(map g | g in groups.rows ::
        Group1(groups.rows[g].uuid, groups.rows[g].userId, groups.rows[g].name, groups.rows[g].extra));
      DropUserIdColumn();
      users := None;
      forall i | 0 <= i < |devices| ensures Narrow1(devices[i]) == WithoutUser(table, Narrow2(before[i])) {
      }
      assert Narrowed1(devices) == UsersDown(old(View2())).identities;
    }

    /** ADD COLUMN with the empty default, then UPDATE from the owning user where there is one. */
    method RestoreEhloColumn()
      requires users.Some?
      modifies `devices
      ensures |devices| == |old(devices)|
      ensures forall i | 0 <= i < |devices| ::
                devices[i] == old(devices)[i].(ehloSecret := Some(EhloOf(users.value, Narrow2(old(devices)[i]))))
    {
      var rows, table := devices, users.value;
      devices := seq(|rows|, i requires 0 <= i < |rows| =>
        rows[i].(ehloSecret := Some(EhloOf(table, Narrow2(rows[i])))));
    }

    method DropUserIdColumn()
      modifies `devices
      ensures |devices| == |old(devices)|
      ensures forall i | 0 <= i < |devices| :: devices[i] == old(devices)[i].(userId := None)
    {
      var rows := devices;
      devices := seq(|rows|, i requires 0 <= i < |rows| => rows[i].(userId := None));
    }

    /** `unique_identity_ip`, up. */
    method CollapseDuplicates()
      requires Is2()
      modifies `devices
      ensures Is2() && Narrowed(devices) == LatestPerIp(old(Narrowed(devices)))
    {
      var keep := MaxRowids(AddressesOf(devices));
      DeleteIsLatest(devices);
      NarrowDelete(devices, keep, 0);
      devices := DeleteNotIn(devices, keep, 0);
      forall i | 0 <= i < |devices| ensures devices[i].ehloSecret.None? {
        assert devices[i] in devices;
      }
    }

    /** `password_valid_since`, up: ADD COLUMN with a placeholder, then UPDATE it from created_at. The
        window of every password goes on as it was counted so far. */
    method AddValidSince()
      requires passwords.Plain?
      modifies `passwords
      ensures passwords.WithWindow? && passwords.windowed.Keys == old(passwords).plain.Keys
      ensures forall p | p in passwords.windowed ::
                WithoutWindow(passwords.windowed[p]) == old(passwords).plain[p]
      ensures forall p, now: int | p in passwords.windowed ::
                DaysRemaining(passwords.windowed[p].validSince, passwords.windowed[p].days, now) ==
                DaysRemaining(old(passwords).plain[p].createdAt, old(passwords).plain[p].days, now)
      ensures forall p | p in passwords.windowed ::
                passwords.windowed[p].validSince == passwords.windowed[p].createdAt
    {
      var plain := passwords.plain;
      var added := map p | p in plain :: Placeholder(plain[p]);
      passwords := WithWindow(map p | p in added :: added[p].(validSince := added[p].createdAt));
    }

    /** All pending migrations of a database of the first schema. */
    method RunPending() returns (db: Db)
      requires Is1()
      modifies this
      ensures db == MigrateUp(old(View1()))
    {
      AddUsersTable();
      CollapseDuplicates();
      AddValidSince();
      assert passwords.windowed == MigrateUp(old(View1())).passwords;
      db := Db(users.value, ByUuid(Narrowed(devices)), groups.rows, passwords.windowed, Runtime);
    }
  }
}
