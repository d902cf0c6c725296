/** What a list request returns: pages without gap or repeat, and the rows behind them. */
module Listing {
  import opened Wrappers
  import opened Hex
  import opened Crypto
  import opened Schema
  import opened Statements
  import opened Protocol
  import opened Guarantee
  import opened Expiry
  import opened Vault

  /** The request for the page at an offset. */
  function PageRequest(expired: bool, size: int, at: nat): DataOp {
    PwdList(Some(expired), Some(at), Some(size))
  }

  /** All pages from an offset on, requested one after the other. */
  function ListedFrom(rows: seq<Password>, expired: bool, size: int, now: int, at: nat): seq<Password>
    requires 1 <= size <= 200
    decreases |Select(rows, expired, now)| - at
  {
    var page := ListPage(rows, PageRequest(expired, size, at), now);
    if page == [] then [] else page + ListedFrom(rows, expired, size, now, at + size)
  }

  lemma {:induction false} ListedIsPages(rows: seq<Password>, expired: bool, size: int, now: int, at: nat)
    requires 1 <= size <= 200
    ensures ListedFrom(rows, expired, size, now, at) == PagesFrom(Select(rows, expired, now), size, at)
    decreases |Select(rows, expired, now)| - at
  {
    if ListPage(rows, PageRequest(expired, size, at), now) != [] {
      ListedIsPages(rows, expired, size, now, at + size);
    }
  }

  /** For every page size the handler accepts, the pages of successive requests put together are
      exactly the filtered list: no gap, no repeat, nothing out of order. */
  lemma PagesConcatenate(rows: seq<Password>, expired: bool, size: int, now: int)
    requires 1 <= size <= 200
    ensures ListedFrom(rows, expired, size, now, 0) == Select(rows, expired, now)
  {
    ListedIsPages(rows, expired, size, now, 0);
    PagesAreSuffix(Select(rows, expired, now), size, 0);
  }

  /** Whatever numbers are asked for, a page is part of the list and has at most 200 rows. */
  lemma PageIsBounded(rows: seq<Password>, op: DataOp, now: int)
    requires op.PwdList?
    ensures |ListPage(rows, op, now)| <= 200
    ensures forall p | p in ListPage(rows, op, now) :: p in Select(rows, op.expired.GetOr(false), now)
  {
  }

  /** Sizes outside 1 to 200 count as the nearer bound, offsets below 0 as 0, and a missing size as 50. */
  lemma PageIsClamped(rows: seq<Password>, op: DataOp, now: int)
    requires op.PwdList?
    ensures op.size.Some? && op.size.value > 200 ==>
              ListPage(rows, op, now) == ListPage(rows, op.(size := Some(200)), now)
    ensures op.size.Some? && op.size.value < 1 ==>
              ListPage(rows, op, now) == ListPage(rows, op.(size := Some(1)), now)
    ensures op.size.None? ==> ListPage(rows, op, now) == ListPage(rows, op.(size := Some(50)), now)
    ensures op.take.None? || op.take.value < 0 ==>
              ListPage(rows, op, now) == ListPage(rows, op.(take := Some(0)), now)
    ensures op.expired.None? ==> ListPage(rows, op, now) == ListPage(rows, op.(expired := Some(false)), now)
  {
  }

  /** In range, a page is what is there of that many rows from the offset on. */
  lemma PageIsExact(rows: seq<Password>, expired: bool, size: int, at: nat, now: int)
    requires 1 <= size <= 200
    ensures var list := Select(rows, expired, now);
            var page := ListPage(rows, PageRequest(expired, size, at), now);
            && |page| == Min(size, Max(0, |list| - at))
            && forall i | 0 <= i < |page| :: page[i] == list[at + i]
  {
  }

  /** A request without parameters gets the first 50 passwords that are not expired. */
  lemma DefaultPage(rows: seq<Password>, now: int)
    ensures ListPage(rows, PwdList(None, None, None), now) == Take(Select(rows, false, now), 50)
  {
  }

  /** A created password starts with its whole window, of the days asked for when they are in range. */
  lemma CreatedHasWholeWindow(op: DataOp, blob: string, rnd: Inputs)
    requires op.PwdCreate?
    ensures var p := CreatedRow(op, blob, rnd);
            && 1 <= p.days <= 365 && DaysRemaining(p.validSince, p.days, rnd.now) == p.days
            && !IsExpired(p.validSince, p.days, rnd.now) && p.createdAt == p.validSince == rnd.now
            && (op.days.None? ==> p.days == 30)
            && (op.days.Some? && 1 <= op.days.value <= 365 ==> p.days == op.days.value)
            && (op.days.Some? && op.days.value < 1 ==> p.days == 1)
            && (op.days.Some? && op.days.value > 365 ==> p.days == 365)
  {
  }

  /** An updated password has its whole window again, of the days it was created with. */
  lemma UpdatedHasWholeWindow(db: Db, pid: Id, ch: PasswordChanges, now: int)
    requires UpdatePassword(db, pid, ch, now).Success? && 1 <= db.passwords[pid].days
    ensures var p := UpdatePassword(db, pid, ch, now).value.passwords[pid];
            && p.days == db.passwords[pid].days && p.createdAt == db.passwords[pid].createdAt
            && DaysRemaining(p.validSince, p.days, now) == p.days && !IsExpired(p.validSince, p.days, now)
            && forall later :: IsExpired(p.validSince, p.days, later) <==> later >= now + p.days * DAY
  {
    var p := UpdatePassword(db, pid, ch, now).value.passwords[pid];
    UpdateRestoresWindow(p.days, now);
    forall later {
      ExpiredExactlyAtEnd(p.validSince, p.days, later);
    }
  }

  // ----- which rows -----

  /** The engine returns every row of the table once, in some order. */
  ghost predicate IsOrder(order: seq<Id>, passwords: map<Id, Password>) {
    && (forall p | p in passwords :: p in order)
    && (forall i, j | 0 <= i < j < |order| :: order[i] != order[j])
  }

  lemma {:induction false} RowsAreExact(db: Db, order: seq<Id>, gids: set<Id>)
    requires Consistent(db) && forall i, j | 0 <= i < j < |order| :: order[i] != order[j]
    ensures forall r | r in RowsOf(db, order, gids) ::
              r.uuid in order && r.uuid in db.passwords && db.passwords[r.uuid] == r && r.groupId in gids
    ensures forall p | p in order && p in db.passwords && db.passwords[p].groupId in gids ::
              db.passwords[p] in RowsOf(db, order, gids)
    ensures forall i, j | 0 <= i < j < |RowsOf(db, order, gids)| ::
              RowsOf(db, order, gids)[i].uuid != RowsOf(db, order, gids)[j].uuid
  {
    if order != [] {
      RowsAreExact(db, order[1..], gids);
      var rest := RowsOf(db, order[1..], gids);
      forall r | r in rest ensures r.uuid != order[0] {
        var i :| 0 <= i < |order[1..]| && order[1..][i] == r.uuid;
        assert order[i + 1] == r.uuid;
      }
    }
  }

  /** A list reads the user's groups and, later, their passwords; other requests may run in between.
      The rows it filters are passwords of the user, each once, as they are at the second read. It
      has all of them exactly when none then sits in a group made since the first read: a password
      moved into a new group in between is missing, although it was the user's all along. */
  lemma ListRowsAreOwned(issued: set<Id>, db1: Db, db2: Db, user: Id, order: seq<Id>)
    requires Consistent(db1) && Consistent(db2) && Evolves(issued, db1, db2) && IsOrder(order, db2.passwords)
    ensures var rows := RowsOf(db2, order, GroupIdsOf(db1, user));
            && (forall r | r in rows ::
                  r.uuid in db2.passwords && db2.passwords[r.uuid] == r && Owner(db2, r.uuid) == Some(user))
            && (forall i, j | 0 <= i < j < |rows| :: rows[i].uuid != rows[j].uuid)
            && ((forall p | p in db2.passwords && Owner(db2, p) == Some(user) :: db2.passwords[p] in rows) <==>
                (forall p | p in db2.passwords && Owner(db2, p) == Some(user) ::
                   db2.passwords[p].groupId in db1.groups))
  {
    var gids := GroupIdsOf(db1, user);
    var rows := RowsOf(db2, order, gids);
    RowsAreExact(db2, order, gids);
    forall p | p in db2.passwords && Owner(db2, p) == Some(user)
      ensures db2.passwords[p] in rows <==> db2.passwords[p].groupId in db1.groups
    {
      var gid := db2.passwords[p].groupId;
      if gid in db1.groups {
        assert gid in gids && p in order;
      }
    }
  }

  /** The failing case, from any database: between the two reads of a list another request of the
      same user makes a group and moves a password into it. The password is the user's before and
      after, and the list does not show it. */
  lemma MovedPasswordIsMissed(db: Db, p: Id, group: Group, ch: PasswordChanges, now: int, order: seq<Id>)
    requires Consistent(db) && Owner(db, p) == Some(group.userId) && InsertGroup(db, group).Success?
    requires ch.groupId == Some(group.uuid)
    requires forall i, j | 0 <= i < j < |order| :: order[i] != order[j]
    ensures var mid := InsertGroup(db, group).value;
            && UpdatePassword(mid, p, ch, now).Success?
            && var after := UpdatePassword(mid, p, ch, now).value;
               && Owner(after, p) == Some(group.userId)
               && after.passwords[p] !in RowsOf(after, order, GroupIdsOf(db, group.userId))
  {
    var mid := InsertGroup(db, group).value;
    var after := UpdatePassword(mid, p, ch, now).value;
    InsertGroupStored(db, group);
    UpdatePasswordStored(mid, p, ch, now);
    RowsAreExact(after, order, GroupIdsOf(db, group.userId));
  }

  /** The entry lists this item: the device opens the blob to the item's text, and the days left are
      counted from the start of the item's window, or shown as 0 in the list of expired ones. */
  ghost predicate ListsItem(
    c: Config, row: Identity, private: Bytes, entry: Entry, pid: Id, item: Item, expired: bool, now: int
  ) {
    && entry.uuid == pid && entry.days == item.days
    && ClientOpens(c, row, private, entry.pwd) == Success(item.text)
    && (item.days >= 0 ==> entry.expires == if expired then 0 else DaysLeft(item.validSince, item.days, now))
  }

  /** Every listed entry opens under the device's own key to the text the vault holds, and shows the days
      left of its window. */
  lemma ListedEntriesOpen(c: Config, db: Db, row: Identity, private: Bytes, gids: set<Id>, op: DataOp, rnd: Inputs)
    requires ValidConfig(c) && DbInv(c, db) && Bearer(c, row) && Holds(c, row, private) && ValidInputs(rnd)
    requires op.PwdList? && IsOrder(rnd.order, db.passwords)
    ensures var page := ListPage(RowsOf(db, rnd.order, gids), op, rnd.now);
            var reply := Read(c, db, ListPasswords(row, gids, op), rnd);
            && reply.Success? && reply.value.Done? && reply.value.reply.Entries?
            && var entries := reply.value.reply.entries;
               && |entries| == |page|
               && forall i | 0 <= i < |page| ::
                    && page[i].uuid in VaultOf(c, db).items
                    && ListsItem(c, row, private, entries[i], page[i].uuid, VaultOf(c, db).items[page[i].uuid],
                                 op.expired.GetOr(false), rnd.now)
  {
    var page := ListPage(RowsOf(db, rnd.order, gids), op, rnd.now);
    PageRowsStored(c, db, rnd.order, gids, op, rnd.now);
    ListReads(c, db, row, gids, op, rnd);
    PageOpens(c, db, row, private, page, op.expired.GetOr(false), rnd);
  }

  lemma PageOpens(c: Config, db: Db, row: Identity, private: Bytes, page: seq<Password>, expired: bool, rnd: Inputs)
    requires ValidConfig(c) && DeviceKeysOk(c, row) && Holds(c, row, private) && ValidInputs(rnd)
    requires forall i | 0 <= i < |page| ::
               && page[i].uuid in db.passwords && db.passwords[page[i].uuid] == page[i]
               && Unsealed(c, page[i].pwd).Success?
    ensures EncryptRows(c, page, row, expired, rnd, 1).Success?
    ensures var entries := EncryptRows(c, page, row, expired, rnd, 1).value;
            && |entries| == |page|
            && forall i | 0 <= i < |page| ::
                 && page[i].uuid in VaultOf(c, db).items
                 && ListsItem(c, row, private, entries[i], page[i].uuid, VaultOf(c, db).items[page[i].uuid],
                              expired, rnd.now)
  {
    EveryRowOpens(c, page, row, private, expired, rnd, 1);
    forall i | 0 <= i < |page|
      ensures page[i].uuid in VaultOf(c, db).items && VaultOf(c, db).items[page[i].uuid] == ItemOf(c, page[i])
    {
    }
  }

  /** Every row of a page is a stored one, and its column opens. */
  lemma PageRowsStored(c: Config, db: Db, order: seq<Id>, gids: set<Id>, op: DataOp, now: int)
    requires DbInv(c, db) && op.PwdList? && IsOrder(order, db.passwords)
    ensures var page := ListPage(RowsOf(db, order, gids), op, now);
            forall i | 0 <= i < |page| ::
              && page[i].uuid in db.passwords && db.passwords[page[i].uuid] == page[i]
              && Unsealed(c, page[i].pwd).Success?
  {
    var rows := RowsOf(db, order, gids);
    var page := ListPage(rows, op, now);
    RowsAreExact(db, order, gids);
    PageIsBounded(rows, op, now);
    SelectExact(rows, op.expired.GetOr(false), now);
    forall i | 0 <= i < |page|
      ensures page[i].uuid in db.passwords && db.passwords[page[i].uuid] == page[i]
    {
      assert page[i] in page;
    }
  }

  lemma ListReads(c: Config, db: Db, row: Identity, gids: set<Id>, op: DataOp, rnd: Inputs)
    requires db.stage.Runtime? && op.PwdList?
    ensures Read(c, db, ListPasswords(row, gids, op), rnd) ==
            var page := ListPage(RowsOf(db, rnd.order, gids), op, rnd.now);
            var entries := EncryptRows(c, page, row, op.expired.GetOr(false), rnd, 1);
            if entries.Success? then Success(Done(Entries(entries.value))) else Failure(entries.error)
  {
  }
}
