/** State of the admin terminal (src/bin/admin_cli.rs): paging, selection and cached flags, under any
    keys and any server replies. Drawing, key reading and HTTP are left out; a reply is a parameter. */
module AdminCli {
  import opened Wrappers

  const PAGE_SIZE: nat := 10
  const TAB_DEVICES: nat := 0
  const TAB_USERS: nat := 1
  const TAB_EXPORT: nat := 2
  const TAB_IMPORT: nat := 3
  const TAB_COUNT: nat := 4

  datatype Device = Device(uuid: string, userId: Option<string>, confirmed: bool)
  datatype UserRow = UserRow(uuid: string, isDeleted: bool)

  /** A list request got its rows, got an error status, or did not reach the server. */
  datatype Fetched<T> = Rows(rows: seq<T>) | BadStatus | Unreachable

  datatype Key =
    | CtrlC | LowerQ | UpperQ | Esc | Enter | TabKey | BackTab | Up | Down | Left | Right | Space
    | KeyD | KeyR | KeyY | OtherKey

  /** The replies one key press may meet: does the k-th POST or DELETE succeed, what the list
      requests return (for devices, given the flags the server has by then), whether an archive
      exists, and how an import ends (None: no file to read) with which flags on the server. */
  datatype Replies = Replies(
    posts: nat -> bool,
    devices: map<string, bool> -> Fetched<Device>,
    users: Fetched<UserRow>,
    archiveExists: bool,
    imported: Option<bool>,
    importedFlags: map<string, bool>
  )

  /** Whatever flags the server has, a list of devices it returns agrees with them; and the list
      requested right after an import is returned. */
  ghost predicate Honest(r: Replies) {
    && (forall flags :: r.devices(flags).Rows? ==> Synced(r.devices(flags).rows, flags))
    && (r.imported == Some(true) ==> r.devices(r.importedFlags).Rows?)
  }

  function PageCount(rows: nat): nat {
    ((if rows < 1 then 1 else rows) - 1) / PAGE_SIZE + 1
  }

  /** The cached flags of the devices agree with what the server has, row by row. */
  ghost predicate Synced(devices: seq<Device>, server: map<string, bool>) {
    && (forall i, j | 0 <= i < j < |devices| :: devices[i].uuid != devices[j].uuid)
    && (forall i | 0 <= i < |devices| ::
          devices[i].uuid in server ==> server[devices[i].uuid] == devices[i].confirmed)
  }

  function WithFlag(devices: seq<Device>, uuid: string, flag: bool): seq<Device> {
    if devices == [] then []
    else if devices[0].uuid == uuid then [devices[0].(confirmed := flag)] + devices[1..]
    else [devices[0]] + WithFlag(devices[1..], uuid, flag)
  }

  lemma {:induction false} WithFlagRows(devices: seq<Device>, uuid: string, flag: bool)
    requires forall i, j | 0 <= i < j < |devices| :: devices[i].uuid != devices[j].uuid
    ensures |WithFlag(devices, uuid, flag)| == |devices|
    ensures forall i | 0 <= i < |devices| ::
              WithFlag(devices, uuid, flag)[i] ==
              if devices[i].uuid == uuid then devices[i].(confirmed := flag) else devices[i]
  {
    if devices != [] && devices[0].uuid != uuid {
      WithFlagRows(devices[1..], uuid, flag);
    }
  }

  function OfUser(devices: seq<Device>, user: string): seq<Device> {
    if devices == [] then []
    else if devices[0].userId == Some(user) then [devices[0]] + OfUser(devices[1..], user)
    else OfUser(devices[1..], user)
  }

  predicate AllConfirmed(devices: seq<Device>) {
    forall i | 0 <= i < |devices| :: devices[i].confirmed
  }

  function Uuids(devices: seq<Device>): seq<string> {
    seq(|devices|, i requires 0 <= i < |devices| => devices[i].uuid)
  }

  /** Every device is on some page of ten, and the last page is not empty if there is a device. */
  lemma EveryRowHasAPage(rows: nat)
    ensures rows <= PageCount(rows) * 10
    ensures rows > 0 ==> (PageCount(rows) - 1) * 10 < rows
    ensures PageCount(0) == 1
  {
  }

  /** The uuid is that of one of the user's devices. */
  ghost predicate OwnedBy(devices: seq<Device>, user: string, uuid: string) {
    exists i | 0 <= i < |devices| :: devices[i].userId == Some(user) && devices[i].uuid == uuid
  }

  ghost predicate HasDevice(devices: seq<Device>, user: string) {
    exists i | 0 <= i < |devices| :: devices[i].userId == Some(user)
  }

  ghost predicate AllApproved(devices: seq<Device>, user: string) {
    forall i | 0 <= i < |devices| && devices[i].userId == Some(user) :: devices[i].confirmed
  }

  lemma {:induction false} OfUserIsExact(devices: seq<Device>, user: string)
    ensures forall d :: d in OfUser(devices, user) <==> d in devices && d.userId == Some(user)
  {
    if devices != [] {
      OfUserIsExact(devices[1..], user);
    }
  }

  lemma DevicesOfUser(devices: seq<Device>, user: string)
    ensures AllConfirmed(OfUser(devices, user)) <==> AllApproved(devices, user)
    ensures forall u :: u in Uuids(OfUser(devices, user)) <==> OwnedBy(devices, user, u)
    ensures OfUser(devices, user) != [] <==> HasDevice(devices, user)
  {
    var mine := OfUser(devices, user);
    OfUserIsExact(devices, user);
    if mine != [] {
      assert mine[0] in devices;
    }
    if HasDevice(devices, user) {
      var i :| 0 <= i < |devices| && devices[i].userId == Some(user);
      assert devices[i] in mine;
    }
    assert AllConfirmed(mine) <==> forall d | d in mine :: d.confirmed;
    assert AllApproved(devices, user) <==> forall d | d in devices && d.userId == Some(user) :: d.confirmed;
    forall u ensures u in Uuids(mine) <==> OwnedBy(devices, user, u) {
      if u in Uuids(mine) {
        var k :| 0 <= k < |mine| && mine[k].uuid == u;
        assert mine[k] in devices;
      }
      if OwnedBy(devices, user, u) {
        var i :| 0 <= i < |devices| && devices[i].userId == Some(user) && devices[i].uuid == u;
        assert devices[i] in mine;
        var k :| 0 <= k < |mine| && mine[k] == devices[i];
        assert Uuids(mine)[k] == u;
      }
    }
  }

  /** The flag of the selected device was flipped on the server, if the POST succeeded. */
  ghost predicate ToggledOnServer(
    devices: seq<Device>, index: Option<nat>, ok: bool, before: map<string, bool>, after: map<string, bool>
  ) {
    if index.None? || !ok || index.value >= |devices| then after == before
    else after == before[devices[index.value].uuid := !devices[index.value].confirmed]
  }

  /** Every device of the user has on the server the flag that approves all, or revokes all if all were
      approved. */
  ghost predicate ApprovedOnServer(devices: seq<Device>, user: string, after: map<string, bool>) {
    forall u | OwnedBy(devices, user, u) :: u in after && after[u] == !AllApproved(devices, user)
  }

  predicate SelectedUserAt(users: seq<UserRow>, at: Option<nat>) {
    at.Some? && at.value < |users|
  }

  ghost predicate SameFlag(before: map<string, bool>, after: map<string, bool>, uuid: string) {
    (uuid in after <==> uuid in before) && (uuid in after ==> after[uuid] == before[uuid])
  }

  lemma AllPosted(devices: seq<string>, posts: nat -> bool)
    ensures (forall k :: posts(k)) ==> forall u | u in devices :: Posted(devices, posts, u)
    ensures forall u | u !in devices :: !Posted(devices, posts, u)
  {
  }

  /** The k-th of these POSTs was for this device and succeeded, for some k. */
  ghost predicate Posted(devices: seq<string>, posts: nat -> bool, uuid: string) {
    exists k: nat | k < |devices| :: devices[k] == uuid && posts(k)
  }

  /** The flags after some POSTs: as posted for the devices with a success, as before for the others. */
  ghost predicate FlagsAfter(
    before: map<string, bool>, after: map<string, bool>, devices: seq<string>, flag: bool, posts: nat -> bool
  ) {
    forall u ::
      if Posted(devices, posts, u) then u in after && after[u] == flag
      else (u in after <==> u in before) && (u in after ==> after[u] == before[u])
  }

  function Successes(posts: nat -> bool, n: nat): nat {
    if n == 0 then 0 else Successes(posts, n - 1) + if posts(n - 1) then 1 else 0
  }

  lemma PostedMore(devices: seq<string>, posts: nat -> bool, n: nat, uuid: string)
    requires n < |devices|
    ensures Posted(devices[..n + 1], posts, uuid) <==>
            Posted(devices[..n], posts, uuid) || (devices[n] == uuid && posts(n))
  {
    if Posted(devices[..n], posts, uuid) {
      var k: nat :| k < n && devices[..n][k] == uuid && posts(k);
      assert devices[..n + 1][k] == uuid;
    }
    if devices[n] == uuid && posts(n) {
      assert devices[..n + 1][n] == uuid;
    }
    if Posted(devices[..n + 1], posts, uuid) {
      var k: nat :| k < n + 1 && devices[..n + 1][k] == uuid && posts(k);
      if k < n {
        assert devices[..n][k] == uuid;
      }
    }
  }

  lemma FlagsMore(
    start: map<string, bool>, before: map<string, bool>, after: map<string, bool>,
    devices: seq<string>, flag: bool, posts: nat -> bool, n: nat
  )
    requires n < |devices| && FlagsAfter(start, before, devices[..n], flag, posts)
    requires after == if posts(n) then before[devices[n] := flag] else before
    ensures FlagsAfter(start, after, devices[..n + 1], flag, posts)
  {
    forall u {
      PostedMore(devices, posts, n, u);
    }
  }

  /** The server's device flags, written by this terminal only. */
  class Backend {
    var flags: map<string, bool>

    constructor (flags: map<string, bool>)
      ensures this.flags == flags
    {
      this.flags := flags;
    }

    /** A conclusive POST: it succeeds exactly when the server applied it. */
    method Post(uuid: string, flag: bool, ok: bool)
      modifies this
      ensures flags == if ok then old(flags)[uuid := flag] else old(flags)
    {
      if ok {
        flags := flags[uuid := flag];
      }
    }

    /** A conclusive DELETE. */
    method Drop(uuid: string, ok: bool)
      modifies this
      ensures flags == if ok then old(flags) - {uuid} else old(flags)
    {
      if ok {
        flags := flags - {uuid};
      }
    }
  }

  class App {
    var identities: seq<Device>
    var selected: Option<nat>
    var page: nat
    var totalPages: nat
    var users: seq<UserRow>
    var userSelected: Option<nat>
    var tab: nat
    var pendingDelete: Option<string>
    var pendingExport: bool
    var backendDown: bool

    /** A selected row is a device, and the page count fits the device list. */
    ghost predicate Valid()
      reads this
    {
      && (selected.Some? ==> page * PAGE_SIZE + selected.value < |identities|)
      && ((totalPages == 0 && page == 0 && identities == []) ||
          (totalPages == PageCount(|identities|) && page < totalPages))
      && tab < TAB_COUNT
    }

    constructor ()
      ensures Valid() && identities == []
    {
      identities, selected, page, totalPages := [], None, 0, 0;
      users, userSelected := [], None;
      tab, pendingDelete, pendingExport, backendDown := TAB_DEVICES, None, false, false;
    }

    function PageStart(): nat
      reads this
    {
      page * PAGE_SIZE
    }

    function SelectedIndex(): (r: Option<nat>)
      requires Valid()
      reads this
      ensures r.Some? ==> r.value < |identities|
    {
      if selected.Some? then Some(PageStart() + selected.value) else None
    }

    /** A failed fetch leaves rows, page and selection alone; a successful one pulls the page back
        into the new list and selects its first row. */
    method FetchAll(reply: Fetched<Device>)
      requires Valid()
      modifies this
      ensures Valid() && users == old(users) && userSelected == old(userSelected) && tab == old(tab)
      ensures pendingDelete == old(pendingDelete) && pendingExport == old(pendingExport)
      ensures backendDown == reply.Unreachable?
      ensures !reply.Rows? ==> identities == old(identities) && page == old(page) && selected == old(selected)
      ensures reply.Rows? ==>
                && identities == reply.rows
                && page == (if old(page) < PageCount(|reply.rows|) then old(page) else PageCount(|reply.rows|) - 1)
                && selected == if reply.rows == [] then None else Some(0)
    {
      backendDown := false;
      match reply {
        case Rows(rows) =>
          identities := rows;
          totalPages := PageCount(|rows|);
          if page >= totalPages {
            page := totalPages - 1;
          }
          if rows != [] {
            LastPageStarts(|rows|, page);
          }
          selected := if rows == [] then None else if PageStart() < |rows| then Some(0) else None;
        case BadStatus =>
        case Unreachable =>
          backendDown := true;
      }
    }

    method FetchUsers(reply: Fetched<UserRow>)
      requires Valid()
      modifies `users, `userSelected, `backendDown
      ensures Valid()
      ensures backendDown == reply.Unreachable?
      ensures if reply.Rows? then users == reply.rows else users == old(users) && userSelected == old(userSelected)
      ensures reply.Rows? && reply.rows == [] ==> userSelected == None
      ensures reply.Rows? && reply.rows != [] ==>
                var at := old(userSelected).GetOr(0);
                userSelected == Some(if at < |users| then at else |users| - 1)
    {
      backendDown := false;
      match reply {
        case Rows(rows) =>
          users := rows;
          var at := userSelected.GetOr(0);
          userSelected := if rows == [] then None else Some(if at < |rows| - 1 then at else |rows| - 1);
        case BadStatus =>
        case Unreachable =>
          backendDown := true;
      }
    }

    /** The admin terminal indexes the row without a check; `Valid` makes that safe. */
    method ToggleSelected(ok: bool, backend: Backend)
      requires Valid()
      modifies `identities, backend
      ensures Valid()
      ensures var index := old(SelectedIndex());
              if index.None? || !ok then identities == old(identities) && backend.flags == old(backend.flags)
              else
                var was := old(identities)[index.value];
                && identities == old(identities)[index.value := was.(confirmed := !was.confirmed)]
                && backend.flags == old(backend.flags)[was.uuid := !was.confirmed]
      ensures Synced(old(identities), old(backend.flags)) ==> Synced(identities, backend.flags)
    {
      var index := SelectedIndex();
      if index.Some? {
        var device := identities[index.value];
        backend.Post(device.uuid, !device.confirmed, ok);
        if ok {
          identities := identities[index.value := device.(confirmed := !device.confirmed)];
        }
      }
    }

    method ArmDelete()
      requires Valid()
      modifies `pendingDelete
      ensures Valid()
      ensures pendingDelete == if SelectedIndex().Some? then Some(identities[SelectedIndex().value].uuid)
                               else old(pendingDelete)
    {
      var index := SelectedIndex();
      if index.Some? {
        pendingDelete := Some(identities[index.value].uuid);
      }
    }

    /** The armed device and no other is deleted on the server; the list is fetched again only then. */
    method DeletePending(ok: bool, list: map<string, bool> -> Fetched<Device>, backend: Backend)
      requires Valid()
      modifies this, backend
      ensures Valid() && pendingDelete == None && tab == old(tab)
      ensures backend.flags ==
              if old(pendingDelete).Some? && ok then old(backend.flags) - {old(pendingDelete).value}
              else old(backend.flags)
      ensures if old(pendingDelete).Some? && ok && list(backend.flags).Rows? then identities == list(backend.flags).rows
              else identities == old(identities)
      ensures !ok ==> page == old(page) && selected == old(selected)
    {
      var armed := pendingDelete;
      pendingDelete := None;
      if armed.Some? {
        backend.Drop(armed.value, ok);
        if ok {
          FetchAll(list(backend.flags));
        }
      }
    }

    /** How many devices of the user are confirmed, and how many there are. */
    method UserConf(user: string) returns (confirmed: nat, total: nat)
      ensures total == |set i | 0 <= i < |identities| && identities[i].userId == Some(user)|
      ensures confirmed ==
              |set i | 0 <= i < |identities| && identities[i].userId == Some(user) && identities[i].confirmed|
    {
      confirmed, total := 0, 0;
      ghost var mine: set<int>, done: set<int> := {}, {};
      for k := 0 to |identities|
        invariant mine == set i | 0 <= i < k && identities[i].userId == Some(user)
        invariant done == set i | 0 <= i < k && identities[i].userId == Some(user) && identities[i].confirmed
        invariant total == |mine| && confirmed == |done|
      {
        if identities[k].userId == Some(user) {
          total := total + 1;
          mine := mine + {k};
          if identities[k].confirmed {
            confirmed := confirmed + 1;
            done := done + {k};
          }
        }
      }
    }

    /** The approval loop: one POST for each device, and the cached flag follows each success, so
        with no other writer the cache agrees with the server after any mix of successes and
        failures. */
    method SetFlags(devices: seq<string>, flag: bool, posts: nat -> bool, backend: Backend) returns (ok: nat)
      requires Valid()
      modifies `identities, backend
      ensures Valid() && |identities| == |old(identities)| && ok == Successes(posts, |devices|)
      ensures FlagsAfter(old(backend.flags), backend.flags, devices, flag, posts)
      ensures Synced(old(identities), old(backend.flags)) ==> Synced(identities, backend.flags)
    {
      ok := 0;
      ghost var synced := Synced(identities, backend.flags);
      for k := 0 to |devices|
        invariant Valid() && |identities| == |old(identities)| && ok == Successes(posts, k)
        invariant FlagsAfter(old(backend.flags), backend.flags, devices[..k], flag, posts)
        invariant synced ==> Synced(identities, backend.flags)
      {
        ghost var before := backend.flags;
        backend.Post(devices[k], flag, posts(k));
        FlagsMore(old(backend.flags), before, backend.flags, devices, flag, posts, k);
        if posts(k) {
          ok := ok + 1;
          if synced {
            WithFlagRows(identities, devices[k], flag);
          }
          WithFlagLength(identities, devices[k], flag);
          identities := WithFlag(identities, devices[k], flag);
        }
      }
      assert devices[..|devices|] == devices;
    }

    /** The devices of the selected user. */
    function SelectedUserDevices(): seq<Device>
      reads this
    {
      if userSelected.Some? && userSelected.value < |users| then OfUser(identities, users[userSelected.value].uuid)
      else []
    }

    function SelectedUser(): Option<string>
      reads this
    {
      if userSelected.Some? && userSelected.value < |users| then Some(users[userSelected.value].uuid) else None
    }

    /** Approve every device of the selected user, or revoke them all if all are approved: on the server
        no other device is touched, and a device that is touched is approved exactly if some device of
        the user was not; if every POST succeeds, each device of the user is. */
    method ToggleUserApproval(posts: nat -> bool, list: map<string, bool> -> Fetched<Device>, backend: Backend)
      requires Valid()
      modifies this, backend
      ensures Valid()
      ensures tab == old(tab) && pendingDelete == old(pendingDelete) && pendingExport == old(pendingExport)
      ensures old(SelectedUser()).None? ==> backend.flags == old(backend.flags)
      ensures old(SelectedUser()).Some? ==>
                var user, before := old(SelectedUser()).value, old(backend.flags);
                forall u ::
                  || SameFlag(before, backend.flags, u)
                  || (OwnedBy(old(identities), user, u) && u in backend.flags
                      && backend.flags[u] == !AllApproved(old(identities), user))
      ensures old(SelectedUser()).Some? && (forall k :: posts(k)) ==>
                ApprovedOnServer(old(identities), old(SelectedUser()).value, backend.flags)
      ensures list(backend.flags).Rows? ==>
                identities ==
                if old(SelectedUser()).Some? && HasDevice(old(identities), old(SelectedUser()).value)
                then list(backend.flags).rows else old(identities)
      ensures ((forall flags :: list(flags).Rows? ==> Synced(list(flags).rows, flags))
               && Synced(old(identities), old(backend.flags))) ==> Synced(identities, backend.flags)
    {
      var mine := SelectedUserDevices();
      if SelectedUser().Some? {
        DevicesOfUser(identities, SelectedUser().value);
      }
      AllPosted(Uuids(mine), posts);
      if mine != [] {
        var _ := SetFlags(Uuids(mine), !AllConfirmed(mine), posts, backend);
        FetchAll(list(backend.flags));
      }
    }

    /** After a successful POST the list of users is fetched again; nothing else changes here. */
    method ToggleUserDeleted(ok: bool, reply: Fetched<UserRow>)
      requires Valid()
      modifies `users, `userSelected, `backendDown
      ensures Valid()
      ensures ok && SelectedUserAt(old(users), old(userSelected)) && reply.Rows? ==> users == reply.rows
      ensures !ok || !SelectedUserAt(old(users), old(userSelected)) ==>
                users == old(users) && userSelected == old(userSelected) && backendDown == old(backendDown)
    {
      if userSelected.Some? && userSelected.value < |users| && ok {
        FetchUsers(reply);
      }
    }

    method NextUser()
      requires Valid()
      modifies `userSelected
      ensures Valid()
      ensures users != [] ==>
                var next := old(userSelected).GetOr(0) + 1;
                userSelected == Some(if next < |users| then next else |users| - 1)
      ensures users == [] ==> userSelected == old(userSelected)
    {
      if users != [] {
        var at := userSelected.GetOr(0) + 1;
        userSelected := Some(if at < |users| - 1 then at else |users| - 1);
      }
    }

    method PrevUser()
      requires Valid()
      modifies `userSelected
      ensures Valid()
      ensures userSelected == if old(userSelected).Some? && old(userSelected).value > 0
                              then Some(old(userSelected).value - 1) else old(userSelected)
    {
      var at := userSelected.GetOr(0);
      if at > 0 {
        userSelected := Some(at - 1);
      }
    }

    method NextPage()
      requires Valid()
      modifies `page, `selected
      ensures Valid()
      ensures page == if old(page) + 1 < totalPages then old(page) + 1 else old(page)
      ensures selected == if page != old(page) then Some(0) else old(selected)
    {
      if page + 1 < totalPages {
        page := page + 1;
        LastPageStarts(|identities|, page);
        selected := Some(0);
      }
    }

    method PrevPage()
      requires Valid()
      modifies `page, `selected
      ensures Valid()
      ensures page == if old(page) > 0 then old(page) - 1 else old(page)
      ensures selected == if page != old(page) then Some(0) else old(selected)
    {
      if page > 0 {
        LastPageStarts(|identities|, page);
        page := page - 1;
        selected := Some(0);
      }
    }

    /** The selection moves down but stays on the page and on a device. */
    method NextRow()
      requires Valid()
      modifies `selected
      ensures Valid()
      ensures var next := old(selected).GetOr(0) + 1;
              if page * 10 >= |identities| then selected == old(selected)
              else if next < 10 && page * 10 + next < |identities| then selected == Some(next)
              else
                selected.Some? && selected.value < 10
                && (selected.value == 9 || page * 10 + selected.value == |identities| - 1)
    {
      var start := PageStart();
      var end := if start + PAGE_SIZE < |identities| then start + PAGE_SIZE else |identities|;
      var count := if start < |identities| then end - start else 0;
      if count > 0 {
        var at := selected.GetOr(0) + 1;
        selected := Some(if at < count - 1 then at else count - 1);
      }
    }

    method PrevRow()
      requires Valid()
      modifies `selected
      ensures Valid()
      ensures selected == if old(selected).Some? && old(selected).value > 0 then Some(old(selected).value - 1)
                          else old(selected)
    {
      var at := selected.GetOr(0);
      if at > 0 {
        selected := Some(at - 1);
      }
    }

    /** The imported devices from the first page on, the first one selected, and the imported users, as
        far as they could be fetched. */
    ghost predicate ShowsImport(r: Replies)
      reads this
    {
      && page == 0
      && (r.devices(r.importedFlags).Rows? ==>
            && identities == r.devices(r.importedFlags).rows
            && selected == if identities == [] then None else Some(0))
      && (r.users.Rows? ==> users == r.users.rows)
    }

    /** After a successful import, which replaces the server's flags, both lists are fetched and the
        first page is shown. */
    method FinishImport(r: Replies, backend: Backend)
      requires Valid()
      modifies this, backend
      ensures Valid() && ShowsImport(r) && backend.flags == r.importedFlags
      ensures tab == old(tab) && pendingDelete == old(pendingDelete)
    {
      backend.flags := r.importedFlags;
      FetchAll(r.devices(backend.flags));
      FetchUsers(r.users);
      FirstPageFits();
      page := 0;
    }

    lemma FirstPageFits()
      requires Valid()
      ensures selected.Some? ==> selected.value < |identities|
    {
    }

    method OnEnter(r: Replies, backend: Backend)
      requires Valid()
      modifies this, backend
      ensures Valid() && tab == old(tab) && pendingDelete == old(pendingDelete)
      ensures old(tab) == 0 ==>
                ToggledOnServer(old(identities), old(SelectedIndex()), r.posts(0), old(backend.flags), backend.flags)
      ensures old(tab) == 1 && old(SelectedUser()).Some? && (forall k :: r.posts(k)) ==>
                ApprovedOnServer(old(identities), old(SelectedUser()).value, backend.flags)
      ensures old(tab) == 2 ==>
                pendingExport == r.archiveExists && identities == old(identities) && backend.flags == old(backend.flags)
      ensures old(tab) == 3 && r.imported != Some(true) ==> unchanged(this) && unchanged(backend)
      ensures old(tab) == 3 && r.imported == Some(true) ==> ShowsImport(r) && backend.flags == r.importedFlags
      ensures Honest(r) && Synced(old(identities), old(backend.flags)) ==> Synced(identities, backend.flags)
    {
      if tab == TAB_EXPORT {
        pendingExport := r.archiveExists;
      } else if tab == TAB_IMPORT {
        if r.imported == Some(true) {
          FinishImport(r, backend);
        }
      } else {
        Activate(r, backend);
      }
    }

    method Activate(r: Replies, backend: Backend)
      requires Valid()
      modifies this, backend
      ensures Valid() && tab == old(tab) && pendingDelete == old(pendingDelete)
      ensures old(tab) == 0 ==>
                ToggledOnServer(old(identities), old(SelectedIndex()), r.posts(0), old(backend.flags), backend.flags)
      ensures old(tab) == 1 && old(SelectedUser()).Some? && (forall k :: r.posts(k)) ==>
                ApprovedOnServer(old(identities), old(SelectedUser()).value, backend.flags)
      ensures Honest(r) && Synced(old(identities), old(backend.flags)) ==> Synced(identities, backend.flags)
    {
      if tab == TAB_DEVICES {
        ToggleSelected(r.posts(0), backend);
      } else if tab == TAB_USERS {
        ToggleUserApproval(r.posts, r.devices, backend);
      }
    }

    /** No notice and no question is on the screen. */
    predicate Free()
      reads this
    {
      !backendDown && pendingDelete.None? && !pendingExport
    }

    /** An arrow key moves the selection of the tab that is shown and changes nothing else. */
    method OnArrow(key: Key)
      requires Valid() && (key.Up? || key.Down? || key.Left? || key.Right?)
      modifies `page, `selected, `userSelected
      ensures Valid()
      ensures tab != 0 ==> page == old(page) && selected == old(selected)
      ensures tab != 1 ==> userSelected == old(userSelected)
      ensures tab == 0 && key.Up? ==> page == old(page)
      ensures tab == 0 && key.Up? && old(selected).Some? && old(selected).value > 0 ==>
                selected == Some(old(selected).value - 1)
      ensures tab == 0 && key.Down? ==>
                var next := old(selected).GetOr(0) + 1;
                page == old(page) && (next < 10 && page * 10 + next < |identities| ==> selected == Some(next))
      ensures tab == 0 && key.Right? ==> page == if old(page) + 1 < totalPages then old(page) + 1 else old(page)
      ensures tab == 0 && key.Left? ==> page == if old(page) > 0 then old(page) - 1 else 0
      ensures page != old(page) ==> selected == Some(0)
      ensures tab == 1 && key.Up? && old(userSelected).Some? && old(userSelected).value > 0 ==>
                userSelected == Some(old(userSelected).value - 1)
      ensures tab == 1 && key.Down? && old(userSelected).GetOr(0) + 1 < |users| ==>
                userSelected == Some(old(userSelected).GetOr(0) + 1)
    {
      match key {
        case Up => if tab == TAB_DEVICES { PrevRow(); } else if tab == TAB_USERS { PrevUser(); }
        case Down => if tab == TAB_DEVICES { NextRow(); } else if tab == TAB_USERS { NextUser(); }
        case Left => if tab == TAB_DEVICES { PrevPage(); }
        case Right => if tab == TAB_DEVICES { NextPage(); }
      }
    }

    /** `d` arms the deletion of the selected device, or deletes the selected user; `r` restores the user. */
    method OnDeleteKey(key: Key, r: Replies)
      requires Valid() && (key.KeyD? || key.KeyR?)
      modifies `pendingDelete, `users, `userSelected, `backendDown
      ensures Valid()
      ensures pendingDelete == if tab == 0 && key.KeyD? && SelectedIndex().Some?
                               then Some(identities[SelectedIndex().value].uuid) else old(pendingDelete)
      ensures tab != 1 ==> users == old(users) && backendDown == old(backendDown)
      ensures tab == 1 && !r.posts(0) ==> users == old(users)
      ensures tab == 1 && r.posts(0) && SelectedUserAt(old(users), old(userSelected)) && r.users.Rows? ==>
                users == r.users.rows
    {
      if tab == TAB_USERS {
        ToggleUserDeleted(r.posts(0), r.users);
      } else if tab == TAB_DEVICES && key.KeyD? {
        ArmDelete();
      }
    }

    /** A key while no notice and no question is on the screen. */
    method OnFreeKey(key: Key, r: Replies, backend: Backend) returns (quit: bool)
      requires Valid() && Free() && !key.CtrlC?
      modifies this, backend
      ensures Valid()
      ensures quit <==> key.LowerQ? || key.Esc?
      ensures quit || key.UpperQ? || key.KeyY? || key.OtherKey? ==> unchanged(this) && unchanged(backend)
      ensures !key.Enter? && !key.Space? ==> backend.flags == old(backend.flags) && identities == old(identities)
      ensures tab == if key.TabKey? then (old(tab) + 1) % 4 else if key.BackTab? then (old(tab) + 3) % 4 else old(tab)
      ensures pendingDelete == if old(tab) == 0 && key.KeyD? && old(SelectedIndex()).Some?
                               then Some(identities[old(SelectedIndex()).value].uuid) else None
      ensures key.TabKey? || key.BackTab? ==> page == old(page) && selected == old(selected)
      ensures old(tab) == 0 && (key.Enter? || key.Space?) ==>
                ToggledOnServer(old(identities), old(SelectedIndex()), r.posts(0), old(backend.flags), backend.flags)
      ensures old(tab) == 1 && (key.Enter? || key.Space?) && old(SelectedUser()).Some? && (forall k :: r.posts(k)) ==>
                ApprovedOnServer(old(identities), old(SelectedUser()).value, backend.flags)
      ensures old(tab) == 2 && key.Enter? ==>
                pendingExport == r.archiveExists && identities == old(identities) && backend.flags == old(backend.flags)
      ensures old(tab) == 3 && key.Enter? && r.imported != Some(true) ==> unchanged(this) && unchanged(backend)
      ensures old(tab) == 3 && key.Enter? && r.imported == Some(true) ==>
                ShowsImport(r) && backend.flags == r.importedFlags
      ensures Honest(r) && Synced(old(identities), old(backend.flags)) ==> Synced(identities, backend.flags)
    {
      quit := false;
      match key {
        case LowerQ => quit := true;
        case Esc => quit := true;
        case TabKey => tab := (tab + 1) % TAB_COUNT;
        case BackTab => tab := (tab + TAB_COUNT - 1) % TAB_COUNT;
        case Enter => OnEnter(r, backend);
        case Space => Activate(r, backend);
        case KeyD => OnDeleteKey(key, r);
        case KeyR => OnDeleteKey(key, r);
        case Up => OnArrow(key);
        case Down => OnArrow(key);
        case Left => OnArrow(key);
        case Right => OnArrow(key);
        case _ =>
      }
    }

    /** The answer to an armed delete: `y` carries it out, any key disarms it. */
    method OnDeleteQuestion(key: Key, r: Replies, backend: Backend)
      requires Valid() && pendingDelete.Some?
      modifies this, backend
      ensures Valid() && pendingDelete.None? && tab == old(tab)
      ensures backend.flags == (if key.KeyY? && r.posts(0) then old(backend.flags) - {old(pendingDelete).value}
                                else old(backend.flags))
      ensures !(key.KeyY? && r.posts(0)) ==>
                identities == old(identities) && page == old(page) && selected == old(selected)
      ensures Honest(r) && Synced(old(identities), old(backend.flags)) ==> Synced(identities, backend.flags)
    {
      if key.KeyY? {
        DeletePending(r.posts(0), r.devices, backend);
      } else {
        pendingDelete := None;
      }
    }

    /** One key press; true means quit. With an honest server and no other writer, the cached flags
        agree with the server's after every key. */
    method OnKey(key: Key, r: Replies, backend: Backend) returns (quit: bool)
      requires Valid()
      modifies this, backend
      ensures Valid()
      ensures quit <==>
                || key.CtrlC?
                || (old(backendDown) && (key.Enter? || key.LowerQ? || key.UpperQ? || key.Esc?))
                || (old(Free()) && (key.LowerQ? || key.Esc?))
      ensures quit || old(backendDown) ==> unchanged(this) && unchanged(backend)
      ensures !key.CtrlC? && !old(backendDown) && old(pendingDelete).Some? ==>
                && pendingDelete.None?
                && backend.flags == (if key.KeyY? && r.posts(0) then old(backend.flags) - {old(pendingDelete).value}
                                     else old(backend.flags))
                && (!(key.KeyY? && r.posts(0)) ==>
                      identities == old(identities) && page == old(page) && selected == old(selected))
      ensures !key.CtrlC? && !old(backendDown) && old(pendingDelete).None? && old(pendingExport) ==>
                && !pendingExport && tab == old(tab) && pendingDelete == None && backend.flags == old(backend.flags)
                && identities == old(identities) && page == old(page) && selected == old(selected)
      ensures old(Free()) && !(old(tab) == 0 && key.KeyD?) ==> pendingDelete.None?
      ensures Honest(r) && Synced(old(identities), old(backend.flags)) ==> Synced(identities, backend.flags)
    {
      quit := false;
      if key.CtrlC? {
        quit := true;
      } else if backendDown {
        quit := key.Enter? || key.LowerQ? || key.UpperQ? || key.Esc?;
      } else if pendingDelete.Some? {
        OnDeleteQuestion(key, r, backend);
      } else if pendingExport {
        pendingExport := false;
      } else {
        quit := OnFreeKey(key, r, backend);
      }
    }
  }

  lemma LastPageStarts(rows: nat, page: nat)
    requires rows > 0 && page < PageCount(rows)
    ensures page * PAGE_SIZE < rows
  {
  }

  lemma {:induction false} WithFlagLength(devices: seq<Device>, uuid: string, flag: bool)
    ensures |WithFlag(devices, uuid, flag)| == |devices|
  {
    if devices != [] && devices[0].uuid != uuid {
      WithFlagLength(devices[1..], uuid, flag);
    }
  }

  /** Over every sequence of keys and every mix of replies, from the two fetches at the start on, a
      selected row is a device of the list; and if all replies are honest, the cached flags agree with
      the server's at the end. */
  method Session(first: Replies, keys: seq<Key>, replies: nat -> Replies, backend: Backend) returns (app: App)
    modifies backend
    ensures fresh(app) && app.Valid()
    ensures app.selected.Some? ==> app.page * PAGE_SIZE + app.selected.value < |app.identities|
    ensures Honest(first) && (forall k :: Honest(replies(k))) ==> Synced(app.identities, backend.flags)
  {
    app := new App();
    app.FetchAll(first.devices(backend.flags));
    app.FetchUsers(first.users);
    var k, quit := 0, false;
    while k < |keys| && !quit
      invariant fresh(app) && app.Valid()
      invariant Honest(first) && (forall k :: Honest(replies(k))) ==> Synced(app.identities, backend.flags)
    {
      quit := app.OnKey(keys[k], replies(k), backend);
      k := k + 1;
    }
  }
}
