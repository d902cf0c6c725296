/** One function per writing SQL statement, with the engine's UNIQUE and foreign-key checks; a
    failing statement leaves the tables alone. (src/domain) */
module Statements {
  import opened Wrappers
  import opened Crypto
  import opened Schema

  /** A partial update: a None field is not written. */
  datatype IdentityChanges = IdentityChanges(
    userId: Option<Id>,
    ip: Option<Ip>,
    token: Option<string>,
    confirmed: Option<bool>
  )

  datatype PasswordChanges = PasswordChanges(
    pwd: Option<string>,
    groupId: Option<Id>,
    name: Option<string>,
    extra: Option<string>
  )

  function ApplyIdentity(row: Identity, ch: IdentityChanges): Identity {
    row.(
      userId := if ch.userId.Some? then ch.userId else row.userId,
      ip := ch.ip.GetOr(row.ip),
      token := if ch.token.Some? then ch.token else row.token,
      confirmed := ch.confirmed.GetOr(row.confirmed)
    )
  }

  /** `valid_since` is stamped whatever the changes are; `created_at` and the window length are not touched. */
  function ApplyPassword(row: Password, ch: PasswordChanges, now: int): Password {
    row.(
      pwd := ch.pwd.GetOr(row.pwd),
      groupId := ch.groupId.GetOr(row.groupId),
      name := ch.name.GetOr(row.name),
      extra := ch.extra.GetOr(row.extra),
      validSince := now
    )
  }

  /** No other device row holds this row's token, nor its address once that has a unique index. */
  predicate DeviceFits(db: Db, row: Identity) {
    forall i | i in db.identities && i != row.uuid ::
      && (!db.stage.Unindexed? ==> db.identities[i].ip != row.ip)
      && (row.token.Some? ==> db.identities[i].token != row.token)
  }

  predicate UserExists(db: Db, user: Option<Id>) {
    user.Some? ==> user.value in db.users
  }

  /** A new row gets the highest rowid. */
  function Appended(stage: Stage, uuid: Id): Stage {
    if stage.Unindexed? then Unindexed(stage.rowids + [uuid]) else stage
  }

  function Without(rowids: seq<Id>, uuid: Id): seq<Id> {
    if rowids == [] then []
    else if rowids[0] == uuid then Without(rowids[1..], uuid)
    else [rowids[0]] + Without(rowids[1..], uuid)
  }

  function Removed(stage: Stage, uuid: Id): Stage {
    if stage.Unindexed? then Unindexed(Without(stage.rowids, uuid)) else stage
  }

  function InsertIdentity(db: Db, row: Identity): Result<Db, DbError> {
    if row.uuid in db.identities || !DeviceFits(db, row) then Failure(UniqueViolation)
    else if !UserExists(db, row.userId) then Failure(ForeignKeyViolation)
    else Success(db.(identities := db.identities[row.uuid := row], stage := Appended(db.stage, row.uuid)))
  }

  function UpdateIdentity(db: Db, uuid: Id, ch: IdentityChanges): Result<Db, DbError> {
    if uuid !in db.identities then Failure(RowNotFound)
    else
      var row := ApplyIdentity(db.identities[uuid], ch).(uuid := uuid);
      if !DeviceFits(db, row) then Failure(UniqueViolation)
      else if !UserExists(db, row.userId) then Failure(ForeignKeyViolation)
      else Success(db.(identities := db.identities[uuid := row]))
  }

  /** Deleting a missing row is not an error. */
  function DeleteIdentity(db: Db, uuid: Id): Db {
    db.(identities := db.identities - {uuid}, stage := Removed(db.stage, uuid))
  }

  function InsertUser(db: Db, row: User): Result<Db, DbError> {
    if row.uuid in db.users || exists u :: u in db.users && db.users[u].name == row.name
    then Failure(UniqueViolation)
    else Success(db.(users := db.users[row.uuid := row]))
  }

  function UpdateUser(db: Db, uuid: Id, isDeleted: bool): Result<Db, DbError> {
    if uuid !in db.users then Failure(RowNotFound)
    else Success(db.(users := db.users[uuid := db.users[uuid].(isDeleted := isDeleted)]))
  }

  function InsertGroup(db: Db, row: Group): Result<Db, DbError> {
    if row.uuid in db.groups then Failure(UniqueViolation)
    else if row.userId !in db.users then Failure(ForeignKeyViolation)
    else Success(db.(groups := db.groups[row.uuid := row]))
  }

  /** The statements on passwords name a column that the last migration adds. */
  function InsertPassword(db: Db, row: Password): Result<Db, DbError> {
    if !db.stage.Runtime? then Failure(SchemaMismatch)
    else if row.uuid in db.passwords then Failure(UniqueViolation)
    else if row.groupId !in db.groups then Failure(ForeignKeyViolation)
    else Success(db.(passwords := db.passwords[row.uuid := row]))
  }

  function UpdatePassword(db: Db, uuid: Id, ch: PasswordChanges, now: int): Result<Db, DbError> {
    if !db.stage.Runtime? then Failure(SchemaMismatch)
    else if uuid !in db.passwords then Failure(RowNotFound)
    else
      var row := ApplyPassword(db.passwords[uuid], ch, now);
      if row.groupId !in db.groups then Failure(ForeignKeyViolation)
      else Success(db.(passwords := db.passwords[uuid := row]))
  }

  // ----- every statement keeps what the engine enforces, whatever is written -----

  lemma {:induction false} WithoutRows(rowids: seq<Id>, uuid: Id)
    requires Distinct(rowids)
    ensures Distinct(Without(rowids, uuid))
    ensures forall i :: i in Without(rowids, uuid) <==> i in rowids && i != uuid
  {
    if rowids != [] {
      var rest := rowids[1..];
      assert forall i, j | 0 <= i < j < |rest| :: rest[i] == rowids[i + 1] && rest[j] == rowids[j + 1];
      WithoutRows(rest, uuid);
      assert rowids == [rowids[0]] + rest;
      assert rowids[0] !in rest;
    }
  }

  lemma InsertIdentityStored(db: Db, row: Identity)
    requires Stored(db) && InsertIdentity(db, row).Success?
    ensures Stored(InsertIdentity(db, row).value)
  {
  }

  lemma UpdateIdentityStored(db: Db, uuid: Id, ch: IdentityChanges)
    requires Stored(db) && UpdateIdentity(db, uuid, ch).Success?
    ensures Stored(UpdateIdentity(db, uuid, ch).value)
  {
  }

  lemma DeleteIdentityStored(db: Db, uuid: Id)
    requires Stored(db)
    ensures Stored(DeleteIdentity(db, uuid))
  {
    if db.stage.Unindexed? {
      WithoutRows(db.stage.rowids, uuid);
    }
  }

  lemma InsertUserStored(db: Db, row: User)
    requires Stored(db) && InsertUser(db, row).Success?
    ensures Stored(InsertUser(db, row).value)
  {
  }

  lemma UpdateUserStored(db: Db, uuid: Id, flag: bool)
    requires Stored(db) && UpdateUser(db, uuid, flag).Success?
    ensures Stored(UpdateUser(db, uuid, flag).value)
  {
  }

  lemma InsertGroupStored(db: Db, row: Group)
    requires Stored(db) && InsertGroup(db, row).Success?
    ensures Stored(InsertGroup(db, row).value)
  {
  }

  lemma InsertPasswordStored(db: Db, row: Password)
    requires Stored(db) && InsertPassword(db, row).Success?
    ensures Stored(InsertPassword(db, row).value)
  {
  }

  lemma UpdatePasswordStored(db: Db, uuid: Id, ch: PasswordChanges, now: int)
    requires Stored(db) && UpdatePassword(db, uuid, ch, now).Success?
    ensures Stored(UpdatePassword(db, uuid, ch, now).value)
  {
  }

  // ----- and, under its own condition, what the handlers keep beyond that -----

  lemma InsertIdentityKeeps(c: Config, issued: set<Id>, db: Db, row: Identity)
    requires StoreOk(c, db) && InsertIdentity(db, row).Success?
    requires DeviceKeysOk(c, row) && row.token.None? && row.uuid !in issued
    ensures StoreOk(c, InsertIdentity(db, row).value)
    ensures Evolves(issued, db, InsertIdentity(db, row).value)
  {
    InsertIdentityStored(db, row);
    InsertIdentitySealed(c, db.identities, row);
    SameDataEvolves(db, InsertIdentity(db, row).value);
  }

  lemma InsertIdentitySealed(c: Config, identities: map<Id, Identity>, row: Identity)
    requires DevicesSealed(c, identities) && TokensHaveUsers(identities)
    requires DeviceKeysOk(c, row) && row.token.None?
    ensures DevicesSealed(c, identities[row.uuid := row]) && TokensHaveUsers(identities[row.uuid := row])
  {
  }

  lemma SameDataEvolves(db: Db, db': Db)
    requires db.groups == db'.groups && db.passwords == db'.passwords
    ensures GroupsEvolve(db.groups, db'.groups) && PasswordsEvolve(db, db')
  {
  }

  lemma UpdateIdentityKeeps(c: Config, issued: set<Id>, db: Db, uuid: Id, ch: IdentityChanges)
    requires StoreOk(c, db) && UpdateIdentity(db, uuid, ch).Success?
    requires ch.token.Some? ==> ch.userId.Some? || db.identities[uuid].userId.Some?
    ensures StoreOk(c, UpdateIdentity(db, uuid, ch).value)
    ensures Evolves(issued, db, UpdateIdentity(db, uuid, ch).value)
  {
    UpdateIdentityStored(db, uuid, ch);
    DevicesUpdated(c, issued, db.identities, uuid, ch);
  }

  lemma DevicesUpdated(c: Config, issued: set<Id>, identities: map<Id, Identity>, uuid: Id, ch: IdentityChanges)
    requires uuid in identities && DevicesSealed(c, identities) && TokensHaveUsers(identities)
    requires ch.token.Some? ==> ch.userId.Some? || identities[uuid].userId.Some?
    ensures var after := identities[uuid := ApplyIdentity(identities[uuid], ch).(uuid := uuid)];
            DevicesSealed(c, after) && TokensHaveUsers(after) && DevicesEvolve(issued, identities, after)
  {
  }

  lemma DeleteIdentityKeeps(c: Config, issued: set<Id>, db: Db, uuid: Id)
    requires StoreOk(c, db)
    ensures StoreOk(c, DeleteIdentity(db, uuid))
    ensures Evolves(issued, db, DeleteIdentity(db, uuid))
  {
    DeleteIdentityStored(db, uuid);
  }

  lemma InsertUserKeeps(c: Config, issued: set<Id>, db: Db, row: User)
    requires StoreOk(c, db) && InsertUser(db, row).Success?
    requires Unsealed(c, row.ehloSecret).Success?
    ensures StoreOk(c, InsertUser(db, row).value)
    ensures Evolves(issued, db, InsertUser(db, row).value)
  {
    InsertUserStored(db, row);
  }

  lemma UpdateUserKeeps(c: Config, issued: set<Id>, db: Db, uuid: Id, flag: bool)
    requires StoreOk(c, db) && UpdateUser(db, uuid, flag).Success?
    ensures StoreOk(c, UpdateUser(db, uuid, flag).value)
    ensures Evolves(issued, db, UpdateUser(db, uuid, flag).value)
  {
    UpdateUserStored(db, uuid, flag);
  }

  lemma InsertGroupKeeps(c: Config, issued: set<Id>, db: Db, row: Group)
    requires StoreOk(c, db) && InsertGroup(db, row).Success?
    ensures StoreOk(c, InsertGroup(db, row).value)
    ensures Evolves(issued, db, InsertGroup(db, row).value)
  {
    InsertGroupStored(db, row);
    InsertGroupEvolves(issued, db, row);
  }

  lemma InsertGroupEvolves(issued: set<Id>, db: Db, row: Group)
    requires PasswordsOk(db.passwords, db.groups) && InsertGroup(db, row).Success?
    ensures Evolves(issued, db, InsertGroup(db, row).value)
  {
    var db' := InsertGroup(db, row).value;
    assert forall p | p in db.passwords :: Owner(db', p) == Owner(db, p);
  }

  lemma InsertPasswordKeeps(c: Config, issued: set<Id>, db: Db, row: Password)
    requires StoreOk(c, db) && InsertPassword(db, row).Success?
    requires Unsealed(c, row.pwd).Success?
    ensures StoreOk(c, InsertPassword(db, row).value)
    ensures Evolves(issued, db, InsertPassword(db, row).value)
  {
    InsertPasswordStored(db, row);
    SealedWithPassword(c, db.passwords, row);
    InsertPasswordEvolves(issued, db, row);
  }

  lemma InsertPasswordEvolves(issued: set<Id>, db: Db, row: Password)
    requires InsertPassword(db, row).Success?
    ensures Evolves(issued, db, InsertPassword(db, row).value)
  {
  }

  lemma UpdatePasswordKeeps(c: Config, issued: set<Id>, db: Db, uuid: Id, ch: PasswordChanges, now: int)
    requires StoreOk(c, db) && UpdatePassword(db, uuid, ch, now).Success?
    requires ch.pwd.Some? && Unsealed(c, ch.pwd.value).Success?
    requires ch.groupId.Some? && ch.groupId.value in db.groups
    requires Owner(db, uuid) == Some(db.groups[ch.groupId.value].userId)
    ensures StoreOk(c, UpdatePassword(db, uuid, ch, now).value)
    ensures Evolves(issued, db, UpdatePassword(db, uuid, ch, now).value)
  {
    UpdatePasswordStored(db, uuid, ch, now);
    SealedWithPassword(c, db.passwords, ApplyPassword(db.passwords[uuid], ch, now));
    UpdatePasswordEvolves(issued, db, uuid, ch, now);
  }

  lemma UpdatePasswordEvolves(issued: set<Id>, db: Db, uuid: Id, ch: PasswordChanges, now: int)
    requires UpdatePassword(db, uuid, ch, now).Success?
    requires ch.groupId.Some? && ch.groupId.value in db.groups
    requires Owner(db, uuid) == Some(db.groups[ch.groupId.value].userId)
    ensures Evolves(issued, db, UpdatePassword(db, uuid, ch, now).value)
  {
  }

  lemma SealedWithPassword(c: Config, passwords: map<Id, Password>, row: Password)
    requires PasswordsSealed(c, passwords) && Unsealed(c, row.pwd).Success?
    ensures PasswordsSealed(c, passwords[row.uuid := row])
  {
    var after := passwords[row.uuid := row];
    forall p | p in after ensures Unsealed(c, after[p].pwd).Success? {
      if p != row.uuid {
        assert after[p] == passwords[p];
      }
    }
  }
}
