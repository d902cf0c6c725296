/** The four tables at runtime, what SQLite enforces on them, and what the server keeps beyond that. */
module Schema {
  import opened Wrappers
  import opened Hex
  import opened Crypto

  /** A uuid in its text form, and a source address in its text form. */
  datatype Id = Id(text: string)
  datatype Ip = Ip(text: string)

  datatype User = User(uuid: Id, name: string, ehloSecret: string, isDeleted: bool)

  datatype Identity = Identity(
    uuid: Id,
    userId: Option<Id>,
    ip: Ip,
    token: Option<string>,
    serverPrivate: Bytes,
    serverPublic: Bytes,
    clientPublic: Bytes,
    confirmed: bool
  )

  datatype Group = Group(uuid: Id, userId: Id, name: string, extra: string)

  datatype Password = Password(
    uuid: Id,
    groupId: Id,
    pwd: string,
    name: string,
    extra: string,
    days: int,
    createdAt: int,
    validSince: int
  )

  /** How far the migrations have come. Before `unique_identity_ip` the address column has no unique
      index, and the order in which the device rows were inserted still matters; before
      `password_valid_since` the password table lacks a column that every password statement names. */
  datatype Stage =
    | Unindexed(rowids: seq<Id>)
    | Indexed
    | Runtime

  datatype Db = Db(
    users: map<Id, User>,
    identities: map<Id, Identity>,
    groups: map<Id, Group>,
    passwords: map<Id, Password>,
    stage: Stage
  )

  const EMPTY := Db(map[], map[], map[], map[], Runtime)

  // ----- what the database engine enforces: primary keys, UNIQUE, foreign keys -----

  ghost predicate UsersOk(users: map<Id, User>) {
    && (forall u | u in users :: users[u].uuid == u)
    && (forall u, v | u in users && v in users && u != v :: users[u].name != users[v].name)
  }

  ghost predicate UniqueIps(identities: map<Id, Identity>) {
    forall i, j | i in identities && j in identities && i != j :: identities[i].ip != identities[j].ip
  }

  ghost predicate UniqueTokens(identities: map<Id, Identity>) {
    forall i, j | i in identities && j in identities && i != j && identities[i].token.Some? ::
      identities[i].token != identities[j].token
  }

  /** Device rows but for the unique index on the address. */
  ghost predicate DeviceRowsOk(identities: map<Id, Identity>, users: map<Id, User>) {
    && (forall i | i in identities :: identities[i].uuid == i)
    && UniqueTokens(identities)
    && (forall i | i in identities && identities[i].userId.Some? :: identities[i].userId.value in users)
  }

  ghost predicate DevicesOk(identities: map<Id, Identity>, users: map<Id, User>) {
    DeviceRowsOk(identities, users) && UniqueIps(identities)
  }

  ghost predicate GroupsOk(groups: map<Id, Group>, users: map<Id, User>) {
    forall g | g in groups :: groups[g].uuid == g && groups[g].userId in users
  }

  ghost predicate PasswordsOk(passwords: map<Id, Password>, groups: map<Id, Group>) {
    forall p | p in passwords :: passwords[p].uuid == p && passwords[p].groupId in groups
  }

  ghost predicate Distinct<T(!new)>(s: seq<T>) {
    forall i, j | 0 <= i < j < |s| :: s[i] != s[j]
  }

  /** What belongs to the stage: the unique index on the address once it is there, before that a
      rowid for each device row; and as long as a password has no `valid_since`, the model's field
      holds what the column will get. */
  ghost predicate StageOk(db: Db) {
    && (!db.stage.Unindexed? ==> UniqueIps(db.identities))
    && (db.stage.Unindexed? ==>
          && Distinct(db.stage.rowids)
          && forall i :: i in db.identities <==> i in db.stage.rowids)
    && (!db.stage.Runtime? ==> forall p | p in db.passwords :: db.passwords[p].validSince == db.passwords[p].createdAt)
  }

  /** What the engine enforces in every stage: one row per primary key, one device per token, one
      user per name, every reference points at a row, and what belongs to the stage. */
  ghost predicate Stored(db: Db) {
    && UsersOk(db.users)
    && DeviceRowsOk(db.identities, db.users)
    && GroupsOk(db.groups, db.users)
    && PasswordsOk(db.passwords, db.groups)
    && StageOk(db)
  }

  /** The runtime schema: the same, and one device per address. */
  ghost predicate Consistent(db: Db) {
    && db.stage.Runtime?
    && UsersOk(db.users)
    && DevicesOk(db.identities, db.users)
    && GroupsOk(db.groups, db.users)
    && PasswordsOk(db.passwords, db.groups)
  }

  // ----- what the handlers keep beyond that -----

  ghost predicate TokensHaveUsers(identities: map<Id, Identity>) {
    forall i | i in identities && identities[i].token.Some? :: identities[i].userId.Some?
  }

  /** The device's key pair: the stored private key opens to a 32-byte scalar whose point is the
      stored public key. */
  ghost predicate DeviceKeysOk(c: Config, row: Identity) {
    && |row.clientPublic| == KEY_LEN
    && var private := Decrypt(c.suite, c.secret, row.serverPrivate);
       private.Success? && |private.value| == KEY_LEN && row.serverPublic == c.suite.dh(private.value, BASE)
  }

  /** What a hex column sealed under the database secret holds. */
  function Unsealed(c: Config, text: string): Result<Bytes, AppError> {
    var data :- Decode(text).ToResult(Validation);
    Decrypt(c.suite, c.secret, data)
  }

  ghost predicate DevicesSealed(c: Config, identities: map<Id, Identity>) {
    forall i | i in identities :: DeviceKeysOk(c, identities[i])
  }

  ghost predicate UsersSealed(c: Config, users: map<Id, User>) {
    forall u | u in users :: Unsealed(c, users[u].ehloSecret).Success?
  }

  ghost predicate PasswordsSealed(c: Config, passwords: map<Id, Password>) {
    forall p | p in passwords :: Unsealed(c, passwords[p].pwd).Success?
  }

  /** Everything stored sealed opens under this server's database secret. */
  ghost predicate Sealed(c: Config, db: Db) {
    DevicesSealed(c, db.identities) && UsersSealed(c, db.users) && PasswordsSealed(c, db.passwords)
  }

  /** The database invariant in any stage. */
  ghost predicate StoreOk(c: Config, db: Db) {
    Stored(db) && TokensHaveUsers(db.identities) && Sealed(c, db)
  }

  /** The database invariant at runtime. */
  ghost predicate DbInv(c: Config, db: Db) {
    Consistent(db) && TokensHaveUsers(db.identities) && Sealed(c, db)
  }

  /** Nothing else is missing while the migrations run: the runtime invariant is the invariant of
      every stage and the last stage. */
  lemma RuntimeIsLastStage(c: Config, db: Db)
    ensures DbInv(c, db) <==> StoreOk(c, db) && db.stage.Runtime?
  {
  }

  lemma EmptyDbInv(c: Config)
    ensures DbInv(c, EMPTY)
  {
  }

  // ----- reading -----

  ghost function FindByIp(db: Db, ip: Ip): (r: Option<Identity>)
    ensures r.Some? ==> exists i :: i in db.identities && db.identities[i] == r.value && r.value.ip == ip
    ensures r.None? ==> forall i | i in db.identities :: db.identities[i].ip != ip
  {
    if i :| i in db.identities && db.identities[i].ip == ip then Some(db.identities[i]) else None
  }

  ghost function FindByToken(db: Db, token: string): (r: Option<Identity>)
    ensures r.Some? ==> exists i :: i in db.identities && db.identities[i] == r.value && r.value.token == Some(token)
    ensures r.None? ==> forall i | i in db.identities :: db.identities[i].token != Some(token)
  {
    if i :| i in db.identities && db.identities[i].token == Some(token) then Some(db.identities[i]) else None
  }

  ghost function FindByName(db: Db, name: string): (r: Option<User>)
    ensures r.Some? ==> exists u :: u in db.users && db.users[u] == r.value && r.value.name == name
    ensures r.None? ==> forall u | u in db.users :: db.users[u].name != name
  {
    if u :| u in db.users && db.users[u].name == name then Some(db.users[u]) else None
  }

  function Lookup<T>(table: map<Id, T>, uuid: Id): Option<T> {
    if uuid in table then Some(table[uuid]) else None
  }

  ghost function LiveTokens(db: Db): set<string> {
    set i | i in db.identities && db.identities[i].token.Some? :: db.identities[i].token.value
  }

  ghost function Ids(db: Db): set<Id> {
    db.users.Keys + db.identities.Keys + db.groups.Keys + db.passwords.Keys
  }

  /** The user a password belongs to, through its group. */
  ghost function Owner(db: Db, pid: Id): Option<Id> {
    if pid in db.passwords && db.passwords[pid].groupId in db.groups
    then Some(db.groups[db.passwords[pid].groupId].userId)
    else None
  }

  // ----- what any statement of any request may do to the tables -----

  predicate SameKeys(a: Identity, b: Identity) {
    a.serverPrivate == b.serverPrivate && a.serverPublic == b.serverPublic && a.clientPublic == b.clientPublic
  }

  ghost predicate DevicesEvolve(issued: set<Id>, before: map<Id, Identity>, after: map<Id, Identity>) {
    forall i | i in after ::
      if i in before then
        && SameKeys(before[i], after[i])
        && (before[i].userId.Some? ==> after[i].userId.Some?)
      else i !in issued
  }

  ghost predicate UsersEvolve(before: map<Id, User>, after: map<Id, User>) {
    forall u | u in before ::
      u in after && after[u].name == before[u].name && after[u].ehloSecret == before[u].ehloSecret
  }

  ghost predicate GroupsEvolve(before: map<Id, Group>, after: map<Id, Group>) {
    forall g | g in before :: g in after && after[g] == before[g]
  }

  ghost predicate PasswordsEvolve(db: Db, db': Db) {
    forall p | p in db.passwords ::
      && p in db'.passwords
      && Owner(db', p) == Owner(db, p)
      && db'.passwords[p].createdAt == db.passwords[p].createdAt
      && db'.passwords[p].days == db.passwords[p].days
  }

  predicate StageEvolves(before: Stage, after: Stage) {
    (before.Runtime? ==> after.Runtime?) && (before.Indexed? ==> !after.Unindexed?)
  }

  /** Device keys never change and a device never loses its user; users, groups and passwords are
      never removed, a group never changes, and a password never changes owner. A device row whose
      uuid was not there before carries a uuid never issued before. */
  ghost predicate Evolves(issued: set<Id>, db: Db, db': Db) {
    && DevicesEvolve(issued, db.identities, db'.identities)
    && UsersEvolve(db.users, db'.users)
    && GroupsEvolve(db.groups, db'.groups)
    && PasswordsEvolve(db, db')
    && StageEvolves(db.stage, db'.stage)
  }

  lemma EvolvesReflexive(issued: set<Id>, db: Db)
    ensures Evolves(issued, db, db)
  {
  }
}
