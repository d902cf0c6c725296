/** What becomes of the people of a first-schema database: after the migrations every device's user is
    there, live, with the device's old ehlo, and a kept device goes on working. */
module Upgrade {
  import opened Wrappers
  import opened Hex
  import opened Crypto
  import opened Schema
  import opened Isolation
  import opened Migrations
  import opened Credentials

  /** The user made for a device: not deleted, with the device's uuid, a name made of it, and its ehlo. */
  lemma UserOfDevice(db: Db1, i: nat)
    requires DistinctUuids(db.identities) && i < |db.identities|
    ensures var d, users := db.identities[i], MigrateUp(db).users;
            && d.uuid in users && users[d.uuid].uuid == d.uuid && !users[d.uuid].isDeleted
            && users[d.uuid].name == "migrated-" + d.uuid.text && users[d.uuid].ehloSecret == d.ehloSecret
  {
    UsersFromRows(db.identities);
  }

  /** Nobody else becomes a user. */
  lemma OnlyDevicesBecomeUsers(db: Db1, u: Id)
    requires DistinctUuids(db.identities)
    ensures u in MigrateUp(db).users <==> HasDevice(db.identities, u)
  {
    UsersFromRows(db.identities);
    if HasDevice(db.identities, u) {
      var i :| 0 <= i < |db.identities| && db.identities[i].uuid == u;
      UserOfDevice(db, i);
    }
  }

  /** So whoever owned the ehlo of a device proves the user the device became. */
  lemma EhloStillProves(c: Config, db: Db1, i: nat, ehlo: Bytes)
    requires Consistent1(db) && i < |db.identities|
    ensures Proves(c, MigrateUp(db), db.identities[i].uuid, ehlo) <==>
            Unsealed(c, db.identities[i].ehloSecret) == Success(ehlo)
  {
    UserOfDevice(db, i);
  }

  /** A device whose address no later row had goes on with its token: it authenticates from its address
      exactly if it was confirmed. */
  lemma KeptDeviceAuthenticates(c: Config, db: Db1, i: nat, token: string)
    requires Consistent1(db) && Sealed1(c, db) && i < |db.identities|
    requires db.identities[i].token == Some(c.suite.hash(token))
    requires forall j | i < j < |db.identities| :: db.identities[j].ip != db.identities[i].ip
    ensures var d := db.identities[i];
            var row := Identity(d.uuid, Some(d.uuid), d.ip, d.token, d.serverPrivate, d.serverPublic,
                                d.clientPublic, d.confirmed);
            && d.uuid in MigrateUp(db).identities && MigrateUp(db).identities[d.uuid] == row
            && Authenticate(c, MigrateUp(db), Some(token), d.ip) ==
               if d.confirmed then Success(row) else Failure(Unauthorized)
  {
    var d, after := db.identities[i], MigrateUp(db);
    MigrationEstablishesInvariant(c, db);
    MigrationKeepsLatestDevices(db, i);
    UserOfDevice(db, i);
    TokenFindsDevice(after, d.uuid, c.suite.hash(token));
  }

  lemma TokenFindsDevice(db: Db, uuid: Id, token: string)
    requires Consistent(db) && uuid in db.identities && db.identities[uuid].token == Some(token)
    ensures FindByToken(db, token) == Some(db.identities[uuid])
  {
  }

  /** Groups and passwords are the same in every field but the owner's name for it, and each window starts
      at the creation. */
  lemma DataKeepsEveryField(db: Db1)
    requires Consistent1(db)
    ensures forall g | g in db.groups ::
              && g in MigrateUp(db).groups
              && MigrateUp(db).groups[g] ==
                 Group(g, db.groups[g].identityId, db.groups[g].name, db.groups[g].extra)
    ensures forall p | p in db.passwords ::
              && p in MigrateUp(db).passwords
              && var was := db.passwords[p];
                 MigrateUp(db).passwords[p] ==
                 Password(p, was.groupId, was.pwd, was.name, was.extra, was.days, was.createdAt, was.createdAt)
  {
    MigrationKeepsData(db);
  }
}
