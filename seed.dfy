/**
 * The bootstrap seed: create the administrator account unless a user with
 * its email already exists.
 */
module Seed {
  import opened Schema
  import opened Store

  const AdminEmail: string := "admin@veraz.com"
  const AdminName: string := "Administrador"
  const AdminPassword: string := "admin2300"

  /** The administrator record the seed creates, given the next user id, the hash function and the instant. */
  function AdminUser(id: int, hash: string -> string, now: int): (u: User)
    ensures u.email == AdminEmail && u.name == AdminName && u.role == ADMIN
    ensures u.password == hash(AdminPassword) && u.cuit.None?
  {
    User(id, AdminEmail, AdminName, hash(AdminPassword), None, ADMIN, now, now)
  }

  /** The user table after the seed: unchanged when the admin email is present, else one admin appended. */
  function SeededUsers(users: seq<User>, nextId: int, hash: string -> string, now: int): (r: seq<User>)
    ensures UserIndexByEmail(users, AdminEmail).Some? ==> r == users
    ensures UserIndexByEmail(users, AdminEmail).None? ==> r == users + [AdminUser(nextId, hash, now)]
  {
    if UserIndexByEmail(users, AdminEmail).Some? then users else users + [AdminUser(nextId, hash, now)]
  }

  /** After one run the admin email is always present, so any later run changes nothing. */
  lemma SeedIdempotent(users: seq<User>, nextId: int, hash: string -> string, now: int,
                       nextId': int, hash': string -> string, now': int)
    ensures var once := SeededUsers(users, nextId, hash, now);
            SeededUsers(once, nextId', hash', now') == once
  {
    var once := SeededUsers(users, nextId, hash, now);
    if UserIndexByEmail(users, AdminEmail).None? {
      assert once[|users|].email == AdminEmail;
    } else {
      var k := UserIndexByEmail(users, AdminEmail).value;
      assert once[k].email == AdminEmail;
    }
  }

  /** `main`: look the admin up by email and create it when absent; clients and debts are untouched. */
  method SeedAdmin(db: Database, hash: string -> string, now: int)
    requires db.Valid()
    modifies db
    ensures db.Valid()
    ensures db.users == SeededUsers(old(db.users), old(db.nextUserId), hash, now)
    ensures db.clients == old(db.clients) && db.debts == old(db.debts)
    ensures exists u :: u in db.users && u.email == AdminEmail
  {
    var admin := db.UserByEmail(AdminEmail);
    if admin.None? {
      var created := db.CreateUser(NewUser(AdminEmail, AdminName, hash(AdminPassword), None, ADMIN), now);
      admin := created;
      assert db.users[|old(db.users)|] in db.users;
    }
  }
}
