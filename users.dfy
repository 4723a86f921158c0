/** Users, their permission codes and the listings gated on them, place
    managers, and partner companies (src/models/user.rs). */
module Users {
  import opened Common
  import opened Tables
  import opened Places

  /** The `perm` scale. */
  const Normal: int := 1
  const PartnerPerm: int := 4
  const Admin: int := 5
  const Superuser: int := 10
  const Blocked: int := 21

  /** `User::is_superuser` */
  predicate IsSuperuser(u: User)
  {
    u.perm == Superuser
  }

  /** `User::is_partner` */
  predicate IsPartner(u: User)
  {
    u.perm == PartnerPerm
  }

  /** The `users.id` primary key. */
  ghost predicate UniqueUserIds(users: seq<User>)
  {
    forall i, j :: 0 <= i < |users| && 0 <= j < |users| && users[i].id == users[j].id ==> i == j
  }

  // --------------------------------------------------------------- listings

  function PermIs(code: int): User -> bool
  {
    (u: User) => u.perm == code
  }

  function PermBelow(code: int): User -> bool
  {
    (u: User) => u.perm < code
  }

  function PermAbove(code: int): User -> bool
  {
    (u: User) => u.perm > code
  }

  /** `User::get_admins`: the admins, for a superuser only. */
  function GetAdmins(self: User, users: seq<User>): (r: seq<UserJson>)
    ensures !IsSuperuser(self) ==> r == []
    ensures IsSuperuser(self) ==> forall j :: j in r <==> exists u :: u in users && u.perm == Admin && j == Public(u)
  {
    if IsSuperuser(self) then PublicWhere(users, PermIs(Admin)) else []
  }

  /** `User::get_partners`: the partners, for a superuser only. */
  function GetPartners(self: User, users: seq<User>): (r: seq<UserJson>)
    ensures !IsSuperuser(self) ==> r == []
    ensures IsSuperuser(self) ==> forall j :: j in r <==> exists u :: u in users && u.perm == PartnerPerm && j == Public(u)
  {
    if IsSuperuser(self) then PublicWhere(users, PermIs(PartnerPerm)) else []
  }

  /** `User::get_users`: everyone below superuser, for a superuser only. */
  function GetUsers(self: User, users: seq<User>): (r: seq<UserJson>)
    ensures !IsSuperuser(self) ==> r == []
    ensures IsSuperuser(self) ==> forall j :: j in r <==> exists u :: u in users && u.perm < Superuser && j == Public(u)
  {
    if IsSuperuser(self) then PublicWhere(users, PermBelow(Superuser)) else []
  }

  /** `User::get_banned_users`: everyone above superuser, for a superuser only. */
  function GetBannedUsers(self: User, users: seq<User>): (r: seq<UserJson>)
    ensures !IsSuperuser(self) ==> r == []
    ensures IsSuperuser(self) ==> forall j :: j in r <==> exists u :: u in users && u.perm > Superuser && j == Public(u)
  {
    if IsSuperuser(self) then PublicWhere(users, PermAbove(Superuser)) else []
  }

  /** Two rows of a table with a primary key and different permission codes
      have different public columns. */
  lemma DistinctPublic(users: seq<User>, u: User, v: User)
    requires UniqueUserIds(users) && u in users && v in users && u.perm != v.perm
    ensures Public(u) != Public(v)
  {
    var i :| 0 <= i < |users| && users[i] == u;
    var j :| 0 <= j < |users| && users[j] == v;
    assert i != j;
  }

  /** For a superuser, a blocked user is listed among the banned users and
      never among the users. */
  lemma BlockedIsBannedNotListed(self: User, users: seq<User>, u: User)
    requires IsSuperuser(self) && UniqueUserIds(users) && u in users && u.perm == Blocked
    ensures Public(u) in GetBannedUsers(self, users)
    ensures Public(u) !in GetUsers(self, users)
  {
    forall v | v in users && v.perm < Superuser
      ensures Public(v) != Public(u)
    {
      DistinctPublic(users, u, v);
    }
  }

  /** `User::get_partner_objects`: every active place for a superuser, the
      caller's own active places for anyone else. */
  function GetPartnerObjects(self: User, places: seq<Place>): (r: seq<Place>)
    ensures self.perm == Superuser ==> forall x :: x in r <==> x in places && x.types == Active
    ensures self.perm != Superuser ==> forall x :: x in r <==> x in places && x.userId == self.id && x.types == Active
  {
    if self.perm == Superuser then ActivePlaces(places)
    else Filter(places, (x: Place) => x.userId == self.id && x.types == Active)
  }

  // ------------------------------------------------------ permission setters

  /** The users table after `UPDATE users SET perm = code WHERE id = id`: the
      matching row takes the code; no other column and no other row changes. */
  function PermSet(users: seq<User>, id: Id, code: int): (r: seq<User>)
    ensures |r| == |users|
    ensures forall i :: 0 <= i < |r| ==> r[i] == if users[i].id == id then users[i].(perm := code) else users[i]
  {
    seq(|users|, i requires 0 <= i < |users| => if users[i].id == id then users[i].(perm := code) else users[i])
  }

  /** Setting a code twice is setting the later one; in particular unblocking
      a blocked user is the same as setting code 1 directly. */
  lemma PermSetTwice(users: seq<User>, id: Id, first: int, second: int)
    ensures PermSet(PermSet(users, id, first), id, second) == PermSet(users, id, second)
  {
  }

  /** A perm change keeps the primary key and the set of ids. */
  lemma PermSetKeepsIds(users: seq<User>, id: Id, code: int)
    requires UniqueUserIds(users)
    ensures UniqueUserIds(PermSet(users, id, code))
    ensures forall u :: u in PermSet(users, id, code) ==> exists v :: v in users && v.id == u.id
  {
    var r := PermSet(users, id, code);
    forall u | u in r ensures exists v :: v in users && v.id == u.id {
      var i :| 0 <= i < |r| && r[i] == u;
      assert users[i] in users;
    }
  }

  /** After a block, a superuser finds the blocked user among the banned
      users and not among the users. */
  lemma BlockThenListings(self: User, users: seq<User>, id: Id)
    requires IsSuperuser(self) && UniqueUserIds(users)
    ensures forall u :: u in PermSet(users, id, Blocked) && u.id == id ==>
      Public(u) in GetBannedUsers(self, PermSet(users, id, Blocked))
      && Public(u) !in GetUsers(self, PermSet(users, id, Blocked))
  {
    var r := PermSet(users, id, Blocked);
    PermSetKeepsIds(users, id, Blocked);
    forall u | u in r && u.id == id
      ensures Public(u) in GetBannedUsers(self, r) && Public(u) !in GetUsers(self, r)
    {
      BlockedIsBannedNotListed(self, r, u);
    }
  }

  /** `User::create_user_block`: perm 21. */
  method BlockUser(db: Database, id: Id)
    modifies db`users
    ensures db.users == PermSet(old(db.users), id, Blocked)
  {
    db.users := PermSet(db.users, id, Blocked);
  }

  /** `User::delete_user_block`: perm 1. */
  method UnblockUser(db: Database, id: Id)
    modifies db`users
    ensures db.users == PermSet(old(db.users), id, Normal)
  {
    db.users := PermSet(db.users, id, Normal);
  }

  /** `User::create_superuser`: perm 10. */
  method CreateSuperuser(db: Database, id: Id)
    modifies db`users
    ensures db.users == PermSet(old(db.users), id, Superuser)
  {
    db.users := PermSet(db.users, id, Superuser);
  }

  /** `User::delete_superuser`: perm 1. */
  method DeleteSuperuser(db: Database, id: Id)
    modifies db`users
    ensures db.users == PermSet(old(db.users), id, Normal)
  {
    db.users := PermSet(db.users, id, Normal);
  }

  // ------------------------------------------------------ creating and editing

  /** The row `User::create` stores: a normal user at level 100, no avatar,
      the hashed password and 32 random bytes. */
  function NewUser(id: Id, firstName: string, lastName: string, email: string, password: string,
                   hash: string -> string, random: seq<bv8>): (u: User)
    requires |random| == 32
    ensures u.perm == Normal && u.level == 100 && u.image == None && |u.uuid| == 32
    ensures u.id == id && u.firstName == firstName && u.lastName == lastName && u.email == email
    ensures u.password == hash(password) && u.uuid == random
  {
    User(id, firstName, lastName, email, hash(password), Normal, 100, None, random)
  }

  /** `User::create`: stores the new user and returns the stored row. */
  method CreateUser(db: Database, firstName: string, lastName: string, email: string, password: string,
                    hash: string -> string, random: seq<bv8>, id: Id) returns (u: User)
    requires |random| == 32
    modifies db`users
    ensures u == NewUser(id, firstName, lastName, email, password, hash, random)
    ensures db.users == old(db.users) + [u]
  {
    u := NewUser(id, firstName, lastName, email, password, hash, random);
    db.users := db.users + [u];
  }

  /** A newly created user is listed among a superuser's users. */
  lemma CreatedUserListed(self: User, users: seq<User>, u: User)
    requires IsSuperuser(self) && u.perm == Normal
    ensures Public(u) in GetUsers(self, users + [u])
  {
    assert u in users + [u];
  }

  /** The users table after `User::edit`: the user's names and email change. */
  function UsersEdited(users: seq<User>, id: Id, firstName: string, lastName: string, email: string): (r: seq<User>)
    ensures |r| == |users|
    ensures forall i :: 0 <= i < |r| ==>
      && r[i].id == users[i].id && r[i].password == users[i].password && r[i].perm == users[i].perm
      && r[i].level == users[i].level && r[i].image == users[i].image && r[i].uuid == users[i].uuid
      && (users[i].id == id ==> r[i].firstName == firstName && r[i].lastName == lastName && r[i].email == email)
      && (users[i].id != id ==> r[i] == users[i])
  {
    seq(|users|, i requires 0 <= i < |users| =>
      if users[i].id == id then users[i].(firstName := firstName, lastName := lastName, email := email)
      else users[i])
  }

  /** `User::edit`: the user must exist. Always 1. */
  method EditUser(db: Database, id: Id, firstName: string, lastName: string, email: string) returns (r: int)
    requires exists x :: x in db.users && x.id == id
    modifies db`users
    ensures r == 1
    ensures db.users == UsersEdited(old(db.users), id, firstName, lastName, email)
  {
    db.users := UsersEdited(db.users, id, firstName, lastName, email);
    return 1;
  }

  /** Editing names and email leaves every permission code, and so every
      perm-gated listing, as it was. */
  lemma EditUserKeepsPerms(users: seq<User>, id: Id, firstName: string, lastName: string, email: string, u: User)
    ensures forall i :: 0 <= i < |users| ==> UsersEdited(users, id, firstName, lastName, email)[i].perm == users[i].perm
    ensures IsSuperuser(u) ==> |GetUsers(u, UsersEdited(users, id, firstName, lastName, email))| == |GetUsers(u, users)|
  {
    var r := UsersEdited(users, id, firstName, lastName, email);
    FilterLengthAgree(users, r, PermBelow(Superuser));
  }

  /** Filtering two tables that agree position by position on the test
      yields results of the same length. */
  lemma {:induction false} FilterLengthAgree<T(!new)>(s: seq<T>, t: seq<T>, keep: T -> bool)
    requires |s| == |t| && forall i :: 0 <= i < |s| ==> keep(s[i]) == keep(t[i])
    ensures |Filter(s, keep)| == |Filter(t, keep)|
  {
    if s != [] {
      var n := |s| - 1;
      assert s == s[..n] + [s[n]];
      assert t == t[..n] + [t[n]];
      FilterLengthAgree(s[..n], t[..n], keep);
    }
  }

  // ----------------------------------------------------------------- managers

  /** `User::create_manager`: the place must be active (`expect`); only a
      user adding themself gets a row (1), anyone else gets 0 and nothing
      changes. */
  method CreateManager(db: Database, self: User, placeId: Id, userId: Id, id: Id) returns (r: int)
    requires HasActivePlace(db.places, placeId)
    modifies db`placeManagers
    ensures r == (if self.id == userId then 1 else 0)
    ensures r == 0 ==> db.placeManagers == old(db.placeManagers)
    ensures r == 1 ==> db.placeManagers == old(db.placeManagers) + [PlaceManager(id, userId, placeId)]
  {
    var place := ActivePlace(db.places, placeId);
    if self.id != userId {
      return 0;
    }
    db.placeManagers := db.placeManagers + [PlaceManager(id, userId, placeId)];
    return 1;
  }

  /** The manager rows left after removing one user from one place. */
  function ManagersWithout(managers: seq<PlaceManager>, userId: Id, placeId: Id): (r: seq<PlaceManager>)
    ensures forall m :: m in r <==> m in managers && !(m.userId == userId && m.placeId == placeId)
    ensures userId !in ManagerIds(r, placeId)
  {
    Filter(managers, (m: PlaceManager) => !(m.userId == userId && m.placeId == placeId))
  }

  /** `User::delete_manager`: the place must be active; only a user removing
      themself has an effect (1), which deletes every row pairing them with
      the place; anyone else gets 0 and nothing changes. */
  method DeleteManager(db: Database, self: User, placeId: Id, userId: Id) returns (r: int)
    requires HasActivePlace(db.places, placeId)
    modifies db`placeManagers
    ensures r == (if self.id == userId then 1 else 0)
    ensures r == 0 ==> db.placeManagers == old(db.placeManagers)
    ensures r == 1 ==> db.placeManagers == ManagersWithout(old(db.placeManagers), userId, placeId)
  {
    var place := ActivePlace(db.places, placeId);
    if self.id != userId {
      return 0;
    }
    db.placeManagers := ManagersWithout(db.placeManagers, userId, placeId);
    return 1;
  }

  /** Adding a manager and then removing the same user from the same place
      leaves exactly the rows that were there before, less that pair. */
  lemma CreateThenDeleteManager(managers: seq<PlaceManager>, userId: Id, placeId: Id, id: Id)
    ensures ManagersWithout(managers + [PlaceManager(id, userId, placeId)], userId, placeId)
         == ManagersWithout(managers, userId, placeId)
  {
    FilterSnoc(managers, PlaceManager(id, userId, placeId),
               (m: PlaceManager) => !(m.userId == userId && m.placeId == placeId));
  }

  // ----------------------------------------------------------------- partners

  /** `Partner::create`: one active partner created at `now`. Always 1. */
  method CreatePartner(db: Database, title: string, inn: string, userId: Id, id: Id, now: Timestamp)
    returns (r: int)
    modifies db`partners
    ensures r == 1
    ensures db.partners == old(db.partners) + [Partner(id, title, inn, 1, now, userId)]
  {
    db.partners := db.partners + [Partner(id, title, inn, 1, now, userId)];
    return 1;
  }

  /** The partners table after `Partner::edit`: title and inn change. */
  function PartnersEdited(partners: seq<Partner>, id: Id, title: string, inn: string): (r: seq<Partner>)
    ensures |r| == |partners|
    ensures forall i :: 0 <= i < |r| ==>
      && r[i].id == partners[i].id && r[i].types == partners[i].types
      && r[i].created == partners[i].created && r[i].userId == partners[i].userId
      && (partners[i].id == id ==> r[i].title == title && r[i].inn == inn)
      && (partners[i].id != id ==> r[i] == partners[i])
  {
    seq(|partners|, i requires 0 <= i < |partners| =>
      if partners[i].id == id then partners[i].(title := title, inn := inn) else partners[i])
  }

  /** `Partner::edit`: the partner must exist. Always 1. */
  method EditPartner(db: Database, id: Id, title: string, inn: string) returns (r: int)
    requires exists x :: x in db.partners && x.id == id
    modifies db`partners
    ensures r == 1
    ensures db.partners == PartnersEdited(old(db.partners), id, title, inn)
  {
    db.partners := PartnersEdited(db.partners, id, title, inn);
    return 1;
  }

  /** The partners table after `User::edit_owner_partner`: the owner changes. */
  function PartnerOwnerChanged(partners: seq<Partner>, id: Id, userId: Id): (r: seq<Partner>)
    ensures |r| == |partners|
    ensures forall i :: 0 <= i < |r| ==>
      && r[i].id == partners[i].id && r[i].title == partners[i].title && r[i].inn == partners[i].inn
      && r[i].types == partners[i].types && r[i].created == partners[i].created
      && (partners[i].id == id ==> r[i].userId == userId)
      && (partners[i].id != id ==> r[i] == partners[i])
  {
    seq(|partners|, i requires 0 <= i < |partners| =>
      if partners[i].id == id then partners[i].(userId := userId) else partners[i])
  }

  /** `User::edit_owner_partner`: the partner must exist. Always 1. */
  method EditOwnerPartner(db: Database, id: Id, userId: Id) returns (r: int)
    requires exists x :: x in db.partners && x.id == id
    modifies db`partners
    ensures r == 1
    ensures db.partners == PartnerOwnerChanged(old(db.partners), id, userId)
  {
    db.partners := PartnerOwnerChanged(db.partners, id, userId);
    return 1;
  }

  /** Editing a partner's title and inn and changing its owner touch
      different columns, so the two edits commute. */
  lemma PartnerEditsCommute(partners: seq<Partner>, id: Id, title: string, inn: string, owner: Id, other: Id)
    ensures PartnerOwnerChanged(PartnersEdited(partners, id, title, inn), other, owner)
         == PartnersEdited(PartnerOwnerChanged(partners, other, owner), id, title, inn)
  {
  }
}
