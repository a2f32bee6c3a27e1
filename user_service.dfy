/** The user repository (a map keyed by id with a unique index on userName)
    and the user service on top of it (UserServices). */
module UserService {
  import opened Common
  import opened Entities
  import Collections

  /** The random salt BCrypt draws for each encoding. */
  type Salt = seq<bv8>

  /** No two stored users share a userName: the unique index on `userName`. */
  ghost predicate UniqueNames(users: map<Id, User>) {
    forall k1, k2 :: k1 in users && k2 in users && users[k1].userName == users[k2].userName ==> k1 == k2
  }

  /** Some document other than the one under `key` already uses `name`. */
  predicate NameTakenElsewhere(users: map<Id, User>, name: string, key: Id) {
    exists k :: k in users && k != key && users[k].userName == name
  }

  /** The key `save` writes a user under: its own id, or a generated one. */
  function UserKey(u: User, freshId: Id): (k: Id) {
    if u.id.Some? then u.id.value else freshId
  }

  /** What `SaveUser` does to the record before writing it: the password
      replaced by its encoding and the role list reset to ["User"]. */
  function PrepareForSave(u: User, encoded: string): (r: User)
    ensures r.password == encoded && r.roles == Some(["User"])
    ensures r.id == u.id && r.userName == u.userName && r.journalEntries == u.journalEntries
  {
    u.(password := encoded, roles := Some(["User"]))
  }

  /** What `updateUser` copies from the request body into the stored record:
      userName and password, as they are, blank or not; nothing else. */
  function ApplyPatch(stored: User, patch: User): (r: User)
    ensures r.userName == patch.userName && r.password == patch.password
    ensures r.id == stored.id && r.roles == stored.roles && r.journalEntries == stored.journalEntries
  {
    stored.(userName := patch.userName).(password := patch.password)
  }

  /** The user collection: ObjectId to stored document. */
  class UserRepo {
    var users: map<Id, User>

    ghost predicate Valid()
      reads this
    {
      && (forall k :: k in users ==> users[k].id == Some(k))
      && UniqueNames(users)
    }

    constructor ()
      ensures Valid() && users == map[]
    {
      users := map[];
    }

    /** `save`: an upsert under the user's id (a generated one for a new
        document); refused when another document already has the userName. */
    method Save(u: User, freshId: Id) returns (r: Result<User>)
      requires Valid()
      requires u.id.None? ==> freshId !in users
      modifies this
      ensures Valid()
      ensures NameTakenElsewhere(old(users), u.userName, UserKey(u, freshId)) ==>
                r == Err(DuplicateUserName) && users == old(users)
      ensures !NameTakenElsewhere(old(users), u.userName, UserKey(u, freshId)) ==>
                && r == Ok(u.(id := Some(UserKey(u, freshId))))
                && users == old(users)[UserKey(u, freshId) := r.value]
    {
      var key := UserKey(u, freshId);
      if NameTakenElsewhere(users, u.userName, key) {
        r := Err(DuplicateUserName);
      } else {
        var saved := u.(id := Some(key));
        users := users[key := saved];
        r := Ok(saved);
      }
    }

    /** `findByuserName`: the one document with that userName, or null. */
    method FindByUserName(name: string) returns (r: Option<User>)
      requires Valid()
      ensures r.Some? ==> && r.value.userName == name && r.value.id.Some?
                          && r.value.id.value in users && users[r.value.id.value] == r.value
      ensures r.None? ==> forall k :: k in users ==> users[k].userName != name
    {
      if exists k :: k in users && users[k].userName == name {
        var k :| k in users && users[k].userName == name;
        r := Some(users[k]);
      } else {
        r := None;
      }
    }

    /** `findAll`: every stored user, one per id. */
    method FindAll() returns (r: seq<User>, ghost ids: seq<Id>)
      ensures Collections.Enumerates(ids, users.Keys)
      ensures |r| == |ids| == |users|
      ensures forall i :: 0 <= i < |ids| ==> r[i] == users[ids[i]]
      ensures forall u :: u in r <==> u in users.Values
    {
      r, ids := Collections.ListValues(users);
    }

    /** `deleteByuserName`: removes the document with that userName and
        returns it, or returns null and removes nothing. */
    method DeleteByUserName(name: string) returns (r: Option<User>)
      requires Valid()
      modifies this
      ensures Valid()
      ensures r.Some? ==> && r.value.userName == name && r.value.id.Some?
                          && r.value.id.value in old(users) && old(users)[r.value.id.value] == r.value
                          && users == old(users) - {r.value.id.value}
      ensures r.None? ==> (forall k :: k in users ==> users[k].userName != name) && users == old(users)
    {
      r := FindByUserName(name);
      if r.Some? {
        users := users - {r.value.id.value};
      }
    }
  }

  class UserServices {
    const userRepo: UserRepo
    /** BCrypt's `encode`; its second argument is the salt it draws. */
    const encode: (string, Salt) -> string

    ghost predicate Valid()
      reads this, userRepo
    {
      userRepo.Valid()
    }

    constructor (repo: UserRepo, encode: (string, Salt) -> string)
      ensures this.userRepo == repo && this.encode == encode
    {
      this.userRepo := repo;
      this.encode := encode;
    }

    /** `SaveUser`: encodes the password, resets the roles to ["User"] and
        saves; the saved user is returned, or the store's duplicate-key error. */
    method SaveUser(user: User, salt: Salt, freshId: Id) returns (r: Result<User>)
      requires Valid()
      requires user.id.None? ==> freshId !in userRepo.users
      modifies userRepo
      ensures Valid()
      ensures NameTakenElsewhere(old(userRepo.users), user.userName, UserKey(user, freshId)) ==>
                r == Err(DuplicateUserName) && userRepo.users == old(userRepo.users)
      ensures !NameTakenElsewhere(old(userRepo.users), user.userName, UserKey(user, freshId)) ==>
                && r.Ok?
                && r.value == PrepareForSave(user, encode(user.password, salt)).(id := Some(UserKey(user, freshId)))
                && userRepo.users == old(userRepo.users)[UserKey(user, freshId) := r.value]
    {
      var prepared := user.(password := encode(user.password, salt));
      prepared := prepared.(roles := Some(["User"]));
      r := userRepo.Save(prepared, freshId);
    }

    /** `getAllUser`: every stored user, one per id; nothing changes. */
    method GetAllUser() returns (r: seq<User>, ghost ids: seq<Id>)
      ensures Collections.Enumerates(ids, userRepo.users.Keys)
      ensures |r| == |ids| == |userRepo.users|
      ensures forall i :: 0 <= i < |ids| ==> r[i] == userRepo.users[ids[i]]
      ensures forall u :: u in r <==> u in userRepo.users.Values
    {
      r, ids := userRepo.FindAll();
    }

    /** `updateUser`: finds the record by the current username, copies the
        new userName and password into it and saves it through `SaveUser`.
        No such user: null, and nothing changes. */
    method UpdateUser(username: string, patch: User, salt: Salt) returns (r: Result<Option<User>>)
      requires Valid()
      modifies userRepo
      ensures Valid()
      ensures (forall k :: k in old(userRepo.users) ==> old(userRepo.users)[k].userName != username) ==>
                r == Ok(None) && userRepo.users == old(userRepo.users)
      ensures forall k :: k in old(userRepo.users) && old(userRepo.users)[k].userName == username ==>
                if NameTakenElsewhere(old(userRepo.users), patch.userName, k) then
                  r == Err(DuplicateUserName) && userRepo.users == old(userRepo.users)
                else
                  && r == Ok(Some(PrepareForSave(ApplyPatch(old(userRepo.users)[k], patch), encode(patch.password, salt))))
                  && r.value.value.id == Some(k)
                  && userRepo.users == old(userRepo.users)[k := r.value.value]
      ensures patch.userName == username ==> r.Ok?
    {
      var dbuser := userRepo.FindByUserName(username);
      if dbuser.None? {
        return Ok(None);
      }
      var key := dbuser.value.id.value;
      var u := dbuser.value.(userName := patch.userName);
      u := u.(password := patch.password);
      var saved := SaveUser(u, salt, key);
      r := if saved.Ok? then Ok(Some(saved.value)) else Err(saved.exception);
    }
  }

  /** Registering the same userName twice: the first save succeeds exactly
      when the name was free; the second always hits the unique index and
      fails with the duplicate-key error, leaving the store as the first save
      left it. */
  method RegisterTwice(s: UserServices, first: User, second: User, salt1: Salt, salt2: Salt, id1: Id, id2: Id)
    returns (r1: Result<User>, r2: Result<User>)
    requires s.Valid()
    requires first.id.None? && second.id.None? && first.userName == second.userName
    requires id1 !in s.userRepo.users && id2 !in s.userRepo.users && id1 != id2
    modifies s.userRepo
    ensures s.Valid()
    ensures r2 == Err(DuplicateUserName)
    ensures (forall k :: k in old(s.userRepo.users) ==> old(s.userRepo.users)[k].userName != first.userName) ==>
              && r1.Ok? && r1.value.id == Some(id1) && r1.value.password == s.encode(first.password, salt1)
              && s.userRepo.users == old(s.userRepo.users)[id1 := r1.value]
    ensures (exists k :: k in old(s.userRepo.users) && old(s.userRepo.users)[k].userName == first.userName) ==>
              r1 == Err(DuplicateUserName) && s.userRepo.users == old(s.userRepo.users)
  {
    r1 := s.SaveUser(first, salt1, id1);
    if r1.Ok? {
      assert s.userRepo.users[id1].userName == second.userName;
    }
    r2 := s.SaveUser(second, salt2, id2);
  }
}
