/** The account handlers (UserController). The authenticated principal's
    username, which the handlers read from `SecurityContextHolder`, is an
    explicit parameter of the handlers that need it. */
module UserController {
  import opened Common
  import opened Entities
  import opened ResponseEnvelope
  import UserService

  /** `CreateUser`: no data either way; body status 400 with the message on
      an exception (a duplicate userName among them). It returns a bare
      `Response`, so the HTTP status is always 200. */
  function CreateUser(saved: Result<User>): (r: Reply)
    ensures r.httpStatus == 200
    ensures r.body.data == None
    ensures r.body.success <==> r.body.status == 200
    ensures r.body.success <==> saved.Ok?
    ensures saved.Ok? ==> r.body.error == None
    ensures saved.Err? ==> r.body.status == 400 && r.body.error == saved.exception.message
  {
    match saved
    case Ok(_) => Reply(200, Of4(200, true, "user created successfully", None))
    case Err(e) => Reply(200, Of4(400, false, "could not create the user", e.message))
  }

  /** `getAllUser`: the users as data, or 400; the HTTP status is the body's. */
  function GetAllUser(listed: Result<seq<User>>): (r: Reply)
    ensures r.httpStatus == r.body.status
    ensures r.body.success <==> r.httpStatus == 200
    ensures r.body.success <==> listed.Ok?
    ensures listed.Ok? ==> r.body.error == None && r.body.data == Some(UsersData(listed.value))
    ensures listed.Err? ==> r.httpStatus == 400 && r.body.error == listed.exception.message && r.body.data == None
  {
    match listed
    case Ok(users) => Reply(200, Of5(200, true, "user fechted successfully", None, Some(UsersData(users))))
    case Err(e) => Reply(400, Of4(400, false, "could not fetch the user", e.message))
  }

  /** `updateUser`: body status 404 when the service found no user (null),
      200 with the updated user, 400 on an exception. It returns a bare
      `Response`, so the HTTP status is always 200. */
  function UpdateUser(updated: Result<Option<User>>): (r: Reply)
    ensures r.httpStatus == 200
    ensures r.body.success <==> r.body.status == 200
    ensures r.body.success <==> updated.Ok? && updated.value.Some?
    ensures updated.Ok? && updated.value.None? ==>
              r.body.status == 404 && r.body.error == None && r.body.data == None
    ensures updated.Ok? && updated.value.Some? ==>
              r.body.error == None && r.body.data == Some(UserData(updated.value.value))
    ensures updated.Err? ==>
              r.body.status == 400 && r.body.error == updated.exception.message && r.body.data == None
  {
    match updated
    case Ok(None) => Reply(200, Of5(404, false, "user not found", None, None))
    case Ok(Some(u)) => Reply(200, Of5(200, true, "user updated succefully", None, Some(UserData(u))))
    case Err(e) => Reply(200, Of4(400, false, "could not update the user", e.message))
  }

  /** `deleteUser`: always 200 and success, with whatever the delete
      returned (possibly null) as data. */
  function DeleteUser(deleted: Option<User>): (r: Reply)
    ensures r.httpStatus == 200 && r.body.status == 200 && r.body.success && r.body.error == None
    ensures deleted.Some? ==> r.body.data == Some(UserData(deleted.value))
    ensures deleted.None? ==> r.body.data == None
  {
    Reply(200, Of5(200, true, "user deleted successfully", None,
                   if deleted.Some? then Some(UserData(deleted.value)) else None))
  }

  // The handlers wired to the user service and repository.

  method HandleCreateUser(s: UserService.UserServices, body: User, salt: UserService.Salt, freshId: Id)
    returns (r: Reply)
    requires s.Valid()
    requires body.id.None? ==> freshId !in s.userRepo.users
    modifies s.userRepo
    ensures s.Valid()
    ensures r.httpStatus == 200
    ensures r.body.success <==>
              !UserService.NameTakenElsewhere(old(s.userRepo.users), body.userName, UserService.UserKey(body, freshId))
    ensures r.body.success ==>
              s.userRepo.users == old(s.userRepo.users)[UserService.UserKey(body, freshId) :=
                UserService.PrepareForSave(body, s.encode(body.password, salt)).(id := Some(UserService.UserKey(body, freshId)))]
    ensures !r.body.success ==>
              && r.body.status == 400 && r.body.error == DuplicateUserName.message
              && s.userRepo.users == old(s.userRepo.users)
  {
    var saved := s.SaveUser(body, salt, freshId);
    r := CreateUser(saved);
  }

  method HandleGetAllUser(s: UserService.UserServices) returns (r: Reply)
    ensures r.httpStatus == 200 && r.body.success && r.body.data.Some? && r.body.data.value.UsersData?
    ensures |r.body.data.value.users| == |s.userRepo.users|
    ensures forall u :: u in r.body.data.value.users <==> u in s.userRepo.users.Values
  {
    var users, ids := s.GetAllUser();
    r := GetAllUser(Ok(users));
  }

  /** `updateUser` acting on the principal's own record. */
  method HandleUpdateUser(s: UserService.UserServices, principal: string, body: User, salt: UserService.Salt)
    returns (r: Reply)
    requires s.Valid()
    modifies s.userRepo
    ensures s.Valid()
    ensures r.httpStatus == 200
    ensures (forall k :: k in old(s.userRepo.users) ==> old(s.userRepo.users)[k].userName != principal) ==>
              && r.body.status == 404 && !r.body.success && r.body.data == None
              && s.userRepo.users == old(s.userRepo.users)
    ensures forall k :: k in old(s.userRepo.users) && old(s.userRepo.users)[k].userName == principal ==>
              if UserService.NameTakenElsewhere(old(s.userRepo.users), body.userName, k) then
                && r.body.status == 400 && !r.body.success && r.body.error == DuplicateUserName.message
                && s.userRepo.users == old(s.userRepo.users)
              else
                var u := UserService.PrepareForSave(UserService.ApplyPatch(old(s.userRepo.users)[k], body),
                                                    s.encode(body.password, salt));
                && r.body.status == 200 && r.body.success && r.body.data == Some(UserData(u))
                && u.id == Some(k)
                && s.userRepo.users == old(s.userRepo.users)[k := u]
  {
    var updated := s.UpdateUser(principal, body, salt);
    r := UpdateUser(updated);
  }

  /** `deleteUser` removing the principal's own record and no other. */
  method HandleDeleteUser(repo: UserService.UserRepo, principal: string) returns (r: Reply)
    requires repo.Valid()
    modifies repo
    ensures repo.Valid()
    ensures r.httpStatus == 200 && r.body.status == 200 && r.body.success
    ensures forall k :: k in old(repo.users) && old(repo.users)[k].userName == principal ==>
              && repo.users == old(repo.users) - {k}
              && r.body.data == Some(UserData(old(repo.users)[k]))
    ensures (forall k :: k in old(repo.users) ==> old(repo.users)[k].userName != principal) ==>
              repo.users == old(repo.users) && r.body.data == None
  {
    var deleted := repo.DeleteByUserName(principal);
    r := DeleteUser(deleted);
  }
}
