/** The user directory (`server/user/user_service.go`): a map from user id to user
    record. No handler but ListUsers looks at the caller's context. */
module UserDirectory {
  import opened Grpc
  import opened UserProto
  import Ids

  datatype CreateUserRequest = CreateUserRequest(login: string, email: string)

  /** The optional fields are `wrapperspb.StringValue` pointers: `None` is nil. */
  datatype UpdateUserRequest = UpdateUserRequest(id: string, email: Option<string>, login: Option<string>)

  const EmptyLogin := Status(InvalidArgument, "login must not be empty")
  const EmptyEmail := Status(InvalidArgument, "email must not be empty")
  const IdGenerationError := Status(Internal, "error while generating user id")
  const UserNotFound := Status(NotFound, "user does not exist")
  const ListCanceled := Status(Canceled, "request canceled")
  const UpdateNotFound := Status(NotFound, "user doesn't exist!")
  const DeleteNotFound := Status(NotFound, "user doesn't exist")

  /** An update field takes effect only when it is present and non-empty. */
  function Overwrite(current: string, update: Option<string>): (r: string)
    ensures update.Some? && update.value != "" ==> r == update.value
    ensures update.None? || update.value == "" ==> r == current
  {
    if update.Some? && update.value != "" then update.value else current
  }

  class UserService {
    var userMap: map<string, UserInfo>

    /** Every user is stored under its own id. */
    ghost predicate Valid()
      reads this
    {
      forall k :: k in userMap ==> userMap[k].id == k
    }

    /** `NewUserSevice` (sic): an empty directory. */
    constructor ()
      ensures Valid() && userMap == map[]
    {
      userMap := map[];
    }

    method CreateUser(req: CreateUserRequest) returns (r: Result<string>)
      requires Valid()
      modifies this
      ensures Valid()
      ensures req.login == "" ==> r == Err(EmptyLogin) && userMap == old(userMap)
      ensures req.login != "" && req.email == "" ==> r == Err(EmptyEmail) && userMap == old(userMap)
      ensures req.login != "" && req.email != "" ==>
                if r.Err? then r == Err(IdGenerationError) && userMap == old(userMap)
                else
                  && r.value != "" && r.value !in old(userMap)
                  && r.value in userMap
                  && userMap == old(userMap)[r.value := userMap[r.value]]
                  && fresh(userMap[r.value])
                  && userMap[r.value].login == req.login
                  && userMap[r.value].email == req.email
    {
      if req.login == "" {
        return Err(EmptyLogin);
      }
      if req.email == "" {
        return Err(EmptyEmail);
      }
      var id := Ids.NewV4(userMap.Keys);
      if id.None? {
        return Err(IdGenerationError);
      }
      var user := new UserInfo(id.value, req.login, req.email);
      userMap := userMap[id.value := user];
      r := Ok(id.value);
    }

    method GetUser(id: string) returns (r: Result<UserInfo>)
      requires Valid()
      ensures id in userMap ==> r == Ok(userMap[id]) && r.value.id == id
      ensures id !in userMap ==> r == Err(UserNotFound)
    {
      if id in userMap {
        return Ok(userMap[id]);
      }
      r := Err(UserNotFound);
    }

    /** Every stored user exactly once, in the map's (unspecified) iteration order. */
    method ListUsers(canceled: bool) returns (r: Result<seq<UserInfo>>)
      requires Valid()
      ensures canceled ==> r == Err(ListCanceled)
      ensures !canceled ==>
                && r.Ok?
                && |r.value| == |userMap|
                && (forall u :: u in r.value <==> u in userMap.Values)
                && (forall i, j :: 0 <= i < j < |r.value| ==> r.value[i] != r.value[j])
    {
      if canceled {
        return Err(ListCanceled);
      }
      var users: seq<UserInfo> := [];
      var remaining := userMap.Keys;
      while remaining != {}
        invariant remaining <= userMap.Keys
        invariant |users| + |remaining| == |userMap|
        invariant forall u :: u in users <==> u in userMap.Values && u.id !in remaining
        invariant forall i, j :: 0 <= i < j < |users| ==> users[i] != users[j]
        decreases remaining
      {
        var k :| k in remaining;
        users := users + [userMap[k]];
        remaining := remaining - {k};
      }
      r := Ok(users);
    }

    /** Overwrites email and login in place on the stored record; the response shares it. */
    method UpdateUser(req: UpdateUserRequest) returns (r: Result<UserInfo>)
      requires Valid()
      modifies if req.id in userMap then {userMap[req.id]} else {}
      ensures Valid()
      ensures req.id !in userMap ==> r == Err(UpdateNotFound)
      ensures req.id in userMap ==>
                var user := userMap[req.id];
                && r == Ok(user)
                && user.email == Overwrite(old(user.email), req.email)
                && user.login == Overwrite(old(user.login), req.login)
    {
      if req.id !in userMap {
        return Err(UpdateNotFound);
      }
      var user := userMap[req.id];
      if req.email.Some? && req.email.value != "" {
        user.email := req.email.value;
      }
      if req.login.Some? && req.login.value != "" {
        user.login := req.login.value;
      }
      r := Ok(user);
    }

    /** Go returns both a response (`Success`) and an error here. */
    method DeleteUser(id: string) returns (success: bool, err: Option<Status>)
      requires Valid()
      modifies this
      ensures Valid()
      ensures id !in old(userMap) ==> !success && err == Some(DeleteNotFound) && userMap == old(userMap)
      ensures id in old(userMap) ==> success && err.None? && userMap == old(userMap) - {id}
    {
      if id !in userMap {
        return false, Some(DeleteNotFound);
      }
      userMap := userMap - {id};
      success, err := true, None;
    }
  }
}
