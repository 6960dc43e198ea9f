/** The older user store (`server/account/user_service.go`): the same map-backed
    CreateUser and GetUser as the user directory, without a lock and without the
    other handlers. */
module LegacyUsers {
  import opened Grpc
  import opened UserProto
  import Ids

  const EmptyLogin := Status(InvalidArgument, "login must not be empty")
  const EmptyEmail := Status(InvalidArgument, "email must not be empty")
  const IdGenerationError := Status(Internal, "error while generating user id")
  const UserNotFound := Status(NotFound, "user does not exist")

  class UserService {
    var userMap: map<string, UserInfo>

    /** Every user is stored under its own id. */
    ghost predicate Valid()
      reads this
    {
      forall k :: k in userMap ==> userMap[k].id == k
    }

    /** `NewUserSevice` (sic): an empty store. */
    constructor ()
      ensures Valid() && userMap == map[]
    {
      userMap := map[];
    }

    method CreateUser(login: string, email: string) returns (r: Result<string>)
      requires Valid()
      modifies this
      ensures Valid()
      ensures login == "" ==> r == Err(EmptyLogin) && userMap == old(userMap)
      ensures login != "" && email == "" ==> r == Err(EmptyEmail) && userMap == old(userMap)
      ensures login != "" && email != "" ==>
                if r.Err? then r == Err(IdGenerationError) && userMap == old(userMap)
                else
                  && r.value != "" && r.value !in old(userMap)
                  && r.value in userMap
                  && userMap == old(userMap)[r.value := userMap[r.value]]
                  && fresh(userMap[r.value])
                  && userMap[r.value].login == login
                  && userMap[r.value].email == email
    {
      if login == "" {
        return Err(EmptyLogin);
      }
      if email == "" {
        return Err(EmptyEmail);
      }
      var id := Ids.NewV4(userMap.Keys);
      if id.None? {
        return Err(IdGenerationError);
      }
      var user := new UserInfo(id.value, login, email);
      userMap := userMap[id.value := user];
      r := Ok(id.value);
    }

    method GetUser(id: string) returns (r: Result<UserInfo>)
      requires Valid()
      ensures id in userMap ==> r == Ok(userMap[id]) && r.value.id == id
      ensures id !in userMap ==> r == Err(UserNotFound)
    {
      if id in userMap {
        return Ok(userMap[id]);
      }
      r := Err(UserNotFound);
    }
  }
}
