/** The v1 account table (`internal/account/account_service.go`): account records
    keyed by a generated id. */
module LegacyAccounts {
  import opened Grpc
  import Ids

  /** `accountv1.AccountInfo`. AddAccount writes the generated id into the caller's
      record and stores that very record, so the table and the caller share it. */
  class AccountInfo {
    var id: string
    var login: string
    var email: string

    constructor (id: string, login: string, email: string)
      ensures this.id == id && this.login == login && this.email == email
    {
      this.id := id;
      this.login := login;
      this.email := email;
    }
  }

  const EmptyLogin := Status(InvalidArgument, "login cannot be empty")
  const EmptyEmail := Status(InvalidArgument, "email cannot be empty")
  const IdGenerationError := Status(Internal, "Error while generating Account ID")
  const AccountNotFound := Status(NotFound, "Product does not exist")

  class Server {
    var accountMap: map<string, AccountInfo>

    /** `NewServer`: an empty table. */
    constructor ()
      ensures accountMap == map[]
    {
      accountMap := map[];
    }

    method AddAccount(info: AccountInfo) returns (r: Result<string>)
      modifies this, info
      ensures info.login == old(info.login) && info.email == old(info.email)
      ensures old(info.login) == "" ==> r == Err(EmptyLogin) && unchanged(this, info)
      ensures old(info.login) != "" && old(info.email) == "" ==>
                r == Err(EmptyEmail) && unchanged(this, info)
      ensures old(info.login) != "" && old(info.email) != "" ==>
                if r.Err? then r == Err(IdGenerationError) && unchanged(this, info)
                else
                  && r.value != "" && r.value !in old(accountMap)
                  && info.id == r.value
                  && accountMap == old(accountMap)[r.value := info]
    {
      if info.login == "" {
        return Err(EmptyLogin);
      }
      if info.email == "" {
        return Err(EmptyEmail);
      }
      var id := Ids.NewV4(accountMap.Keys);
      if id.None? {
        return Err(IdGenerationError);
      }
      info.id := id.value;
      accountMap := accountMap[info.id := info];
      r := Ok(info.id);
    }

    method GetAccount(id: string) returns (r: Result<AccountInfo>)
      ensures id in accountMap ==> r == Ok(accountMap[id])
      ensures id !in accountMap ==> r == Err(AccountNotFound)
    {
      if id in accountMap {
        return Ok(accountMap[id]);
      }
      r := Err(AccountNotFound);
    }
  }
}
