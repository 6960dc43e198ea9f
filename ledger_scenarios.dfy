/** Request sequences against the ledger, showing what its handlers' contracts
    promise a client: replays have no second effect, withdrawals cannot overdraw,
    and deletion leaves the creation cache pointing at the removed account. */
module LedgerScenarios {
  import opened Grpc
  import opened MoneyMath
  import opened UserProto
  import opened Ledger

  function Usd(units: int): Money
  {
    Money("USD", units, 0)
  }

  /** Create with {USD,0,0}, then the same Deposit of {USD,1000,0} twice: once the
      account exists, the deposit succeeds, the second call answers with the first
      response and the balance is credited once. Only id generation can fail. */
  method DepositReplayScenario()
    returns (created: Result<AccountInfo>, first: Result<AccountInfo>, second: Result<AccountInfo>)
    ensures created.Err? ==> created == Err(IdGenerationError)
    ensures created.Ok? ==>
              && first.Ok? && first.value == created.value
              && second == first
              && first.value.balance == Some(Usd(1000))
  {
    var s := new Service();
    var owner := new UserInfo("user-123", "login", "user@test.com");
    created := s.CreateAccount(false, CreateAccountRequest("user-123", Some(Usd(0)), "1"), Found(owner));
    if created.Err? {
      return created, created, created;
    }
    var id := created.value.id;
    first := s.Deposit(false, DepositRequest(id, Some(Usd(1000)), "r1"));
    NormalizedUnique(AddMoney(Some(Usd(0)), Some(Usd(1000))).value, Usd(1000));
    second := s.Deposit(false, DepositRequest(id, Some(Usd(1000)), "r1"));
  }

  /** From {USD,100,0}: withdrawing 101 fails and changes nothing, withdrawing 100
      leaves {USD,0,0}, the account can then be deleted and is no longer found, yet
      replaying its CreateAccount request still returns it. Only id generation can
      fail. */
  method WithdrawDeleteScenario()
    returns (created: Result<AccountInfo>, overdraw: Result<AccountInfo>, deleted: Result<string>,
             fetched: Result<AccountInfo>, replayed: Result<AccountInfo>, balance: Option<Money>)
    ensures created.Err? ==> created == Err(IdGenerationError)
    ensures created.Ok? ==>
              && deleted == Ok(created.value.id)
              && overdraw == Err(Status(FailedPrecondition, "insufficient balance"))
              && balance == Some(Usd(0))
              && fetched == Err(Status(NotFound, "account not found"))
              && replayed.Ok? && replayed.value.id == deleted.value
  {
    var s := new Service();
    var owner := new UserInfo("user-123", "login", "user@test.com");
    var req := CreateAccountRequest("user-123", Some(Usd(100)), "1");
    created := s.CreateAccount(false, req, Found(owner));
    if created.Err? {
      return created, created, Err(created.error), created, created, None;
    }
    var account := created.value;
    var id := account.id;
    overdraw := s.Withdraw(false, WithdrawRequest(id, Some(Usd(101)), "w1"));
    var drained := s.Withdraw(false, WithdrawRequest(id, Some(Usd(100)), "w2"));
    NormalizedUnique(SubtractMoney(Usd(100), Usd(100)).value, Usd(0));
    balance := account.balance;
    deleted := s.DeleteAccount(false, id);
    fetched := s.GetAccount(false, id);
    replayed := s.CreateAccount(false, req, TransportFailure);
  }
}
