/** The v2 account ledger (`internal/account/service.go`): an account table and three
    idempotency caches keyed by client request id, changed by the RPC handlers.
    Every handler runs as one atomic step; the caller's context is the `canceled`
    flag and the user service is the `lookup` outcome passed in. */
module Ledger {
  import opened Grpc
  import opened MoneyMath
  import opened UserProto
  import Ids

  /** `accountv2.AccountInfo`. Handlers share it by pointer: the table, the cached
      responses and the responses handed out all refer to the same object, and Deposit
      and Withdraw assign its balance in place. Only the balance is ever assigned.
      In Go `Owner` is a copy decoded from the user service's reply, a snapshot; here
      it is whatever `UserInfo` the lookup returned, so a caller that passes an object
      the user directory also holds would see later updates to its login and email
      through the account. No ledger contract reads those two fields. */
  class AccountInfo {
    const id: string
    const owner: UserInfo
    var balance: Option<Money>

    constructor (id: string, owner: UserInfo, balance: Option<Money>)
      ensures this.id == id && this.owner == owner && this.balance == balance
    {
      this.id := id;
      this.owner := owner;
      this.balance := balance;
    }
  }

  /** What the user service's GetUser answers: a user, an error status (forwarded
      verbatim), or an error that carries no status (a transport failure). */
  datatype LookupOutcome = Found(user: UserInfo) | Failed(status: Status) | TransportFailure

  datatype CreateAccountRequest =
    CreateAccountRequest(userId: string, initialBalance: Option<Money>, requestId: string)
  datatype DepositRequest = DepositRequest(accountId: string, amount: Option<Money>, requestId: string)
  datatype WithdrawRequest = WithdrawRequest(accountId: string, amount: Option<Money>, requestId: string)

  const CanceledError := Status(Canceled, "request canceled by client")
  const NoUserId := Status(InvalidArgument, "user id is required")
  const NoRequestId := Status(InvalidArgument, "request id is required")
  const NoAccountId := Status(InvalidArgument, "account id is required")
  const NonPositiveDeposit := Status(InvalidArgument, "deposit must be greater than zero")
  const AccountNotFound := Status(NotFound, "account not found")
  const NonZeroBalance := Status(FailedPrecondition, "cannot delete account with non-zero balance")
  const LookupTransportError := Status(Internal, "failed to call UserService")
  const IdGenerationError := Status(Internal, "error while generating account id")

  /** The status a failed user lookup turns into. */
  function LookupError(lookup: LookupOutcome): Status
    requires !lookup.Found?
  {
    if lookup.Failed? then lookup.status else LookupTransportError
  }

  /** Deposit's amount check: a nil amount or one whose units and nanos are both zero. */
  predicate IsZeroAmount(amount: Option<Money>)
  {
    amount.None? || (amount.value.units == 0 && amount.value.nanos == 0)
  }

  predicate CreateAdmitted(canceled: bool, req: CreateAccountRequest)
  {
    !canceled && req.userId != "" && req.requestId != ""
  }

  predicate DepositAdmitted(canceled: bool, req: DepositRequest)
  {
    !canceled && req.accountId != "" && !IsZeroAmount(req.amount) && req.requestId != ""
  }

  /** Withdraw checks only the two ids, not the amount. */
  predicate WithdrawAdmitted(canceled: bool, req: WithdrawRequest)
  {
    !canceled && req.accountId != "" && req.requestId != ""
  }

  /** Adding a fresh key adds its value to the map's values and loses none. */
  lemma ValuesOfInsert<K, V>(m: map<K, V>, k: K, v: V)
    requires k !in m
    ensures m[k := v].Values == m.Values + {v}
  {
    forall x | x in m.Values ensures x in m[k := v].Values {
      var j :| j in m && m[j] == x;
      assert m[k := v][j] == x;
    }
    forall x | x in m[k := v].Values ensures x in m.Values + {v} {
      var j :| j in m[k := v] && m[k := v][j] == x;
      if j != k { assert m[j] == x; }
    }
    assert m[k := v][k] == v;
  }

  class Service {
    var accounts: map<string, AccountInfo>
    /** The idempotency caches: request id -> the account the first response carried. */
    var accCreations: map<string, AccountInfo>
    var deposits: map<string, AccountInfo>
    var withdraws: map<string, AccountInfo>

    /** Every account is stored under its own id; every account any table or cache
        refers to was created by exactly one CreateAccount request. */
    ghost predicate Valid()
      reads this
    {
      && (forall k :: k in accounts ==> accounts[k].id == k)
      && accounts.Values <= accCreations.Values
      && deposits.Values <= accCreations.Values
      && withdraws.Values <= accCreations.Values
      && (forall q1, q2 :: q1 in accCreations && q2 in accCreations && q1 != q2 ==>
            accCreations[q1] != accCreations[q2])
    }

    /** `New`: an empty ledger. */
    constructor ()
      ensures Valid()
      ensures accounts == map[] && accCreations == map[] && deposits == map[] && withdraws == map[]
    {
      accounts := map[];
      accCreations := map[];
      deposits := map[];
      withdraws := map[];
    }

    method CreateAccount(canceled: bool, req: CreateAccountRequest, lookup: LookupOutcome)
      returns (r: Result<AccountInfo>)
      requires Valid()
      modifies this
      ensures Valid()
      ensures canceled ==> r == Err(CanceledError) && unchanged(this)
      ensures !canceled && req.userId == "" ==> r == Err(NoUserId) && unchanged(this)
      ensures !canceled && req.userId != "" && req.requestId == "" ==>
                r == Err(NoRequestId) && unchanged(this)
      // a replay returns the first response, whatever the user service would say now
      ensures CreateAdmitted(canceled, req) && req.requestId in old(accCreations) ==>
                r == Ok(old(accCreations)[req.requestId]) && unchanged(this)
      ensures CreateAdmitted(canceled, req) && req.requestId !in old(accCreations) && !lookup.Found? ==>
                r == Err(LookupError(lookup)) && unchanged(this)
      ensures CreateAdmitted(canceled, req) && req.requestId !in old(accCreations) && lookup.Found? ==>
                if r.Err? then r == Err(IdGenerationError) && unchanged(this)
                else
                  && fresh(r.value)
                  && r.value.id != "" && r.value.id !in old(accounts)
                  && r.value.owner == lookup.user
                  && r.value.balance == req.initialBalance
                  && accounts == old(accounts)[r.value.id := r.value]
                  && accCreations == old(accCreations)[req.requestId := r.value]
                  && deposits == old(deposits) && withdraws == old(withdraws)
    {
      if canceled {
        return Err(CanceledError);
      }
      if req.userId == "" {
        return Err(NoUserId);
      }
      if req.requestId == "" {
        return Err(NoRequestId);
      }
      if req.requestId in accCreations {
        return Ok(accCreations[req.requestId]);
      }
      if !lookup.Found? {
        return Err(LookupError(lookup));
      }
      var id := Ids.NewV4(accounts.Keys);
      if id.None? {
        return Err(IdGenerationError);
      }
      var account := new AccountInfo(id.value, lookup.user, req.initialBalance);
      ValuesOfInsert(accounts, id.value, account);
      ValuesOfInsert(accCreations, req.requestId, account);
      accounts := accounts[id.value := account];
      accCreations := accCreations[req.requestId := account];
      r := Ok(account);
    }

    method GetAccount(canceled: bool, id: string) returns (r: Result<AccountInfo>)
      requires Valid()
      ensures canceled ==> r == Err(CanceledError)
      ensures !canceled && id == "" ==> r == Err(NoAccountId)
      ensures !canceled && id != "" && id !in accounts ==> r == Err(AccountNotFound)
      ensures !canceled && id != "" && id in accounts ==> r == Ok(accounts[id]) && r.value.id == id
    {
      if canceled {
        return Err(CanceledError);
      }
      if id == "" {
        return Err(NoAccountId);
      }
      if id !in accounts {
        return Err(AccountNotFound);
      }
      r := Ok(accounts[id]);
    }

    /** The accounts of one user, in the table's (unspecified) iteration order. */
    method ListAccounts(canceled: bool, userId: string, lookup: LookupOutcome)
      returns (r: Result<seq<AccountInfo>>)
      requires Valid()
      ensures canceled ==> r == Err(CanceledError)
      ensures !canceled && userId == "" ==> r == Err(NoUserId)
      ensures !canceled && userId != "" && !lookup.Found? ==> r == Err(LookupError(lookup))
      ensures !canceled && userId != "" && lookup.Found? ==>
                && r.Ok?
                && (forall a :: a in r.value <==> a in accounts.Values && a.owner.id == userId)
                && (forall i, j :: 0 <= i < j < |r.value| ==> r.value[i] != r.value[j])
    {
      if canceled {
        return Err(CanceledError);
      }
      if userId == "" {
        return Err(NoUserId);
      }
      if !lookup.Found? {
        return Err(LookupError(lookup));
      }
      var found: seq<AccountInfo> := [];
      var remaining := accounts.Keys;
      while remaining != {}
        invariant remaining <= accounts.Keys
        invariant forall a :: a in found <==>
                    a in accounts.Values && a.id !in remaining && a.owner.id == userId
        invariant forall i, j :: 0 <= i < j < |found| ==> found[i] != found[j]
        decreases remaining
      {
        var k :| k in remaining;
        var account := accounts[k];
        if account.owner.id == userId {
          found := found + [account];
        }
        remaining := remaining - {k};
      }
      r := Ok(found);
    }

    method DeleteAccount(canceled: bool, accountId: string) returns (r: Result<string>)
      requires Valid()
      // Go reads the balance's fields through the pointer: a nil balance panics
      requires !canceled && accountId != "" && accountId in accounts ==>
                 accounts[accountId].balance.Some?
      modifies this
      ensures Valid()
      ensures canceled ==> r == Err(CanceledError) && unchanged(this)
      ensures !canceled && accountId == "" ==> r == Err(NoAccountId) && unchanged(this)
      ensures !canceled && accountId != "" && accountId !in old(accounts) ==>
                r == Err(AccountNotFound) && unchanged(this)
      ensures !canceled && accountId != "" && accountId in old(accounts) ==>
                var b := old(accounts[accountId].balance.value);
                if b.units != 0 || b.nanos != 0 then r == Err(NonZeroBalance) && unchanged(this)
                else
                  && r == Ok(accountId)
                  && accounts == old(accounts) - {accountId}
                  // the caches keep their entries, deleted account included
                  && accCreations == old(accCreations)
                  && deposits == old(deposits) && withdraws == old(withdraws)
    {
      if canceled {
        return Err(CanceledError);
      }
      if accountId == "" {
        return Err(NoAccountId);
      }
      if accountId !in accounts {
        return Err(AccountNotFound);
      }
      var balance := accounts[accountId].balance.value;
      if balance.units != 0 || balance.nanos != 0 {
        return Err(NonZeroBalance);
      }
      accounts := accounts - {accountId};
      r := Ok(accountId);
    }

    method Deposit(canceled: bool, req: DepositRequest) returns (r: Result<AccountInfo>)
      requires Valid()
      modifies this, if req.accountId in accounts then {accounts[req.accountId]} else {}
      ensures Valid()
      // no error path writes anything: the table, the caches and every balance stay
      ensures r.Err? ==> unchanged(this) && unchanged(old(accounts).Values)
      ensures canceled ==> r == Err(CanceledError) && unchanged(this)
      ensures !canceled && req.accountId == "" ==> r == Err(NoAccountId) && unchanged(this)
      ensures !canceled && req.accountId != "" && IsZeroAmount(req.amount) ==>
                r == Err(NonPositiveDeposit) && unchanged(this)
      ensures !canceled && req.accountId != "" && !IsZeroAmount(req.amount) && req.requestId == "" ==>
                r == Err(NoRequestId) && unchanged(this)
      // a replay returns the cached account object, showing its current balance
      ensures DepositAdmitted(canceled, req) && req.requestId in old(deposits) ==>
                r == Ok(old(deposits)[req.requestId]) && unchanged(this)
                && unchanged(old(accounts).Values)
      ensures DepositAdmitted(canceled, req) && req.requestId !in old(deposits)
              && req.accountId !in old(accounts) ==>
                r == Err(AccountNotFound) && unchanged(this)
      ensures DepositAdmitted(canceled, req) && req.requestId !in old(deposits)
              && req.accountId in old(accounts) ==>
                var acc := old(accounts[req.accountId]);
                var sum := AddMoney(old(acc.balance), req.amount);
                && unchanged(this`accounts, this`accCreations, this`withdraws)
                && if sum.Err? then r == Err(sum.error) && unchanged(this) && unchanged(acc)
                   else
                     && r == Ok(acc)
                     && acc.balance == Some(sum.value)
                     && deposits == old(deposits)[req.requestId := acc]
    {
      if canceled {
        return Err(CanceledError);
      }
      if req.accountId == "" {
        return Err(NoAccountId);
      }
      if IsZeroAmount(req.amount) {
        return Err(NonPositiveDeposit);
      }
      if req.requestId == "" {
        return Err(NoRequestId);
      }
      if req.requestId in deposits {
        return Ok(deposits[req.requestId]);
      }
      if req.accountId !in accounts {
        return Err(AccountNotFound);
      }
      var acc := accounts[req.accountId];
      var sum := AddMoney(acc.balance, req.amount);
      if sum.Err? {
        return Err(sum.error);
      }
      acc.balance := Some(sum.value);
      deposits := deposits[req.requestId := acc];
      r := Ok(acc);
    }

    method Withdraw(canceled: bool, req: WithdrawRequest) returns (r: Result<AccountInfo>)
      requires Valid()
      // substractMoney reads both operands through their pointers: nil panics
      requires WithdrawAdmitted(canceled, req) && req.requestId !in withdraws
               && req.accountId in accounts ==>
                 req.amount.Some? && accounts[req.accountId].balance.Some?
      modifies this, if req.accountId in accounts then {accounts[req.accountId]} else {}
      ensures Valid()
      // no error path writes anything: the table, the caches and every balance stay
      ensures r.Err? ==> unchanged(this) && unchanged(old(accounts).Values)
      ensures canceled ==> r == Err(CanceledError) && unchanged(this)
      ensures !canceled && req.accountId == "" ==> r == Err(NoAccountId) && unchanged(this)
      ensures !canceled && req.accountId != "" && req.requestId == "" ==>
                r == Err(NoRequestId) && unchanged(this)
      ensures WithdrawAdmitted(canceled, req) && req.requestId in old(withdraws) ==>
                r == Ok(old(withdraws)[req.requestId]) && unchanged(this)
                && unchanged(old(accounts).Values)
      ensures WithdrawAdmitted(canceled, req) && req.requestId !in old(withdraws)
              && req.accountId !in old(accounts) ==>
                r == Err(AccountNotFound) && unchanged(this)
      ensures WithdrawAdmitted(canceled, req) && req.requestId !in old(withdraws)
              && req.accountId in old(accounts) ==>
                var acc := old(accounts[req.accountId]);
                var diff := SubtractMoney(old(acc.balance.value), req.amount.value);
                && unchanged(this`accounts, this`accCreations, this`deposits)
                && if diff.Err? then r == Err(diff.error) && unchanged(this) && unchanged(acc)
                   else
                     && r == Ok(acc)
                     && acc.balance == Some(diff.value)
                     && withdraws == old(withdraws)[req.requestId := acc]
    {
      if canceled {
        return Err(CanceledError);
      }
      if req.accountId == "" {
        return Err(NoAccountId);
      }
      if req.requestId == "" {
        return Err(NoRequestId);
      }
      if req.requestId in withdraws {
        return Ok(withdraws[req.requestId]);
      }
      if req.accountId !in accounts {
        return Err(AccountNotFound);
      }
      var acc := accounts[req.accountId];
      var diff := SubtractMoney(acc.balance.value, req.amount.value);
      if diff.Err? {
        return Err(diff.error);
      }
      acc.balance := Some(diff.value);
      withdraws := withdraws[req.requestId := acc];
      r := Ok(acc);
    }
  }
}
