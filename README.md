# bank-sim ledger and user stores, in Dafny

This project models the in-memory services of the bank simulator:

- the v2 **account ledger** (`internal/account/service.go`). It holds an account table and three idempotency caches (`accCreations`, `deposits`, `withdraws`), each keyed by the client's request id. It also has the fixed-point money arithmetic the ledger uses (`addMoney`, `substractMoney`, `isZero`, `normalizeMoney`);
- the **user directory** (`server/user/user_service.go`): create, get, list, update and delete users in a map;
- the older **user store** (`server/account/user_service.go`) and the **v1 account table** (`internal/account/account_service.go`).

Files: `grpc.dfy` (status codes, `Option`, `Result`), `ids.dfy` (id generation), `user_proto.dfy` (the `UserInfo` record), `money.dfy`, `ledger.dfy`, `ledger_scenarios.dfy`, `user_directory.dfy`, `legacy_users.dfy`, `legacy_accounts.dfy`.

How the model is built:

- **Handlers.** Every RPC handler is a method of a class whose fields are the Go struct's maps. The method runs as one atomic step.
- **Context.** The caller's context is a `canceled: bool` argument.
- **User service.** The ledger's calls to the user service are a `LookupOutcome` argument. It is one of: a user; an error status, which the ledger forwards verbatim; or an error without a status, which the ledger reports as `Internal`.
- **Id generation.** `uuid.NewV4` is `Ids.NewV4`. It chooses a non-empty id that is not yet a key of the asking map. It may also fail, and the caller turns that into `Internal`.
- **Shared pointers.** Ledger accounts are objects (`Ledger.AccountInfo`). The table, the three caches and every response hold the same object, and Deposit/Withdraw assign its `balance` in place. So a replayed response shows the account's current balance. A replayed CreateAccount still returns an account that DeleteAccount has removed, because no handler ever clears a cache.
- **Money.** `Money` is a value. `normalizeMoney` is a function made of two steps: carry whole units out of `nanos` with Go's truncating `/` and `%` (`TruncDiv`, `TruncMod`), then borrow one unit while `nanos` is negative. `Canonical` is an independent reference definition using floor division. `NormalizeIsCanonical` proves that both give the same result.
- **Nil pointers.** A nil `InitialBalance`, `Amount` or update field is `None`. Where the Go code would dereference nil and panic, the model has a `requires` instead:
  - `addMoney(nil, nil)`;
  - Withdraw with a nil amount or on an account with a nil balance;
  - DeleteAccount of an account with a nil balance.

Behaviour of the code worth knowing, which the model keeps as written:

- **Deposit's currency mismatch** is `InvalidArgument`, because `addMoney` says so. Withdraw's is `FailedPrecondition`.
- **CreateAccount stores `InitialBalance` as given.** It is not normalized, and it may be nil or negative. No table-wide "balances are canonical and non-negative" invariant is claimed.
- **`subtract(add(a, b), b) == normalize(a)` does not hold for every `a` and `b` of one currency.** `substractMoney` compares `(units, nanos)` lexicographically. The round trip holds whenever `b` is canonical and `a` is not negative (`AddThenSubtract`). It fails on some other inputs, for example a = {USD,-5,0}, b = {USD,3,0} (`AddThenSubtractNegative`).
- **Withdraw never checks the amount's sign.** When the balance and the amount are both canonical and the balance is not negative, withdrawing a negative amount succeeds and increases the balance (`SubtractNegativeIncreases`). Deposit rejects only a zero amount, so a negative deposit can drive a balance below zero.
- **The user directory's UpdateUser and DeleteUser never look at the context.** The tests expect `Canceled` there. The model follows the code.

## Model

| member | source | states |
|---|---|---|
| `Ids.NewV4` | internal/account/service.go:69-72 | a generated id is non-empty and not yet a key of the table that asked for it |
| `Ids.FreshExists` | internal/account/service.go:69 | a finite set of ids never exhausts the non-empty strings, so a fresh id always exists |
| `MoneyMath.TruncDiv` | internal/account/service.go:303 | Go's quotient by 10^9 truncates toward zero: its multiple of 10^9 lies between 0 and the dividend, less than 10^9 away from the dividend |
| `MoneyMath.TruncMod` | internal/account/service.go:304 | Go's remainder by 10^9 recombines with the quotient to the dividend, is below 10^9 in magnitude and has the dividend's sign |
| `MoneyMath.NormalizeMoney` | internal/account/service.go:301-315 | the result has 0 <= nanos < 10^9, the same value units*10^9+nanos, and the same currency |
| `MoneyMath.NormalizedUnique` | internal/account/service.go:301-315 | two canonical amounts with equal currency and value are equal |
| `MoneyMath.NormalizeIsCanonical` | internal/account/service.go:302-309 | truncating carry followed by borrow equals the floor-division canonical form, for every input |
| `MoneyMath.NormalizeKeepsNormalized` | internal/account/service.go:301-315 | an already canonical amount is returned unchanged |
| `MoneyMath.NormalizeIdempotent` | internal/account/service.go:301-315 | normalizing twice is the same as normalizing once |
| `MoneyMath.IsZero` | internal/account/service.go:289-299 | with one operand absent it returns the other; with both present it returns none, so addMoney goes on to the currency check |
| `MoneyMath.AddMoney` | internal/account/service.go:253-271 | an absent operand yields the other one unchanged and unnormalized; differing currencies fail InvalidArgument; otherwise the result is canonical, in a's currency, with value a+b |
| `MoneyMath.SubtractMoney` | internal/account/service.go:273-287 | differing currencies fail FailedPrecondition; a below b in (units, nanos) order fails FailedPrecondition "insufficient balance"; otherwise the result is canonical, in a's currency, with value a-b |
| `MoneyMath.LexLessIsValueLess` | internal/account/service.go:277 | on canonical amounts the (units, nanos) order is the order of values, both directions |
| `MoneyMath.SubtractSucceedsIff` | internal/account/service.go:273-287 | between canonical amounts of one currency, subtraction succeeds exactly when it does not overdraw, and then leaves a non-negative amount |
| `MoneyMath.AddThenSubtract` | internal/account/service.go:253-287 | subtracting a canonical b from a+b gives normalize(a) when a is not negative |
| `MoneyMath.SubtractThenAdd` | internal/account/service.go:253-287 | adding b back to a successful a-b gives normalize(a) |
| `MoneyMath.AddThenSubtractNegative` | internal/account/service.go:277-279 | the round trip fails for a = {USD,-5,0}, b = {USD,3,0}: insufficient balance |
| `MoneyMath.SubtractNegativeIncreases` | internal/account/service.go:273-287 | subtracting a negative amount from a non-negative one succeeds and increases it |
| `MoneyMath.AddMoneyCommutes` | internal/account/service.go:261-267 | adding two present amounts of one currency does not depend on operand order |
| `MoneyMath.AddMoneyReorder` | internal/account/service.go:201-206 | two deposits of one currency applied in sequence give the same balance in either order |
| `Ledger.Service.constructor` | internal/account/service.go:28-36 | New starts with an empty table and three empty caches |
| `Ledger.Service.CreateAccount` | internal/account/service.go:39-85 | canceled fails Canceled; an empty user id or request id fails InvalidArgument; a cached request id replays the first response, whatever the lookup says now; each of these leaves everything unchanged. On a miss, a failed lookup is forwarded verbatim (or Internal) with nothing changed. On success, exactly one fresh account is added under a new id, with the looked-up owner and InitialBalance as given, and only accCreations[requestId] is recorded |
| `Ledger.Service.GetAccount` | internal/account/service.go:88-107 | Canceled, InvalidArgument for an empty id, NotFound for an absent one, otherwise the stored account, whose id is the one asked for |
| `Ledger.Service.ListAccounts` | internal/account/service.go:110-140 | Canceled, InvalidArgument for an empty user id, the lookup's error; otherwise exactly the stored accounts whose owner id is the user id, each once |
| `Ledger.Service.DeleteAccount` | internal/account/service.go:143-170 | Canceled, InvalidArgument, NotFound, FailedPrecondition for a non-zero balance, all unchanged; otherwise removes only that key and leaves all three caches as they were |
| `Ledger.Service.Deposit` | internal/account/service.go:173-213 | Canceled; InvalidArgument for an empty account id, a nil or zero amount, or an empty request id; a cached request id replays the cached account. Without a cache hit, an absent account gives NotFound and a money error is returned. Every error, and every replay, leaves the table, the caches and every account's balance as they were. On success only that account's balance becomes addMoney(balance, amount) and deposits[requestId] is recorded |
| `Ledger.Service.Withdraw` | internal/account/service.go:216-251 | the same as Deposit, except that only the two ids are validated and the new balance is substractMoney(balance, amount); its money errors are FailedPrecondition. Every error, and every replay, leaves the table, the caches and every account's balance as they were |
| `LedgerScenarios.DepositReplayScenario` | internal/account/service.go:192-212 | unless id generation fails, the account is created, the first Deposit succeeds on it, the same Deposit again credits nothing more and returns the first response, and the balance is {USD,1000,0} |
| `LedgerScenarios.WithdrawDeleteScenario` | internal/account/service.go:143-170 | unless id generation fails, from {USD,100,0}: withdrawing 101 fails, withdrawing 100 leaves {USD,0,0}, delete succeeds with the account's id, GetAccount then fails NotFound, and a replayed CreateAccount still returns the deleted account |
| `UserDirectory.Overwrite` | server/user/user_service.go:92-98 | an update field replaces the current value only when present and non-empty |
| `UserDirectory.UserService.constructor` | server/user/user_service.go:21-23 | the directory starts empty |
| `UserDirectory.UserService.CreateUser` | server/user/user_service.go:26-47 | an empty login, or else an empty email, fails InvalidArgument with the map unchanged; success inserts exactly one fresh {id, login, email} under a new id and returns that id |
| `UserDirectory.UserService.GetUser` | server/user/user_service.go:50-59 | the stored user for a known id, NotFound otherwise |
| `UserDirectory.UserService.ListUsers` | server/user/user_service.go:62-80 | Canceled when canceled; otherwise every stored user exactly once, so the length is the map's size |
| `UserDirectory.UserService.UpdateUser` | server/user/user_service.go:83-101 | NotFound for an unknown id; otherwise email and login are overwritten only by present non-empty values, the map is unchanged and no other user changes |
| `UserDirectory.UserService.DeleteUser` | server/user/user_service.go:103-118 | an unknown id gives Success=false with NotFound and the map unchanged; a known id is removed alone with Success=true, so a later GetUser fails |
| `LegacyUsers.UserService.constructor` | server/account/user_service.go:17-19 | the store starts empty |
| `LegacyUsers.UserService.CreateUser` | server/account/user_service.go:21-39 | an empty login fails InvalidArgument first, then an empty email; success stores {id, login, email} under a fresh id, returns it and leaves other entries untouched |
| `LegacyUsers.UserService.GetUser` | server/account/user_service.go:41-48 | the stored user for a present id, NotFound for an absent one |
| `LegacyAccounts.Server.AddAccount` | internal/account/account_service.go:19-36 | an empty login, then an empty email, fails InvalidArgument with nothing changed; success writes a fresh non-empty id into the caller's record, stores that record under it and returns the id |
| `LegacyAccounts.Server.GetAccount` | internal/account/account_service.go:39-45 | the stored record for a known id, NotFound otherwise |
| `LegacyAccounts.Server.constructor` | internal/account/account_service.go:48-52 | NewServer starts with an empty map |

## Left out

- Locking (`sync.RWMutex`): every handler is one atomic step. Interleavings, and the claim that concurrent deposits converge, are concurrency. `AddMoneyReorder` states the sequential part of that claim.
- Fixed-width integers: units (int64) and nanos (int32) are unbounded. The overflow of `a.Units + b.Units` and `a.Nanos + b.Nanos` is not modelled.
- Status messages: messages that Go formats with `%v` keep only their fixed prefix. For example, `"user does not exist %v"` becomes `"user does not exist"`.
- gRPC transport and proto plumbing: response wrappers such as `DepositResponse{Account: acc}` are represented by the account object they carry. A user lookup that succeeds with a nil user is not modelled.
- normalizeMoney's write into its argument: every caller passes a freshly built value, so the write is unobservable and the model returns a value.
- Which of the legal outcomes occurs is not modelled for id generation: it may fail or return any fresh id. For the user lookup, the outcome is chosen by the caller.
- Ledger.Service.CreateAccount: the promise that a replay does not call the user service is stated as independence: a replay's result and new state are the same whatever `lookup` outcome is passed. No log of calls is kept.
- Logging (`log.Printf`), the interactive client, servers and wiring (`cmd/`, `client/`, `server/main.go`, `pkg/`, `internal/repl/`) are outside the modelled core.
- LegacyAccounts.Server: no invariant ties a key to its record's id. AddAccount stores the caller's own record, so adding the same record twice leaves the first key pointing at a record that carries the second id. The model keeps that sharing.
