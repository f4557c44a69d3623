/** The balance façade: creates accounts, lists them, reads a balance,
    lists an account's history newest first, and hands updates to the
    retrying executor. `minted` stands for the UUID minted for an account
    created without an id, and `random` for the jitter draws. */
module Accounts {
  import opened Entities
  import opened Store
  import opened Retry
  import opened Executor

  /** Saves a new account under the given id, or under the minted one when
      none is given, at the given balance (0 by default). A new id starts at
      version 1; saving over an existing id overwrites its balance and bumps
      its version; a negative balance breaks the check constraint. */
  method CreateAccount(store: Store, accountId: Option<string>, initialBalance: Option<int>, minted: string)
    returns (r: Result<Account>)
    requires store.Valid()
    requires accountId.None? ==> minted !in store.accounts
    modifies store
    ensures store.Valid()
    ensures var id := accountId.GetOr(minted);
      var balance := initialBalance.GetOr(0);
      (store.Current(), r) == SaveAccount(old(store.Current()), id, balance)
    ensures r.Ok? <==> initialBalance.GetOr(0) >= 0
    ensures r.Ok? && accountId.GetOr(minted) !in old(store.accounts) ==> r.value == Account(accountId.GetOr(minted), initialBalance.GetOr(0), 1)
    ensures r.Ok? ==> store.accounts == old(store.accounts)[accountId.GetOr(minted) := r.value]
    ensures store.transactions == old(store.transactions)
    ensures r.Ok? ==> GetBalance(store, accountId.GetOr(minted)) == Ok(initialBalance.GetOr(0))
  {
    var id := accountId.GetOr(minted);
    var balance := initialBalance.GetOr(0);
    SaveAccountProperties(store.Current(), id, balance);
    r := store.Save(id, balance);
  }

  /** Every stored account. */
  function GetAccounts(store: Store): (r: set<Account>)
    reads store
    ensures forall a :: a in r <==> exists id :: id in store.accounts && store.accounts[id] == a
  {
    store.accounts.Values
  }

  /** The stored balance, or AccountNotFound. */
  function GetBalance(store: Store, accountId: string): (r: Result<int>)
    reads store
    ensures r.Ok? <==> accountId in store.accounts
    ensures r.Ok? ==> r.value == store.accounts[accountId].balance
    ensures r.Err? ==> r.error == AccountNotFound(accountId)
  {
    if accountId in store.accounts then Ok(store.accounts[accountId].balance) else Err(AccountNotFound(accountId))
  }

  function Reverse<T>(xs: seq<T>): (r: seq<T>)
    ensures |r| == |xs|
    ensures forall i :: 0 <= i < |xs| ==> r[i] == xs[|xs| - 1 - i]
  {
    if xs == [] then [] else [xs[|xs| - 1]] + Reverse(xs[..|xs| - 1])
  }

  /** The account's audit rows, newest first. */
  function GetTransactionHistory(store: Store, accountId: string): seq<TxRecord>
    reads store
  {
    Reverse(Records(store.transactions, accountId))
  }

  /** The history holds exactly the account's rows, one per row, newest
      (highest id) first. */
  lemma HistoryIsNewestFirst(store: Store, accountId: string)
    requires SerialIds(store.transactions)
    ensures var h := GetTransactionHistory(store, accountId);
      && (forall x :: x in h <==> x in store.transactions && x.accountId == accountId)
      && |h| == |Records(store.transactions, accountId)|
      && (forall i, j :: 0 <= i < j < |h| ==> h[i].id > h[j].id)
  {
    var rs := Records(store.transactions, accountId);
    var h := GetTransactionHistory(store, accountId);
    RecordsAscending(store.transactions, accountId);
    forall x
      ensures x in h <==> x in store.transactions && x.accountId == accountId
    {
      RecordsMembers(store.transactions, accountId, x);
      if x in h {
        var i :| 0 <= i < |h| && h[i] == x;
        assert rs[|rs| - 1 - i] == x;
      }
      if x in rs {
        var i :| 0 <= i < |rs| && rs[i] == x;
        assert h[|rs| - 1 - i] == x;
      }
    }
  }

  /** What an update request does to the tables and answers when nothing is
      interleaved with it: the executor's first attempt, with the request's
      signed delta and key. */
  function Update(s: State, accountId: string, dto: UpdateBalanceDto): Outcome
  {
    Attempt(s, accountId, NormalizeAmount(dto.amount, dto.txType), dto.txType, dto.idempotencyKey, 0)
  }

  /** An update request, handed to the executor with the request's key; the
      executor's run is returned unchanged. With nothing interleaved it makes
      one attempt; a fresh commit leaves the balance it reports. */
  method UpdateBalance(store: Store, accountId: string, dto: UpdateBalanceDto, random: nat -> real)
    returns (run: RetryRun<Response>)
    requires store.Valid()
    modifies store
    ensures store.Valid()
    ensures run == Run(AttemptResults(old(store.Current()), accountId, NormalizeAmount(dto.amount, dto.txType), dto.txType, dto.idempotencyKey),
                       DefaultConfig, random)
    ensures run.calls == 1 && run.retried == [] && run.exceeded.None?
    ensures Outcome(store.Current(), run.result) == Update(old(store.Current()), accountId, dto)
    ensures FindByKey(old(store.transactions), dto.idempotencyKey).None? && run.result.Ok? ==>
              GetBalance(store, accountId) == Ok(run.result.value.balanceAfter)
  {
    UpdateIsOneAttempt(store.Current(), accountId, dto, random);
    run := Executor.ExecuteWithRetry(store, accountId, dto, dto.idempotencyKey, random);
  }

  /** With nothing interleaved, the executor's run for an update request is
      its first attempt; a fresh commit stores the balance it reports. */
  lemma UpdateIsOneAttempt(s: State, accountId: string, dto: UpdateBalanceDto, random: nat -> real)
    requires WellFormed(s)
    ensures var run := Run(AttemptResults(s, accountId, NormalizeAmount(dto.amount, dto.txType), dto.txType, dto.idempotencyKey),
                           DefaultConfig, random);
      var o := Update(s, accountId, dto);
      && run == RetryRun(o.result, 1, [], None)
      && (FindByKey(s.transactions, dto.idempotencyKey).None? && o.result.Ok? ==>
            accountId in o.after.accounts && o.after.accounts[accountId].balance == o.result.value.balanceAfter)
  {
    SequentialRunIsOneAttempt(s, accountId, NormalizeAmount(dto.amount, dto.txType), dto.txType, dto.idempotencyKey, random);
    AttemptProperties(s, accountId, NormalizeAmount(dto.amount, dto.txType), dto.txType, dto.idempotencyKey, 0);
  }
}
