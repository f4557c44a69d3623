/** The atomic update executor. One attempt runs inside a database
    transaction: the idempotency lookup (a hit short-circuits), the lock-free
    read of the account, the conditional update, and the audit row. An
    attempt that fails throws, and the transaction rolls back. The retrying
    entry point counts physical attempts and hands each one its number.

    The attempt is split into a read phase and a write phase, so that another
    writer's commit can be placed between them. */
module Executor {
  import opened Entities
  import opened Store
  import opened Retry
  import opened Idempotency

  function Abs(x: int): nat
  {
    if x < 0 then -x else x
  }

  /** The signed delta of a request: withdrawals are never positive, deposits
      never negative, and the magnitude is the requested amount's. */
  function NormalizeAmount(amount: int, t: TxType): (r: int)
    ensures Abs(r) == Abs(amount)
    ensures t == Withdraw ==> r <= 0
    ensures t == Deposit ==> r >= 0
  {
    if t == Withdraw then -(Abs(amount) as int) else Abs(amount)
  }

  /** The response an audit row stands for; retried iff it was not the first attempt. */
  function BuildResponse(rec: TxRecord, attemptNumber: nat): Response
  {
    Response(true, rec.id, rec.balanceAfter, rec.version, attemptNumber > 0)
  }

  /** What the read phase found: a prior row for the key, no such account, or
      the account's version and balance. */
  datatype Prepared = Cached(record: TxRecord) | Missing | Snapshot(account: Account)

  function ReadStep(s: State, accountId: string, key: Option<string>): Prepared
  {
    match FindByKey(s.transactions, key)
    case Some(rec) => Cached(rec)
    case None => if accountId in s.accounts then Snapshot(s.accounts[accountId]) else Missing
  }

  /** The state an attempt leaves behind and what it returns or throws. */
  datatype Outcome = Outcome(after: State, result: Result<Response>)

  /** The write phase against the snapshot read: no row affected is
      insufficient funds when the balance read cannot cover the delta and a
      retryable version conflict otherwise; a key taken in the meantime breaks
      the uniqueness constraint; a commit answers with its audit row. */
  function WriteStep(s: State, accountId: string, snap: Account, amount: int, t: TxType, key: Option<string>, attemptNumber: nat): Outcome
  {
    var w := ConditionalWrite(s, accountId, snap, amount, t, key);
    match w.outcome
    case NoRowAffected => Outcome(s, Err(if snap.balance + amount < 0 then InsufficientFunds else VersionConflict))
    case KeyTaken => Outcome(s, Err(DuplicateKey))
    case Committed(rec) => Outcome(w.after, Ok(BuildResponse(rec, attemptNumber)))
  }

  /** One attempt with nothing interleaved between its read and its write. */
  function Attempt(s: State, accountId: string, amount: int, t: TxType, key: Option<string>, attemptNumber: nat): Outcome
  {
    match ReadStep(s, accountId, key)
    case Cached(rec) => Outcome(s, Ok(BuildResponse(rec, attemptNumber)))
    case Missing => Outcome(s, Err(AccountNotFound(accountId)))
    case Snapshot(a) => WriteStep(s, accountId, a, amount, t, key, attemptNumber)
  }

  /** The operation the retry coordinator runs: attempt i against state s. */
  function AttemptResults(s: State, accountId: string, amount: int, t: TxType, key: Option<string>): nat -> Result<Response>
  {
    (i: nat) => Attempt(s, accountId, amount, t, key, i).result
  }

  lemma AttemptResultsAt(s: State, accountId: string, amount: int, t: TxType, key: Option<string>, i: nat)
    ensures AttemptResults(s, accountId, amount, t, key)(i) == Attempt(s, accountId, amount, t, key, i).result
  {
  }

  /** Whatever was interleaved, the write phase writes nothing unless it
      commits; it commits only when the version read is still current and the
      new balance is non-negative; a failed update reports insufficient funds
      exactly when the balance read cannot cover the delta. */
  lemma WriteStepProperties(s: State, accountId: string, snap: Account, amount: int, t: TxType, key: Option<string>, n: nat)
    requires WellFormed(s)
    requires accountId in s.accounts && s.accounts[accountId].version == snap.version ==> s.accounts[accountId] == snap
    ensures var o := WriteStep(s, accountId, snap, amount, t, key, n);
      && WellFormed(o.after)
      && (o.result.Err? ==> o.after == s)
      && (o.result.Ok? <==>
            accountId in s.accounts && s.accounts[accountId].version == snap.version
            && snap.balance + amount >= 0 && FindByKey(s.transactions, key).None?)
      && (o.result == Err(InsufficientFunds) <==> snap.balance + amount < 0)
      && (o.result == Err(VersionConflict) <==>
            snap.balance + amount >= 0 && !(accountId in s.accounts && s.accounts[accountId].version == snap.version))
      && (o.result == Err(DuplicateKey) <==>
            snap.balance + amount >= 0 && accountId in s.accounts && s.accounts[accountId].version == snap.version
            && FindByKey(s.transactions, key).Some?)
  {
    ConditionalWriteProperties(s, accountId, snap, amount, t, key);
  }

  /** An attempt keeps every table constraint and rolls back whenever it fails. */
  lemma AttemptRollsBack(s: State, accountId: string, amount: int, t: TxType, key: Option<string>, n: nat)
    requires WellFormed(s)
    ensures var o := Attempt(s, accountId, amount, t, key, n);
      WellFormed(o.after) && (o.result.Err? ==> o.after == s)
  {
    if FindByKey(s.transactions, key).None? && accountId in s.accounts {
      WriteStepProperties(s, accountId, s.accounts[accountId], amount, t, key, n);
    }
  }

  /** An attempt with nothing interleaved: a key already recorded answers
      with that row's response and changes nothing; a missing account throws
      AccountNotFound and changes nothing; a delta the balance cannot cover
      throws InsufficientFunds and changes nothing; otherwise it commits
      exactly one audit row, numbered next, from the current balance and
      version, and moves only that account, by the delta and one version.
      It never fails retryably, and it keeps every table constraint. */
  lemma AttemptProperties(s: State, accountId: string, amount: int, t: TxType, key: Option<string>, n: nat)
    requires WellFormed(s)
    ensures var o := Attempt(s, accountId, amount, t, key, n);
      && WellFormed(o.after)
      && (o.result.Err? ==> o.after == s)
      && !RetryableFailure(o.result)
      && (FindByKey(s.transactions, key).Some? ==>
            o == Outcome(s, Ok(BuildResponse(FindByKey(s.transactions, key).value, n))))
      && (FindByKey(s.transactions, key).None? && accountId !in s.accounts ==>
            o == Outcome(s, Err(AccountNotFound(accountId))))
      && (FindByKey(s.transactions, key).None? && accountId in s.accounts ==>
            var a := s.accounts[accountId];
            var rec := TxRecord(|s.transactions| + 1, accountId, amount, t, a.balance, a.balance + amount, a.version + 1, key);
            && (a.balance + amount < 0 ==> o == Outcome(s, Err(InsufficientFunds)))
            && (a.balance + amount >= 0 ==>
                  o == Outcome(State(s.accounts[accountId := Account(accountId, a.balance + amount, a.version + 1)],
                                     s.transactions + [rec]),
                               Ok(Response(true, |s.transactions| + 1, a.balance + amount, a.version + 1, n > 0)))))
  {
    if FindByKey(s.transactions, key).None? && accountId in s.accounts {
      WriteStepProperties(s, accountId, s.accounts[accountId], amount, t, key, n);
    }
  }

  /** A prior result found by the resolver is exactly what a first attempt
      with the same key answers, and that attempt changes nothing. */
  lemma CachedResultMatchesAttempt(s: State, accountId: string, amount: int, t: TxType, key: string)
    requires GetCachedResult(s.transactions, key).Some?
    ensures Attempt(s, accountId, amount, t, Some(key), 0) == Outcome(s, Ok(GetCachedResult(s.transactions, key).value))
  {
  }

  /** Replaying a key: once an attempt with a key has succeeded, any later
      attempt with that key, against any state whose audit log extends the
      one the success left, on any account, with any amount, type and attempt
      number, answers with the same audit row and changes nothing. */
  lemma ReplayIsIdempotent(s: State, accountId: string, amount: int, t: TxType, k: string, n: nat,
                           s': State, accountId2: string, amount2: int, t2: TxType, m: nat)
    requires WellFormed(s)
    requires Attempt(s, accountId, amount, t, Some(k), n).result.Ok?
    requires Attempt(s, accountId, amount, t, Some(k), n).after.transactions <= s'.transactions
    ensures var o := Attempt(s, accountId, amount, t, Some(k), n);
      var o2 := Attempt(s', accountId2, amount2, t2, Some(k), m);
      && o2.after == s'
      && o2.result.Ok?
      && o2.result.value.transactionId == o.result.value.transactionId
      && o2.result.value.balanceAfter == o.result.value.balanceAfter
      && o2.result.value.version == o.result.value.version
  {
    var o := Attempt(s, accountId, amount, t, Some(k), n);
    var more := s'.transactions[|o.after.transactions|..];
    assert s'.transactions == o.after.transactions + more;
    AttemptProperties(s, accountId, amount, t, Some(k), n);
    var rec;
    if FindByKey(s.transactions, Some(k)).None? {
      var a := s.accounts[accountId];
      rec := TxRecord(|s.transactions| + 1, accountId, amount, t, a.balance, a.balance + amount, a.version + 1, Some(k));
      FindByKeyAppend(s.transactions, rec, Some(k));
    } else {
      rec := FindByKey(s.transactions, Some(k)).value;
    }
    assert FindByKey(o.after.transactions, Some(k)) == Some(rec);
    FindByKeyPrefix(o.after.transactions, more, Some(k));
  }

  /** Without interference the retrying executor makes exactly one attempt:
      its outcome is returned unchanged, nothing is retried, and a success
      reports wasRetried = false. */
  lemma SequentialRunIsOneAttempt(s: State, accountId: string, amount: int, t: TxType, key: Option<string>, random: nat -> real)
    requires WellFormed(s)
    ensures var run := Run(AttemptResults(s, accountId, amount, t, key), DefaultConfig, random);
      && run == RetryRun(Attempt(s, accountId, amount, t, key, 0).result, 1, [], None)
      && (run.result.Ok? ==> !run.result.value.wasRetried)
  {
    AttemptProperties(s, accountId, amount, t, key, 0);
  }

  /** The read phase: the idempotency lookup, then the lock-free read. */
  method ReadPhase(store: Store, accountId: string, key: Option<string>) returns (p: Prepared)
    ensures p == ReadStep(store.Current(), accountId, key)
    ensures store.Valid() && p.Snapshot? ==> store.Genuine(accountId, p.account)
  {
    var existing := store.FindOne(key);
    if existing.Some? {
      return Cached(existing.value);
    }
    var account := store.Read(accountId);
    if account.None? {
      return Missing;
    }
    return Snapshot(account.value);
  }

  /** The write phase: the conditional update with its audit row, against a
      snapshot the store really held. */
  method WritePhase(store: Store, accountId: string, snap: Account, amount: int, t: TxType, key: Option<string>, attemptNumber: nat)
    returns (r: Result<Response>)
    requires store.Valid() && store.Genuine(accountId, snap)
    modifies store
    ensures store.Valid()
    ensures Outcome(store.Current(), r) == WriteStep(old(store.Current()), accountId, snap, amount, t, key, attemptNumber)
    ensures Extends(old(store.states), store.states) && store.epochs == old(store.epochs)
  {
    var w := store.ConditionalUpdate(accountId, snap, amount, t, key);
    match w
    case NoRowAffected =>
      if snap.balance + amount < 0 {
        r := Err(InsufficientFunds);
      } else {
        r := Err(VersionConflict);
      }
    case KeyTaken =>
      r := Err(DuplicateKey);
    case Committed(rec) =>
      r := Ok(BuildResponse(rec, attemptNumber));
  }

  /** One attempt. */
  method ExecuteTransaction(store: Store, accountId: string, amount: int, t: TxType, key: Option<string>, attemptNumber: nat)
    returns (r: Result<Response>)
    requires store.Valid()
    modifies store
    ensures store.Valid()
    ensures Outcome(store.Current(), r) == Attempt(old(store.Current()), accountId, amount, t, key, attemptNumber)
    ensures Extends(old(store.states), store.states) && store.epochs == old(store.epochs)
  {
    var p := ReadPhase(store, accountId, key);
    match p
    case Cached(rec) =>
      r := Ok(BuildResponse(rec, attemptNumber));
    case Missing =>
      r := Err(AccountNotFound(accountId));
    case Snapshot(snap) =>
      r := WritePhase(store, accountId, snap, amount, t, key, attemptNumber);
  }

  /** One turn of the coordinator's loop: the closure makes its attempt,
      numbered by its own call counter, and the coordinator decides. A failed
      attempt rolled back, so the store is again the state the call found. */
  method AttemptTurn(store: Store, ghost s0: State, accountId: string, amount: int, t: TxType, key: Option<string>,
                     random: nat -> real, cfg: Config, turn: Turn<Response>, counter: nat)
    returns (next: Turn<Response>)
    requires store.Valid() && store.Current() == s0
    requires turn.Pending? && turn.attempt < cfg.maxRetries && counter == turn.attempt
    modifies store
    ensures store.Valid()
    ensures var op := AttemptResults(s0, accountId, amount, t, key);
      Resume(op, cfg, random, next) == Resume(op, cfg, random, turn)
    ensures next.Pending? ==> next.attempt < cfg.maxRetries && next.attempt == counter + 1 && store.Current() == s0
    ensures next.Done? ==> next.run.calls == counter + 1 && store.Current() == Attempt(s0, accountId, amount, t, key, counter).after
  {
    var outcome := ExecuteTransaction(store, accountId, amount, t, key, counter);
    AttemptRollsBack(s0, accountId, amount, t, key, counter);
    AttemptResultsAt(s0, accountId, amount, t, key, counter);
    TurnStep(AttemptResults(s0, accountId, amount, t, key), cfg, random, turn);
    next := NextTurn(turn, cfg, random, outcome);
  }

  /** The retrying entry point: the coordinator's loop with the default
      configuration around attempts numbered 0, 1, ... Each failed attempt
      rolled back, so every attempt starts from the state the call found.
      This is the loop of `Retry.ExecuteWithRetry` again, because here each
      call of the operation is a method that changes the store, which a
      function-valued operation cannot do; both loops step by `NextTurn`. */
  method ExecuteWithRetry(store: Store, accountId: string, dto: UpdateBalanceDto, key: Option<string>, random: nat -> real)
    returns (run: RetryRun<Response>)
    requires store.Valid()
    modifies store
    ensures store.Valid()
    ensures run == Run(AttemptResults(old(store.Current()), accountId, NormalizeAmount(dto.amount, dto.txType), dto.txType, key),
                       DefaultConfig, random)
    ensures run.calls >= 1
    ensures store.Current() == Attempt(old(store.Current()), accountId, NormalizeAmount(dto.amount, dto.txType), dto.txType, key, run.calls - 1).after
  {
    var amount := NormalizeAmount(dto.amount, dto.txType);
    ghost var s0 := old(store.Current());
    ghost var op := AttemptResults(s0, accountId, amount, dto.txType, key);
    var cfg := Merge(None);
    var counter: nat := 0;
    var turn: Turn<Response> := Pending(0, None, []);
    while turn.Pending?
      invariant store.Valid()
      invariant turn.Pending? ==> turn.attempt < cfg.maxRetries && store.Current() == s0 && counter == turn.attempt
      invariant turn.Done? ==> turn.run.calls >= 1 && store.Current() == Attempt(s0, accountId, amount, dto.txType, key, turn.run.calls - 1).after
      invariant Run(op, cfg, random) == Resume(op, cfg, random, turn)
      decreases if turn.Pending? then cfg.maxRetries - turn.attempt + 1 else 0
    {
      turn := AttemptTurn(store, s0, accountId, amount, dto.txType, key, random, cfg, turn, counter);
      counter := counter + 1;
    }
    run := turn.run;
  }
}
