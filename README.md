# Optimistic-concurrency balance engine, modelled in Dafny

This project models the balance engine of a small banking service. Each
account has a balance and a version. Every deposit or withdrawal:

- reads the account without a lock;
- updates it only if the version is still the one it read and the balance
  stays non-negative;
- appends an audit row in the same database transaction.

A lost race shows up as a version conflict, and a retry coordinator then
repeats the attempt with capped exponential backoff. An optional
idempotency key turns a repeated request into a replay of the stored row.

The modules follow the program's structure:

- `Entities` (`entities.dfy`) holds the records:
  - the account;
  - the audit row;
  - the update request;
  - the response;
  - the error kinds, with the retryable flag the coordinator uses.
- `Store` (`store.dfy`) is the database the engine runs against.
  - `State` is a value snapshot of the accounts table and the transactions table.
  - Class `Store` holds the two tables as fields. Its methods are the
    primitives the engine uses: lookup by key, the lock-free read, the
    conditional update committed together with its audit row, and saving an
    account row.
  - Its invariant `Valid()` holds the table constraints (`WellFormed`). It
    also holds two ghost records:
    - every version an account has held, with its balance (so a version
      names one balance, which makes it a sound lock token);
    - where each account's unbroken audit chain starts.
- `Retry` (`retry.dfy`) is the coordinator.
  - `RetryFrom` and `Run` are the reference definition.
  - The loop `ExecuteWithRetry` is proved equal to it, and its properties
    are proved as lemmas.
- `Idempotency` (`idempotency.dfy`) holds key defaulting, the cached-result
  lookup and the key validator.
- `Executor` (`executor.dfy`) is the attempt and the retrying entry point.
  - The attempt is the function `Attempt`, split into `ReadStep` and
    `WriteStep` so that another writer's commit can be placed between them.
  - The methods `ReadPhase`, `WritePhase`, `ExecuteTransaction` and
    `ExecuteWithRetry` run it against a `Store`.
- `Accounts` (`accounts.dfy`) is the façade: create, list, balance,
  history, update.
- `Scenarios` (`scenarios.dfy`) states what the integration suites check,
  about requests served one after another. Requests the suites fire
  concurrently are placed in some order. A race is an interfering commit
  between one request's read and its write.

Money is integer cents. Delays are real milliseconds. Three things are
parameters:

- the jitter draw: `random(i)`, in [0, 1);
- the UUID minted for an account created without an id: `minted`;
- the coordinator's callbacks, whose calls are recorded in the run
  (`retried`, `exceeded`).

The façade and the executor disagree on two points, and the model follows
the executor.

1. The façade calls the executor with two arguments
   (`src/account/account.service.ts:82`), but the executor takes a third, the
   idempotency key (`src/account/services/transaction-executor.service.ts:30-34`).
   The model's update request carries an optional key, which the façade
   forwards. This is the field the suites send.
2. The transaction entity declares no key column, yet the executor queries
   and stores one.

The key is therefore `Option<string>`, and an absent key matches no row.
That is what minting a fresh key with `ensureKey` arranges (proved by
`Idempotency.EnsuredKeyProperties`). The model's store also enforces a
unique key column. That constraint belongs to the system's documented
schema, not to the code: `src/account/entities/transaction.entity.ts`
declares neither the column nor an index on it. In the model, a key taken
between an attempt's lookup and its insert breaks the constraint, and the
transaction rolls back with a retryable error.

One consequence of the code as written is proved by
`Executor.WriteStepProperties`. Insufficient funds is decided against the
balance the attempt read, not the balance stored now. A withdrawal that read
too low a balance is therefore refused without a retry, even when a deposit
committed in the meantime would now cover it.

## Model

| member | source | states |
|---|---|---|
| Store.FindByKey | src/account/services/transaction-executor.service.ts:85-87 | the lookup finds a row exactly when a key is given and some row carries it, and what it finds is such a row |
| Store.FindByKeyAppend | src/account/services/transaction-executor.service.ts:129-139 | after a key-free lookup, appending a row makes the key found exactly when that row carries it |
| Store.FindByKeyPrefix | src/account/services/transaction-executor.service.ts:85-87 | once the lookup finds a row, rows appended later do not change what it finds |
| Store.ReplayConservation | src/account/services/transaction-executor.service.ts:129-137 | along an unbroken audit chain, the balance is the opening balance plus the sum of the account's recorded amounts, and the version rose by one per row |
| Store.ReplayChain | src/account/services/transaction-executor.service.ts:129-137 | the rows of an unbroken chain carry versions opening+1, +2, ..., each starts from the previous row's balance, balanceAfter = balanceBefore + amount, and the last row is the account's current state |
| Store.ChainedSnoc | src/account/services/transaction-executor.service.ts:129-137 | a chain extended by a row that carries the next version and starts at the previous closing balance is still a chain |
| Store.RecordsMembers | src/account/account.service.ts:88-93 | a row is in an account's history exactly when it is in the table with that account id |
| Store.RecordsAscending | src/account/account.service.ts:88-93 | an account's rows keep the table's order (ascending ids within 1..table size, as numbered in the model) |
| Store.RecordsAppend | src/account/services/transaction-executor.service.ts:139 | appending a row extends exactly the history of that row's account |
| Store.ConditionalWrite | src/account/services/transaction-executor.service.ts:106-139 | definition of the update and its audit row in one transaction: no row affected unless the account exists at the version read and balance + amount >= 0; a key already held rolls back; else the balance moves by amount, the version by one, and a row with the balance read, balance read + amount and version read + 1 is appended (its properties: ConditionalWriteProperties) |
| Store.SaveAccount | src/account/account.service.ts:41-46 | definition of the account save: refused on a negative balance; otherwise the row is inserted at version 1 or overwritten with its version plus one (its properties: SaveAccountProperties) |
| Store.ConditionalWriteProperties | src/account/services/transaction-executor.service.ts:106-139 | the update commits iff the version read is current, balance + amount >= 0 and the key is unused; then only that account's balance moves by amount and its version by one, one row is appended with the new balance and version, and the constraints still hold; otherwise nothing changes |
| Store.SaveAccountProperties | src/account/account.service.ts:41-46 | saving fails iff the balance is negative (nothing stored); otherwise only that row changes: a new id gets version 1, an existing one its version plus one |
| Store.CommitKeepsChains | src/account/services/transaction-executor.service.ts:106-139 | a conditional write keeps every account's audit chain unbroken |
| Store.ChainsConserve | src/account/services/transaction-executor.service.ts:129-137 | with intact chains, every account's balance is its opening balance plus the amounts recorded since, its version the opening version plus their number, and those rows form a chain |
| Store.CommitKeepsStates | src/account/services/transaction-executor.service.ts:106-118 | after a write, every version still names one balance |
| Store.CommitKeepsInvariants | src/account/services/transaction-executor.service.ts:106-139 | a conditional write keeps the table constraints and the chains, and the version history only grows, by the committed version |
| Store.SaveKeepsInvariants | src/account/account.service.ts:41-46 | saving an account keeps the table constraints and the version history, and opens a new chain at the saved row |
| Store.Store.Read | src/account/services/transaction-executor.service.ts:94-97 | the read finds the account iff it exists, returns its row, and that snapshot is one the store really held |
| Store.Store.GenuineCurrent | src/account/services/transaction-executor.service.ts:103-116 | a snapshot whose version is still current carries the current balance |
| Store.Store.ConditionalUpdate | src/account/services/transaction-executor.service.ts:106-139 | the update and its audit row change the tables exactly as ConditionalWrite says and keep the store's invariant |
| Store.Store.Save | src/account/account.service.ts:41-46 | saving changes the tables exactly as SaveAccount says and opens a new chain at the saved row |
| Retry.MergeOverridesOwnField | src/account/services/retry-strategy.service.ts:24-36 | the defaults are 500 / 5 / 1000 / 10; each supplied field overrides only its own default |
| Retry.MergeFullConfig | src/account/services/retry-strategy.service.ts:36 | a fully supplied config is used unchanged |
| Retry.Merge | src/account/services/retry-strategy.service.ts:24-36 | definition of the object spread: each field the caller supplied, else its default (its properties: MergeOverridesOwnField, MergeFullConfig) |
| Retry.Pow2Monotone | src/account/services/retry-strategy.service.ts:84 | 2^a is at least 1 and non-decreasing in a |
| Retry.Backoff | src/account/services/retry-strategy.service.ts:84-85 | definition of min(2^attempt * base, cap) (its properties: BackoffCappedAndMonotone) |
| Retry.CalculateDelay | src/account/services/retry-strategy.service.ts:80-89 | definition of the capped backoff plus random * jitterMs (its bounds: DelayBounds) |
| Retry.BackoffCappedAndMonotone | src/account/services/retry-strategy.service.ts:84-85 | the backoff never exceeds the cap, is the cap or 2^attempt * base, and is non-decreasing in the attempt |
| Retry.DelayBounds | src/account/services/retry-strategy.service.ts:84-88 | the delay lies in [backoff, backoff + jitterMs), and is exactly the backoff when the jitter is 0 |
| Retry.RetryFromShape | src/account/services/retry-strategy.service.ts:40-70 | a run calls the operation between once and maxRetries times; every attempt before the last failed retryably and produced one notice, numbered 1, 2, ... in order, with its delay and error; it returns the last outcome, or, exactly when the last permitted attempt also failed retryably, fires the max-retries callback with maxRetries and raises the concurrency error |
| Retry.NoAttempts | src/account/services/retry-strategy.service.ts:40-70 | with maxRetries <= 0 the operation never runs and the fallback error is raised |
| Retry.FirstDecisiveAttempt | src/account/services/retry-strategy.service.ts:40-66 | if attempts 0..k-1 failed retryably and attempt k does not, the result is attempt k's after k+1 calls; if the last permitted attempt also fails retryably, the concurrency error after maxRetries calls |
| Retry.FirstSuccess | src/account/services/retry-strategy.service.ts:42 | a first-attempt success is returned after exactly one call, with no notices |
| Retry.TerminalErrorFailsFast | src/account/services/retry-strategy.service.ts:47-49 | InsufficientFunds or AccountNotFound on the first attempt propagate unchanged after one call |
| Retry.ExecuteWithRetry | src/account/services/retry-strategy.service.ts:31-71 | the loop's run is exactly the reference run `Run` under the merged config |
| Retry.NextTurn | src/account/services/retry-strategy.service.ts:41-66 | a turn finishes exactly when the decision is to return, with attempt + 1 calls and the notices so far; otherwise the attempt failed and the next one is made with its error remembered |
| Retry.TurnStep | src/account/services/retry-strategy.service.ts:40-67 | a turn of the loop leads to the same run as before it, and a retried attempt was not the last one permitted |
| Retry.Decide | src/account/services/retry-strategy.service.ts:42-66 | definition of what one outcome leads to: success and terminal errors return, a retryable error on attempt maxRetries - 1 fires the callback and becomes the concurrency error, any other error retries (used by RetryFromShape, FirstDecisiveAttempt, NextTurn) |
| Retry.RetryFrom | src/account/services/retry-strategy.service.ts:40-70 | reference definition of the loop from a given attempt, with one notice per retry and the last error thrown when the bound is reached (its shape: RetryFromShape) |
| Retry.Run | src/account/services/retry-strategy.service.ts:31-71 | reference definition of a whole run: RetryFrom attempt 0 with no error yet (the loop is proved equal to it: Retry.ExecuteWithRetry) |
| Entities.Error.Retryable | src/account/services/retry-strategy.service.ts:73-78 | definition: every error except InsufficientFunds and AccountNotFound is retried (used by TerminalErrorFailsFast, AttemptProperties) |
| Idempotency.EnsureKey | src/account/services/idempotency.service.ts:24-26 | a non-empty key is kept; an absent or empty key becomes the minted one |
| Idempotency.GetCachedResult | src/account/services/idempotency.service.ts:31-49 | null iff no row carries the key; otherwise success with that row's id, balanceAfter and version, not retried |
| Idempotency.CachedResponse | src/account/services/idempotency.service.ts:42-48 | definition of the response a found row stands for: success, its id, balanceAfter and version, not retried (used by CachedResultIsThatRow) |
| Idempotency.Utf16Length | src/account/services/idempotency.service.ts:54-56 | the JavaScript length of a string lies between its character count and twice it: exactly the count inside the Basic Multilingual Plane, exactly twice it when every character is outside it |
| Idempotency.IsValidKey | src/account/services/idempotency.service.ts:54-56 | definition: a key is valid when its JavaScript length is between 1 and 50 (its properties: ValidKeyLength, AstralKeyTooLong) |
| Idempotency.ValidKeyLength | src/account/services/idempotency.service.ts:54-56 | a valid key has 1 to 50 characters, every key of 1 to 25 characters is valid, and inside the Basic Multilingual Plane valid means 1 to 50 characters |
| Idempotency.AstralKeyTooLong | src/account/services/idempotency.service.ts:54-56 | a key of 26 emoji is rejected, because its JavaScript length is 52 |
| Idempotency.CachedResultIsThatRow | src/account/services/idempotency.service.ts:34-48 | with unique keys, the cached result is built from exactly the row carrying the key |
| Idempotency.EnsuredKeyProperties | src/account/services/idempotency.service.ts:54-56 | the resolved key passes the validator when the supplied and minted keys do; a fresh minted key finds nothing, like an absent key |
| Executor.NormalizeAmount | src/account/services/transaction-executor.service.ts:67-71 | the delta has the amount's magnitude; withdrawals are never positive, deposits never negative |
| Executor.BuildResponse | src/account/services/transaction-executor.service.ts:148-159 | definition of the response built from an audit row: its id, balanceAfter and version, retried iff the attempt number is positive (used by AttemptProperties) |
| Executor.ReadStep | src/account/services/transaction-executor.service.ts:84-101 | definition of the read phase: the row carrying the key if any, else the account snapshot, else no account (its store counterpart: ReadPhase) |
| Executor.WriteStep | src/account/services/transaction-executor.service.ts:106-141 | definition of the write phase against a snapshot: no row affected becomes InsufficientFunds when the snapshot balance cannot cover the delta and a version conflict otherwise; a taken key is a retryable error; a commit answers its row (its properties: WriteStepProperties) |
| Executor.Attempt | src/account/services/transaction-executor.service.ts:76-143 | definition of one attempt with nothing interleaved: ReadStep, then a cached answer, AccountNotFound, or WriteStep (its properties: AttemptProperties, AttemptRollsBack) |
| Executor.AttemptResults | src/account/services/transaction-executor.service.ts:39-48 | definition of the closure the coordinator calls: attempt i against the state the call found (used by SequentialRunIsOneAttempt, ExecuteWithRetry) |
| Executor.WriteStepProperties | src/account/services/transaction-executor.service.ts:106-126 | against any snapshot: a failure writes nothing; success iff the version is current, snapshot balance + delta >= 0 and the key is unused; InsufficientFunds iff snapshot balance + delta < 0; VersionConflict iff the version moved and the funds were sufficient; DuplicateKey iff the key was taken |
| Executor.AttemptRollsBack | src/account/services/transaction-executor.service.ts:83-126 | an attempt keeps the constraints and changes nothing when it throws |
| Executor.AttemptProperties | src/account/services/transaction-executor.service.ts:83-142 | an attempt: a recorded key answers with that row and changes nothing; a missing account throws AccountNotFound; an uncovered delta throws InsufficientFunds; otherwise exactly one row (id one past the table's length, balance read, delta, new version, key) is appended and only that account moves, by the delta and one version; it never fails retryably |
| Executor.CachedResultMatchesAttempt | src/account/services/transaction-executor.service.ts:85-91 | the resolver's cached result is what a first attempt with that key answers, changing nothing |
| Executor.ReplayIsIdempotent | src/account/services/transaction-executor.service.ts:85-139 | once a keyed attempt succeeded, an attempt with that key against any later state whose log extends the one it left, on any account, with any amount, type and attempt number, answers the same row and changes nothing |
| Executor.SequentialRunIsOneAttempt | src/account/services/transaction-executor.service.ts:30-62 | with nothing interleaved, the retrying executor makes one attempt and returns its outcome; a success has wasRetried = false |
| Executor.ReadPhase | src/account/services/transaction-executor.service.ts:84-101 | the read phase returns the cached row, no account, or the account's genuine snapshot, as ReadStep says |
| Executor.WritePhase | src/account/services/transaction-executor.service.ts:106-141 | the write phase changes the store and answers as WriteStep says |
| Executor.ExecuteTransaction | src/account/services/transaction-executor.service.ts:76-143 | one attempt changes the store and answers as Attempt says |
| Executor.ExecuteWithRetry | src/account/services/transaction-executor.service.ts:30-62 | the attempts, numbered 0, 1, ..., run under the default retry config exactly as the reference run, and the store ends as the last attempt left it |
| Executor.AttemptTurn | src/account/services/transaction-executor.service.ts:38-48 | one turn: the closure's attempt, numbered by its own counter, then the decision; the run is unchanged, a retried turn leaves the store as the call found it and a final one as the attempt left it |
| Accounts.CreateAccount | src/account/account.service.ts:31-47 | the account is saved under the given or the minted id at the given balance (default 0): a new id at version 1, the balance then readable; a negative balance is refused |
| Accounts.GetAccounts | src/account/account.service.ts:52-54 | exactly the stored accounts |
| Accounts.GetBalance | src/account/account.service.ts:59-69 | the stored balance iff the account exists, else AccountNotFound |
| Accounts.GetTransactionHistory | src/account/account.service.ts:88-93 | definition: the account's rows, reversed into newest-first order (its properties: HistoryIsNewestFirst) |
| Accounts.HistoryIsNewestFirst | src/account/account.service.ts:88-93 | the history holds exactly that account's rows, one per row, in strictly decreasing id order |
| Accounts.UpdateBalance | src/account/account.service.ts:74-83 | the request goes to the executor with its own key and the run comes back unchanged; with nothing interleaved it is one attempt, and a fresh success reports the stored balance |
| Accounts.Update | src/account/account.service.ts:74-83 | definition of one request with nothing interleaved: the executor's first attempt with the signed delta and the request's key (its properties: UpdateIsOneAttempt) |
| Accounts.UpdateIsOneAttempt | src/account/account.service.ts:74-83 | with nothing interleaved the executor's run is the first attempt's outcome after one call, and a fresh success stores the balance it reports |
| Scenarios.UnkeyedStep | src/account/services/transaction-executor.service.ts:103-139 | an unkeyed request succeeds iff balance + delta >= 0, appending one row of this account with the delta and answering the new balance and version; otherwise it throws InsufficientFunds and changes nothing |
| Scenarios.Conservation | test/concurrency/accounts.mixed.spec.ts:85-92 | after any series of unkeyed requests: the old rows are untouched; one new row per success, all of this account; the balance is the old one plus the recorded amounts, which are the successful deltas; the version rose by one per success; nothing else changed |
| Scenarios.FreshAccountHistory | test/concurrency/accounts.integrity.spec.ts:60-80 | for a newly created account: history length = successes, balance = opening + recorded amounts, version = 1 + successes |
| Scenarios.DrainState | test/concurrency/accounts.concurrency.spec.ts:123-150 | after n withdrawals of w, min(n, balance / w) succeeded, and the balance, version and table grew accordingly |
| Scenarios.Drain | test/concurrency/accounts.concurrency.spec.ts:123-150 | the first balance / w withdrawals succeed with the exact response, and every later one throws InsufficientFunds |
| Scenarios.HundredWithdrawalsOfFive | test/concurrency/accounts.concurrency.spec.ts:56-88 | 100 withdrawals of 5 from 500 all succeed, leaving 0 and 100 rows |
| Scenarios.OverdraftPrevented | test/concurrency/accounts.concurrency.spec.ts:123-150 | 10 withdrawals of 20 from 100: exactly 5 succeed, the rest are InsufficientFunds, and the balance ends at 0 |
| Scenarios.ExactWithdrawalEmptiesAccount | test/concurrency/accounts.errors.spec.ts:77-99 | withdrawing exactly the balance succeeds with 0 left; any further positive withdrawal throws InsufficientFunds and changes nothing |
| Scenarios.RepeatedKeyWritesOnce | test/concurrency/accounts.idempotency.spec.ts:60-112 | the same keyed request sent n >= 1 times writes one row, moves the balance once, and every copy gets the first response |
| Scenarios.MissingAccountFailsOnce | test/concurrency/accounts.errors.spec.ts:68-75 | an update to a missing account throws AccountNotFound after one call and changes nothing |
| Scenarios.VersionTracking | test/concurrency/accounts.integrity.spec.ts:60-93 | opened with 100, then +10 and -5: version 3 and balance 105; the rows carry versions 2 and 3; the history lists the withdrawal first |
| Scenarios.RaceThenRetry | src/account/services/transaction-executor.service.ts:103-126 | a commit between a read and its write turns the write into a version conflict that writes nothing; the coordinator retries once, with one notice, and the retry commits on top with wasRetried = true |
| Scenarios.RaceStates | src/account/services/transaction-executor.service.ts:103-126 | the race on the tables: the first request commits, the stale write conflicts and leaves the tables as they were, the retry commits with both deltas, two versions and two rows more |
| Scenarios.LostRace | src/account/services/transaction-executor.service.ts:93-141 | the same race played on the store: read, interfering attempt, stale write (version conflict), retry (success, retried), two rows and two versions more |

## Left out

- Concurrency itself is not modelled: no threads, no database isolation levels, no `Promise.all`. A race is the explicit interleaving of a commit between a read and a write (`Scenarios.RaceThenRetry`, `Scenarios.LostRace`).
- Sleeping (`setTimeout`) is not modelled; each delay is recorded in the retry notice instead. `Math.random` is the parameter `random`.
- Logging and the callback message texts are not modelled. The `onRetry` calls become the `retried` notices of a run, and `onMaxRetriesExceeded` becomes `exceeded`.
- Money is integer cents. The decimal(18,2) range and rounding, and the `Number(...)` float conversions of balances, are not modelled.
- UUID generation is a parameter (`minted`), assumed unused where the façade needs it.
- The 50-character limit on account ids is not modelled; ids are arbitrary strings.
- Accounts.CreateAccount: an ORM save of an unchanged existing row, which TypeORM skips without bumping the version, is modelled as a version bump.
- Accounts.GetTransactionHistory orders by auto-increment id, not by `createdAt`; rows created within the same timestamp have no order in the source.
- Retry.Merge: a config field passed explicitly as `undefined` overrides its default in JavaScript's object spread. The model treats it as absent.
- Retry.Merge: a non-integer `maxRetries` is not modelled; it is an integer.
- Idempotency.EnsureKey is modelled but not called on the update path, just as no source caller calls `ensureKey`. The façade forwards the request's optional key, and an absent key matches no row.
- TypeORM's own handling of an undefined key in the lookup's `where` clause is not modelled; an absent key never matches.
- Store.ConditionalWrite, Store.KeysUnique: the unique constraint on the idempotency key comes from the documented schema; the entities declare none. Without it, an attempt on account B whose key was committed by an attempt on account A between B's lookup and B's insert would insert a second row with that key and succeed. The model instead rolls B back with DuplicateKey, retries, and answers B with A's row.
- Store.SerialIds, Store.ConditionalWrite: transaction ids are numbered 1, 2, ... by position, gapless and in commit order. A database sequence is not transactional: a rolled-back insert uses up its id, and the suites' table cleanup does not restart the sequence. The id the source returns can therefore be larger than the model's. The sequence also hands out ids at insert time, so two overlapping transactions can commit in the opposite order to their ids. With one writer at a time, both numberings increase strictly in commit order, and that is all `Accounts.HistoryIsNewestFirst` relies on. The concrete ids in `Executor.AttemptProperties`, `Scenarios.Drain` and `Scenarios.VersionTracking` are the model's numbering.
- Idempotency.IsValidKey: the `typeof key === 'string'` test is implied by the parameter's type.
- HTTP routing, validation decorators, exception payloads, module wiring and bootstrap are not modelled.
