/** The account and transaction tables the engine runs against. A `State` is a
    value snapshot of both tables; class `Store` holds them as fields that the
    write primitives update in place. The store offers exactly the primitives
    the engine uses: lookup by idempotency key, a lock-free read of an
    account, the conditional update committed together with its audit row,
    and saving an account row. */
module Store {
  import opened Entities

  datatype State = State(accounts: map<string, Account>, transactions: seq<TxRecord>)

  /** The first audit row that carries `key`. A missing key matches nothing. */
  function FindByKey(txs: seq<TxRecord>, key: Option<string>): (r: Option<TxRecord>)
    ensures r.Some? <==> key.Some? && exists i :: 0 <= i < |txs| && txs[i].idempotencyKey == key
    ensures r.Some? ==> r.value in txs && r.value.idempotencyKey == key
  {
    if key.None? || txs == [] then None
    else if txs[0].idempotencyKey == key then Some(txs[0])
    else
      var r := FindByKey(txs[1..], key);
      assert forall i :: 1 <= i < |txs| ==> txs[i] == txs[1..][i - 1];
      r
  }

  /** Appending a row to a log that has no row with `key` leaves the new row
      as the only match. */
  lemma {:induction false} FindByKeyAppend(txs: seq<TxRecord>, r: TxRecord, key: Option<string>)
    requires FindByKey(txs, key).None?
    ensures FindByKey(txs + [r], key) == if key.Some? && r.idempotencyKey == key then Some(r) else None
  {
    if txs != [] {
      assert (txs + [r])[1..] == txs[1..] + [r];
      FindByKeyAppend(txs[1..], r, key);
    }
  }

  /** Rows appended after a match do not change what the lookup finds. */
  lemma {:induction false} FindByKeyPrefix(txs: seq<TxRecord>, more: seq<TxRecord>, key: Option<string>)
    requires FindByKey(txs, key).Some?
    ensures FindByKey(txs + more, key) == FindByKey(txs, key)
  {
    if txs[0].idempotencyKey != key {
      assert (txs + more)[1..] == txs[1..] + more;
      FindByKeyPrefix(txs[1..], more, key);
    }
  }

  /** The audit rows of one account, oldest first. */
  function Records(txs: seq<TxRecord>, id: string): seq<TxRecord>
  {
    if txs == [] then []
    else Records(txs[..|txs| - 1], id) + (if txs[|txs| - 1].accountId == id then [txs[|txs| - 1]] else [])
  }

  function SumAmounts(rs: seq<TxRecord>): int
  {
    if rs == [] then 0 else SumAmounts(rs[..|rs| - 1]) + rs[|rs| - 1].amount
  }

  /** One audit row applied to the account state it follows: a row of another
      account leaves it alone, a row of this account must start from its current
      balance and version and raise the version by one. */
  function Advance(cur: Account, r: TxRecord): Option<Account>
  {
    if r.accountId != cur.accountId then Some(cur)
    else if r.balanceBefore == cur.balance && r.version == cur.version + 1
         && r.balanceAfter == r.balanceBefore + r.amount
    then Some(cur.(balance := r.balanceAfter, version := r.version))
    else None
  }

  /** Replays the audit log from an opening account state; None when the log
      is not an unbroken chain for that account. */
  function Replay(txs: seq<TxRecord>, from: Account): Option<Account>
  {
    if txs == [] then Some(from)
    else match Replay(txs[..|txs| - 1], from)
      case None => None
      case Some(cur) => Advance(cur, txs[|txs| - 1])
  }

  lemma RecordsAppend(txs: seq<TxRecord>, r: TxRecord, id: string)
    ensures Records(txs + [r], id) == Records(txs, id) + (if r.accountId == id then [r] else [])
  {
    assert (txs + [r])[..|txs + [r]| - 1] == txs;
  }

  lemma SumAmountsAppend(rs: seq<TxRecord>, r: TxRecord)
    ensures SumAmounts(rs + [r]) == SumAmounts(rs) + r.amount
  {
    assert (rs + [r])[..|rs + [r]| - 1] == rs;
  }

  /** Conservation along an unbroken chain: the replayed balance is the opening
      balance plus the sum of the account's recorded amounts, and the version
      rose by one per recorded row. */
  lemma {:induction false} ReplayConservation(txs: seq<TxRecord>, from: Account, a: Account)
    requires Replay(txs, from) == Some(a)
    ensures a.accountId == from.accountId
    ensures a.balance == from.balance + SumAmounts(Records(txs, from.accountId))
    ensures a.version == from.version + |Records(txs, from.accountId)|
  {
    if txs != [] {
      var init, last := txs[..|txs| - 1], txs[|txs| - 1];
      var cur := Replay(init, from).value;
      assert Replay(txs, from) == Advance(cur, last);
      ReplayConservation(init, from, cur);
      var rs0 := Records(init, from.accountId);
      if last.accountId == from.accountId {
        assert Records(txs, from.accountId) == rs0 + [last];
        SumAmountsAppend(rs0, last);
      } else {
        assert Records(txs, from.accountId) == rs0 + [];
        assert rs0 + [] == rs0;
      }
    }
  }

  /** The balance a chain's k-th row must start from: the opening balance for
      the first row, the previous row's closing balance otherwise. */
  function StartOf(rs: seq<TxRecord>, k: nat, opening: int): int
    requires k < |rs|
  {
    if k == 0 then opening else rs[k - 1].balanceAfter
  }

  /** The rows of one account form an unbroken chain from `from`: versions
      from.version+1, +2, ... with no gap or repeat, each row starting where the
      previous one ended and ending at its start plus its amount. */
  predicate Chained(rs: seq<TxRecord>, from: Account)
  {
    forall k :: 0 <= k < |rs| ==>
      && rs[k].version == from.version + k + 1
      && rs[k].balanceBefore == StartOf(rs, k, from.balance)
      && rs[k].balanceAfter == rs[k].balanceBefore + rs[k].amount
  }

  /** A chain grows by a row that carries the next version and starts where
      the chain ended. */
  lemma ChainedSnoc(rs: seq<TxRecord>, last: TxRecord, from: Account)
    requires Chained(rs, from)
    requires last.version == from.version + |rs| + 1
    requires last.balanceBefore == (if rs == [] then from.balance else rs[|rs| - 1].balanceAfter)
    requires last.balanceAfter == last.balanceBefore + last.amount
    ensures Chained(rs + [last], from)
  {
    var rs' := rs + [last];
    forall k | 0 <= k < |rs'|
      ensures rs'[k].version == from.version + k + 1
      ensures rs'[k].balanceBefore == StartOf(rs', k, from.balance)
      ensures rs'[k].balanceAfter == rs'[k].balanceBefore + rs'[k].amount
    {
      if k < |rs| {
        assert rs'[k] == rs[k];
        if k > 0 { assert rs'[k - 1] == rs[k - 1]; }
        assert StartOf(rs', k, from.balance) == StartOf(rs, k, from.balance);
      } else if k > 0 {
        assert rs'[k - 1] == rs[k - 1];
      }
    }
  }

  /** Along an unbroken replay, the account's rows are `Chained` and the last
      one ends at the replayed state. */
  lemma {:induction false} ReplayChain(txs: seq<TxRecord>, from: Account, a: Account)
    requires Replay(txs, from) == Some(a)
    ensures Chained(Records(txs, from.accountId), from)
    ensures var rs := Records(txs, from.accountId);
      if rs == [] then a == from else a.balance == rs[|rs| - 1].balanceAfter && a.version == rs[|rs| - 1].version
  {
    if txs != [] {
      var init, last := txs[..|txs| - 1], txs[|txs| - 1];
      var cur := Replay(init, from).value;
      assert Replay(txs, from) == Advance(cur, last);
      ReplayChain(init, from, cur);
      ReplayConservation(init, from, cur);
      var rs0 := Records(init, from.accountId);
      if last.accountId == from.accountId {
        assert Records(txs, from.accountId) == rs0 + [last];
        ChainedSnoc(rs0, last, from);
      } else {
        assert a == cur;
        assert Records(txs, from.accountId) == rs0 + [];
        assert rs0 + [] == rs0;
      }
    }
  }

  lemma {:induction false} RecordsMembers(txs: seq<TxRecord>, id: string, x: TxRecord)
    ensures x in Records(txs, id) <==> x in txs && x.accountId == id
  {
    if txs != [] {
      var init, last := txs[..|txs| - 1], txs[|txs| - 1];
      assert txs == init + [last];
      RecordsMembers(init, id, x);
    }
  }

  /** Rows of an auto-increment table carry the ids 1, 2, 3, ... in order. */
  ghost predicate SerialIds(txs: seq<TxRecord>)
  {
    forall i :: 0 <= i < |txs| ==> txs[i].id == i + 1
  }

  /** The rows of one account keep the table's order: their ids ascend. */
  lemma {:induction false} RecordsAscending(txs: seq<TxRecord>, id: string)
    requires SerialIds(txs)
    ensures forall i, j :: 0 <= i < j < |Records(txs, id)| ==> Records(txs, id)[i].id < Records(txs, id)[j].id
    ensures forall x :: x in Records(txs, id) ==> 1 <= x.id <= |txs|
  {
    if txs != [] {
      var init, last := txs[..|txs| - 1], txs[|txs| - 1];
      assert txs == init + [last];
      assert SerialIds(init);
      RecordsAscending(init, id);
    }
  }

  /** At most one audit row per idempotency key. */
  ghost predicate KeysUnique(txs: seq<TxRecord>)
  {
    forall i, j :: 0 <= i < j < |txs| && txs[i].idempotencyKey.Some? ==> txs[i].idempotencyKey != txs[j].idempotencyKey
  }

  /** The constraints the tables keep: primary keys, the non-negative balance
      check, versions from 1, auto-increment ids, the foreign key from audit
      rows to accounts, balanceAfter = balanceBefore + amount, unique keys. */
  ghost predicate WellFormed(s: State)
  {
    && (forall id :: id in s.accounts ==>
          s.accounts[id].accountId == id && s.accounts[id].balance >= 0 && s.accounts[id].version >= 1)
    && SerialIds(s.transactions)
    && (forall i :: 0 <= i < |s.transactions| ==>
          && s.transactions[i].accountId in s.accounts
          && s.transactions[i].balanceBefore >= 0
          && s.transactions[i].balanceAfter == s.transactions[i].balanceBefore + s.transactions[i].amount
          && s.transactions[i].balanceAfter >= 0)
    && KeysUnique(s.transactions)
  }

  /** What the conditional update reports. */
  datatype WriteOutcome = NoRowAffected | KeyTaken | Committed(record: TxRecord)

  datatype Write = Write(outcome: WriteOutcome, after: State)

  /** The conditional update and its audit row, committed together in one
      database transaction. The update matches the account row only if its
      version is still the one read and the new balance stays non-negative;
      then it adds `amount` and bumps the version, and the audit row records
      the balance read, the balance after and the new version. A key already
      held by another row breaks the uniqueness constraint and the whole
      transaction rolls back. */
  function ConditionalWrite(s: State, accountId: string, snap: Account, amount: int, t: TxType, key: Option<string>): Write
  {
    if !(accountId in s.accounts && s.accounts[accountId].version == snap.version
         && s.accounts[accountId].balance + amount >= 0)
    then Write(NoRowAffected, s)
    else if FindByKey(s.transactions, key).Some? then Write(KeyTaken, s)
    else
      var a := s.accounts[accountId];
      var rec := TxRecord(|s.transactions| + 1, accountId, amount, t, snap.balance, snap.balance + amount, snap.version + 1, key);
      Write(Committed(rec),
            State(s.accounts[accountId := a.(balance := a.balance + amount, version := a.version + 1)],
                  s.transactions + [rec]))
  }

  /** Saving an account row: a new id is inserted at version 1; an existing
      id is updated in place, its balance overwritten and its version bumped;
      a negative balance violates the check constraint and nothing is stored. */
  function SaveAccount(s: State, id: string, balance: int): (State, Result<Account>)
  {
    if balance < 0 then (s, Err(NegativeBalance))
    else
      var a := if id in s.accounts then Account(id, balance, s.accounts[id].version + 1) else Account(id, balance, 1);
      (State(s.accounts[id := a], s.transactions), Ok(a))
  }

  /** The conditional write keeps every table constraint, leaves the balance
      non-negative, commits only when the version read is current and the new
      balance is non-negative, and then changes only its own account, by
      exactly `amount` and one version. */
  lemma ConditionalWriteProperties(s: State, accountId: string, snap: Account, amount: int, t: TxType, key: Option<string>)
    requires WellFormed(s)
    requires accountId in s.accounts && s.accounts[accountId].version == snap.version ==> s.accounts[accountId] == snap
    ensures var w := ConditionalWrite(s, accountId, snap, amount, t, key);
      && WellFormed(w.after)
      && (w.outcome.Committed? <==>
            accountId in s.accounts && s.accounts[accountId].version == snap.version
            && snap.balance + amount >= 0 && FindByKey(s.transactions, key).None?)
      && (!w.outcome.Committed? ==> w.after == s)
      && (w.outcome.Committed? ==>
            && w.after.accounts.Keys == s.accounts.Keys
            && w.after.accounts[accountId].balance == s.accounts[accountId].balance + amount
            && w.after.accounts[accountId].version == s.accounts[accountId].version + 1
            && (forall id :: id in s.accounts && id != accountId ==> w.after.accounts[id] == s.accounts[id])
            && w.after.transactions == s.transactions + [w.outcome.record]
            && w.outcome.record.balanceAfter == w.after.accounts[accountId].balance
            && w.outcome.record.version == w.after.accounts[accountId].version)
  {
    var w := ConditionalWrite(s, accountId, snap, amount, t, key);
    if w.outcome.Committed? {
      var txs := w.after.transactions;
      var rec := w.outcome.record;
      assert forall i :: 0 <= i < |s.transactions| ==> txs[i] == s.transactions[i];
      assert txs[|s.transactions|] == rec;
      assert forall i :: 0 <= i < |s.transactions| && key.Some? ==> s.transactions[i].idempotencyKey != key;
    }
  }

  /** Saving an account keeps every table constraint and touches only that row. */
  lemma SaveAccountProperties(s: State, id: string, balance: int)
    requires WellFormed(s)
    ensures var (after, r) := SaveAccount(s, id, balance);
      && WellFormed(after)
      && (r.Err? <==> balance < 0)
      && (r.Err? ==> after == s && r.error == NegativeBalance)
      && (r.Ok? ==>
            && after.accounts == s.accounts[id := r.value]
            && after.transactions == s.transactions
            && r.value.balance == balance
            && r.value.version == (if id in s.accounts then s.accounts[id].version + 1 else 1))
  {
  }

  /** Where the unbroken part of an account's audit chain starts: the position
      in the transaction table and the account state at that point. It starts
      when the account is saved, since saving writes no audit row. */
  datatype Epoch = Epoch(start: nat, balance: int, version: int)

  /** Each account's rows since its epoch form an unbroken chain that ends at
      the account's current row. */
  ghost predicate ChainsIntact(s: State, epochs: map<string, Epoch>)
  {
    forall id :: id in s.accounts ==>
      && id in epochs && epochs[id].start <= |s.transactions|
      && ReplaySpan(s.transactions, epochs[id].start, |s.transactions|, Account(id, epochs[id].balance, epochs[id].version)) == Some(s.accounts[id])
  }

  /** `states` records, for every account, each version it has held with the
      balance it had then; the current row is among them and no version is
      ahead of the current one. */
  ghost predicate StatesSound(s: State, states: map<(string, int), int>)
  {
    && (forall id :: id in s.accounts ==>
          (id, s.accounts[id].version) in states && states[(id, s.accounts[id].version)] == s.accounts[id].balance)
    && (forall k :: k in states ==> k.0 in s.accounts && k.1 <= s.accounts[k.0].version && states[k] >= 0)
  }

  /** Every entry of `m0` is still in `m1` with the same value. */
  ghost predicate Extends(m0: map<(string, int), int>, m1: map<(string, int), int>)
  {
    forall k :: k in m0 ==> k in m1 && m1[k] == m0[k]
  }

  /** The store's invariant: the table constraints, the audit chains from
      their epochs, and the version history. */
  ghost predicate Sound(s: State, epochs: map<string, Epoch>, states: map<(string, int), int>)
  {
    WellFormed(s) && ChainsIntact(s, epochs) && StatesSound(s, states)
  }

  /** Replays rows st, st+1, ..., n-1 of the log in place. */
  function ReplaySpan(txs: seq<TxRecord>, st: nat, n: nat, from: Account): (r: Option<Account>)
    requires st <= n <= |txs|
    decreases n - st
    ensures r.Some? ==> r.value.accountId == from.accountId
  {
    if n == st then Some(from)
    else match ReplaySpan(txs, st, n - 1, from)
      case None => None
      case Some(cur) => Advance(cur, txs[n - 1])
  }

  /** Replaying a span in place is replaying the slice it delimits. */
  lemma {:induction false} SpanIsReplay(txs: seq<TxRecord>, st: nat, n: nat, from: Account)
    requires st <= n <= |txs|
    decreases n - st
    ensures ReplaySpan(txs, st, n, from) == Replay(txs[st..n], from)
  {
    if n > st {
      SpanIsReplay(txs, st, n - 1, from);
      assert txs[st..n][..n - st - 1] == txs[st..n - 1];
      assert txs[st..n][n - st - 1] == txs[n - 1];
    }
  }

  /** Appending a row does not change the replay of a span that ends before it. */
  lemma {:induction false} SpanAppend(txs: seq<TxRecord>, rec: TxRecord, st: nat, n: nat, from: Account)
    requires st <= n <= |txs|
    decreases n - st
    ensures ReplaySpan(txs + [rec], st, n, from) == ReplaySpan(txs, st, n, from)
  {
    if n > st {
      SpanAppend(txs, rec, st, n - 1, from);
      assert (txs + [rec])[n - 1] == txs[n - 1];
    }
  }

  lemma CommitKeepsChains(s: State, epochs: map<string, Epoch>, accountId: string, snap: Account, amount: int, t: TxType, key: Option<string>)
    requires WellFormed(s) && ChainsIntact(s, epochs)
    requires accountId in s.accounts && s.accounts[accountId].version == snap.version ==> s.accounts[accountId] == snap
    ensures ChainsIntact(ConditionalWrite(s, accountId, snap, amount, t, key).after, epochs)
  {
    var w := ConditionalWrite(s, accountId, snap, amount, t, key);
    if w.outcome.Committed? {
      var rec := w.outcome.record;
      var txs := s.transactions;
      assert w.after.transactions == txs + [rec];
      forall id | id in w.after.accounts
        ensures id in epochs && epochs[id].start <= |w.after.transactions|
        ensures ReplaySpan(txs + [rec], epochs[id].start, |txs| + 1, Account(id, epochs[id].balance, epochs[id].version)) == Some(w.after.accounts[id])
      {
        SpanAppend(txs, rec, epochs[id].start, |txs|, Account(id, epochs[id].balance, epochs[id].version));
      }
    }
  }

  /** The audit log accounts for every account: since its last save, its
      balance is the saved balance plus the sum of its recorded amounts, its
      version rose by exactly one per recorded row, and those rows carry the
      versions saved+1, saved+2, ... each starting where the previous ended. */
  lemma ChainsConserve(s: State, epochs: map<string, Epoch>, id: string)
    requires ChainsIntact(s, epochs) && id in s.accounts
    ensures var ep := epochs[id];
      var rs := Records(s.transactions[ep.start..], id);
      && s.accounts[id].balance == ep.balance + SumAmounts(rs)
      && s.accounts[id].version == ep.version + |rs|
      && Chained(rs, Account(id, ep.balance, ep.version))
  {
    var ep := epochs[id];
    var from := Account(id, ep.balance, ep.version);
    SpanIsReplay(s.transactions, ep.start, |s.transactions|, from);
    assert s.transactions[ep.start..|s.transactions|] == s.transactions[ep.start..];
    ReplayConservation(s.transactions[ep.start..], from, s.accounts[id]);
    ReplayChain(s.transactions[ep.start..], from, s.accounts[id]);
  }

  lemma CommitKeepsStates(s: State, states: map<(string, int), int>, accountId: string, snap: Account, amount: int, t: TxType, key: Option<string>)
    requires WellFormed(s) && StatesSound(s, states)
    requires accountId in s.accounts && s.accounts[accountId].version == snap.version ==> s.accounts[accountId] == snap
    ensures var w := ConditionalWrite(s, accountId, snap, amount, t, key);
      w.outcome.Committed? ==>
        var a := w.after.accounts[accountId];
        && (accountId, a.version) !in states
        && StatesSound(w.after, states[(accountId, a.version) := a.balance])
  {
    ConditionalWriteProperties(s, accountId, snap, amount, t, key);
  }

  /** The version history after a conditional write: a commit records the
      balance the new version names. */
  ghost function NextStates(states: map<(string, int), int>, w: (WriteOutcome, State), accountId: string): map<(string, int), int>
  {
    if w.0.Committed? && accountId in w.1.accounts then
      states[(accountId, w.1.accounts[accountId].version) := w.1.accounts[accountId].balance]
    else states
  }

  /** A conditional write keeps the table constraints, the audit chains and
      the version history, which it only extends. */
  lemma CommitKeepsInvariants(s: State, epochs: map<string, Epoch>, states: map<(string, int), int>,
                              accountId: string, snap: Account, amount: int, t: TxType, key: Option<string>)
    requires Sound(s, epochs, states)
    requires accountId in s.accounts && s.accounts[accountId].version == snap.version ==> s.accounts[accountId] == snap
    ensures var w := ConditionalWrite(s, accountId, snap, amount, t, key);
      var st := NextStates(states, (w.outcome, w.after), accountId);
      Sound(w.after, epochs, st) && Extends(states, st)
  {
    var w := ConditionalWrite(s, accountId, snap, amount, t, key);
    ConditionalWriteProperties(s, accountId, snap, amount, t, key);
    CommitKeepsChains(s, epochs, accountId, snap, amount, t, key);
    CommitKeepsStates(s, states, accountId, snap, amount, t, key);
    if !w.outcome.Committed? {
      assert w.after == s;
    }
  }

  lemma SaveKeepsInvariants(s: State, epochs: map<string, Epoch>, states: map<(string, int), int>, id: string, balance: int)
    requires Sound(s, epochs, states)
    requires balance >= 0
    ensures var (after, r) := SaveAccount(s, id, balance);
      && r.Ok? && (id, r.value.version) !in states
      && Sound(after, epochs[id := Epoch(|s.transactions|, balance, r.value.version)], states[(id, r.value.version) := balance])
      && Extends(states, states[(id, r.value.version) := balance])
  {
    var (after, r) := SaveAccount(s, id, balance);
    SaveAccountProperties(s, id, balance);
    assert s.transactions[|s.transactions|..] == [];
  }

  class Store {
    var accounts: map<string, Account>
    var transactions: seq<TxRecord>
    /** Every (account, version) the store has held, with the balance it had
        then: a version names one balance, which is what makes the version a
        sound lock token. */
    ghost var states: map<(string, int), int>
    /** For each account, where its current audit chain starts. */
    ghost var epochs: map<string, Epoch>

    function Current(): State
      reads this
    {
      State(accounts, transactions)
    }

    ghost predicate Valid()
      reads this
    {
      Sound(Current(), epochs, states)
    }

    /** A snapshot of `id` that this store really held at some point. */
    ghost predicate Genuine(id: string, snap: Account)
      reads this
    {
      snap.accountId == id && (id, snap.version) in states && states[(id, snap.version)] == snap.balance
    }

    constructor ()
      ensures Valid()
      ensures accounts == map[] && transactions == []
    {
      accounts, transactions := map[], [];
      states, epochs := map[], map[];
    }

    /** The lock-free read of an account's row. */
    function Read(accountId: string): (r: Option<Account>)
      reads this
      ensures r.Some? <==> accountId in accounts
      ensures r.Some? ==> r.value == accounts[accountId]
      ensures Valid() && r.Some? ==> Genuine(accountId, r.value)
    {
      if accountId in accounts then Some(accounts[accountId]) else None
    }

    /** The database's findOne on the idempotency key. */
    function FindOne(key: Option<string>): Option<TxRecord>
      reads this
    {
      FindByKey(transactions, key)
    }

    /** A genuine snapshot whose version is still current carries the current balance. */
    lemma GenuineCurrent(id: string, snap: Account)
      requires Valid() && Genuine(id, snap)
      ensures id in accounts && accounts[id].version == snap.version ==> accounts[id] == snap
    {
    }

    /** The conditional update with its audit row (see ConditionalWrite). */
    method ConditionalUpdate(accountId: string, snap: Account, amount: int, t: TxType, key: Option<string>)
      returns (w: WriteOutcome)
      requires Valid() && Genuine(accountId, snap)
      modifies this
      ensures Valid()
      ensures Write(w, Current()) == ConditionalWrite(old(Current()), accountId, snap, amount, t, key)
      ensures Extends(old(states), states) && epochs == old(epochs)
    {
      var wr := ConditionalWrite(Current(), accountId, snap, amount, t, key);
      GenuineCurrent(accountId, snap);
      CommitKeepsInvariants(Current(), epochs, states, accountId, snap, amount, t, key);
      // a committed version names the new balance from now on
      states := NextStates(states, (wr.outcome, wr.after), accountId);
      accounts, transactions := wr.after.accounts, wr.after.transactions;
      assert Current() == wr.after;
      w := wr.outcome;
    }

    /** Saving an account row (see SaveAccount). The saved state opens a new audit chain. */
    method Save(id: string, balance: int) returns (r: Result<Account>)
      requires Valid()
      modifies this
      ensures Valid()
      ensures (Current(), r) == SaveAccount(old(Current()), id, balance)
      ensures Extends(old(states), states)
      ensures r.Ok? ==> epochs == old(epochs)[id := Epoch(|transactions|, balance, r.value.version)]
      ensures r.Err? ==> epochs == old(epochs)
    {
      if balance < 0 {
        return Err(NegativeBalance);
      }
      SaveKeepsInvariants(Current(), epochs, states, id, balance);
      var (after, saved) := SaveAccount(Current(), id, balance);
      var a := saved.value;
      states := states[(id, a.version) := balance];
      epochs := epochs[id := Epoch(|transactions|, balance, a.version)];
      accounts := after.accounts;
      assert Current() == after;
      r := saved;
    }
  }
}
