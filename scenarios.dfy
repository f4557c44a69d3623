/** The behaviour the integration suites check, stated about requests served
    one after another. Requests the suites fire at once are placed in some
    order here; a race is the interfering commit placed between one
    request's read and its write. */
module Scenarios {
  import opened Entities
  import opened Store
  import opened Retry
  import opened Executor
  import opened Accounts

  /** The state after a series of requests, and what each one answered. */
  datatype Trace = Trace(after: State, results: seq<Result<Response>>)

  /** Requests to one account, served oldest first. */
  function RunAll(s: State, id: string, dtos: seq<UpdateBalanceDto>): (t: Trace)
    ensures |t.results| == |dtos|
    decreases |dtos|
  {
    if dtos == [] then Trace(s, [])
    else
      var t := RunAll(s, id, dtos[..|dtos| - 1]);
      var o := Update(t.after, id, dtos[|dtos| - 1]);
      Trace(o.after, t.results + [o.result])
  }

  /** How many requests succeeded. */
  function CountOk(rs: seq<Result<Response>>): nat
  {
    if rs == [] then 0 else CountOk(rs[..|rs| - 1]) + (if rs[|rs| - 1].Ok? then 1 else 0)
  }

  lemma CountOkAppend(rs: seq<Result<Response>>, r: Result<Response>)
    ensures CountOk(rs + [r]) == CountOk(rs) + (if r.Ok? then 1 else 0)
  {
    assert (rs + [r])[..|rs|] == rs;
  }

  /** The signed delta of a request. */
  function Delta(d: UpdateBalanceDto): int
  {
    NormalizeAmount(d.amount, d.txType)
  }

  /** The sum of the deltas of the requests that succeeded. */
  function SumOk(dtos: seq<UpdateBalanceDto>, rs: seq<Result<Response>>): int
    requires |dtos| == |rs|
  {
    if dtos == [] then 0
    else SumOk(dtos[..|dtos| - 1], rs[..|rs| - 1]) + (if rs[|rs| - 1].Ok? then Delta(dtos[|dtos| - 1]) else 0)
  }

  /** Requests sent without an idempotency key. */
  ghost predicate Unkeyed(dtos: seq<UpdateBalanceDto>)
  {
    forall i :: 0 <= i < |dtos| ==> dtos[i].idempotencyKey.None?
  }

  /** One unkeyed request: it keeps the table constraints and the set of
      accounts; a success appends one row of this account carrying the
      request's delta and moves only this account, by the delta and one
      version; a failure changes nothing. */
  lemma UnkeyedStep(s: State, id: string, d: UpdateBalanceDto)
    requires WellFormed(s) && id in s.accounts && d.idempotencyKey.None?
    ensures var o := Update(s, id, d);
      && WellFormed(o.after)
      && (o.result.Err? ==> o.after == s)
      && (o.result.Ok? ==>
            && o.after.accounts.Keys == s.accounts.Keys
            && o.after.accounts[id].balance == s.accounts[id].balance + Delta(d)
            && o.after.accounts[id].version == s.accounts[id].version + 1
            && (forall other :: other in s.accounts && other != id ==> o.after.accounts[other] == s.accounts[other])
            && |o.after.transactions| == |s.transactions| + 1
            && o.after.transactions == s.transactions + [o.after.transactions[|s.transactions|]]
            && o.after.transactions[|s.transactions|].accountId == id
            && o.after.transactions[|s.transactions|].amount == Delta(d))
      && (o.result.Ok? <==> s.accounts[id].balance + Delta(d) >= 0)
      && (o.result.Err? ==> o.result == Err(InsufficientFunds))
      && (o.result.Ok? ==> o.result.value == Response(true, |s.transactions| + 1, s.accounts[id].balance + Delta(d),
                                                       s.accounts[id].version + 1, false))
  {
    AttemptProperties(s, id, Delta(d), d.txType, None, 0);
  }

  lemma SliceAppend<T>(xs: seq<T>, x: T, k: nat)
    requires k <= |xs|
    ensures (xs + [x])[k..] == xs[k..] + [x]
    ensures (xs + [x])[..k] == xs[..k]
  {
  }

  /** Appending one row of account `id` to a log that extends `base` with
      rows of `id` only keeps it so. */
  lemma ExtendLog(base: seq<TxRecord>, mid: seq<TxRecord>, rec: TxRecord, id: string)
    requires |base| <= |mid|
    requires Records(mid, id) == Records(base, id) + mid[|base|..]
    requires rec.accountId == id
    ensures Records(mid + [rec], id) == Records(base, id) + (mid + [rec])[|base|..]
  {
    RecordsAppend(mid, rec, id);
    SliceAppend(mid, rec, |base|);
    assert Records(base, id) + mid[|base|..] + [rec] == Records(base, id) + (mid[|base|..] + [rec]);
  }

  /** After any series of unkeyed requests to one account: the table
      constraints hold; the old rows are untouched and every new row belongs
      to that account; there is one new row per success; the balance moved by
      exactly the recorded amounts, which are the deltas of the successful
      requests; the version rose by one per success; no other account
      changed. */
  lemma {:induction false} Conservation(s: State, id: string, dtos: seq<UpdateBalanceDto>)
    requires WellFormed(s) && id in s.accounts && Unkeyed(dtos)
    decreases |dtos|
    ensures var t := RunAll(s, id, dtos);
      var n := |s.transactions|;
      && WellFormed(t.after)
      && n <= |t.after.transactions|
      && t.after.transactions[..n] == s.transactions
      && Records(t.after.transactions, id) == Records(s.transactions, id) + t.after.transactions[n..]
      && |t.after.transactions| - n == CountOk(t.results)
      && t.after.accounts.Keys == s.accounts.Keys
      && t.after.accounts[id].balance == s.accounts[id].balance + SumAmounts(t.after.transactions[n..])
      && t.after.accounts[id].balance == s.accounts[id].balance + SumOk(dtos, t.results)
      && t.after.accounts[id].version == s.accounts[id].version + CountOk(t.results)
      && (forall other :: other in s.accounts && other != id ==> t.after.accounts[other] == s.accounts[other])
  {
    var n := |s.transactions|;
    if dtos == [] {
      assert s.transactions[n..] == [];
    } else {
      var init, d := dtos[..|dtos| - 1], dtos[|dtos| - 1];
      assert Unkeyed(init);
      Conservation(s, id, init);
      var t0 := RunAll(s, id, init);
      var mid := t0.after;
      var o := Update(mid, id, d);
      var t := RunAll(s, id, dtos);
      assert t == Trace(o.after, t0.results + [o.result]);
      UnkeyedStep(mid, id, d);
      assert t.results[..|t.results| - 1] == t0.results;
      if o.result.Ok? {
        var rec := o.after.transactions[|mid.transactions|];
        ExtendLog(s.transactions, mid.transactions, rec, id);
        SliceAppend(mid.transactions, rec, n);
        SumAmountsAppend(mid.transactions[n..], rec);
      }
    }
  }

  /** An account created without history: its history holds one row per
      successful request, its balance is the opening balance plus the
      recorded amounts (the successful deltas), and its version is 1 plus the
      number of successes. */
  lemma FreshAccountHistory(s: State, id: string, balance: int, dtos: seq<UpdateBalanceDto>)
    requires WellFormed(s) && id !in s.accounts && balance >= 0 && Unkeyed(dtos)
    ensures var s1 := SaveAccount(s, id, balance).0;
      var t := RunAll(s1, id, dtos);
      var h := Records(t.after.transactions, id);
      && id in t.after.accounts
      && |h| == CountOk(t.results)
      && t.after.accounts[id].balance == balance + SumAmounts(h)
      && t.after.accounts[id].balance == balance + SumOk(dtos, t.results)
      && t.after.accounts[id].version == 1 + CountOk(t.results)
  {
    SaveAccountProperties(s, id, balance);
    var s1 := SaveAccount(s, id, balance).0;
    if Records(s1.transactions, id) != [] {
      var x := Records(s1.transactions, id)[0];
      RecordsMembers(s1.transactions, id, x);
      assert false;
    }
    Conservation(s1, id, dtos);
    var t := RunAll(s1, id, dtos);
    var added := t.after.transactions[|s1.transactions|..];
    assert Records(t.after.transactions, id) == [] + added == added;
  }

  /** `n` unkeyed withdrawals of the same amount. */
  function Withdrawals(n: nat, w: int): (r: seq<UpdateBalanceDto>)
    ensures |r| == n
  {
    seq(n, _ => UpdateBalanceDto(w, Withdraw, None))
  }

  function Min(a: int, b: int): int
  {
    if a <= b then a else b
  }

  /** The arithmetic of one more withdrawal of `w` from an account that
      opened at `b` and has already had the first `Min(m, b / w)` succeed. */
  lemma DrainArith(b: int, w: int, m: nat, cur: int)
    requires b >= 0 && w > 0 && cur == b - Min(m, b / w) * w
    ensures cur - w >= 0 <==> m < b / w
    ensures m < b / w ==> cur - w == b - (m + 1) * w && Min(m + 1, b / w) == m + 1
    ensures m >= b / w ==> Min(m + 1, b / w) == Min(m, b / w)
  {
    assert b == (b / w) * w + b % w;
    if m < b / w {
      MulMonotone(m + 1, b / w, w);
    }
  }

  /** What the i-th of a series of withdrawals of `w` answers, from an
      account at balance `b` and version `v`, with `n` rows already logged. */
  function DrainAnswer(b: int, v: int, n: nat, w: int, i: nat): Result<Response>
    requires w > 0
  {
    if i < b / w then Ok(Response(true, n + i + 1, b - (i + 1) * w, v + i + 1, false))
    else Err(InsufficientFunds)
  }

  /** One more withdrawal of `w` after the first `m` of a drain. */
  lemma DrainUpdate(a: Account, n0: nat, w: int, m: nat, mid: State, id: string)
    requires w > 0 && a.balance >= 0 && WellFormed(mid) && id in mid.accounts
    requires mid.accounts[id].balance == a.balance - Min(m, a.balance / w) * w
    requires mid.accounts[id].version == a.version + Min(m, a.balance / w)
    requires |mid.transactions| == n0 + Min(m, a.balance / w)
    ensures var o := Update(mid, id, UpdateBalanceDto(w, Withdraw, None));
      && WellFormed(o.after)
      && id in o.after.accounts
      && o.after.accounts[id].balance == a.balance - Min(m + 1, a.balance / w) * w
      && o.after.accounts[id].version == a.version + Min(m + 1, a.balance / w)
      && |o.after.transactions| == n0 + Min(m + 1, a.balance / w)
      && o.result == DrainAnswer(a.balance, a.version, n0, w, m)
  {
    UnkeyedStep(mid, id, UpdateBalanceDto(w, Withdraw, None));
    DrainArith(a.balance, w, m, mid.accounts[id].balance);
  }

  /** The n-th withdrawal of a drain, from the state the first n - 1 left. */
  lemma DrainStep(s: State, id: string, n: nat, w: int)
    requires WellFormed(s) && id in s.accounts && w > 0 && n > 0
    requires var a := s.accounts[id];
      var t0 := RunAll(s, id, Withdrawals(n - 1, w));
      var k := Min(n - 1, a.balance / w);
      && WellFormed(t0.after) && id in t0.after.accounts
      && t0.after.accounts[id].balance == a.balance - k * w
      && t0.after.accounts[id].version == a.version + k
      && |t0.after.transactions| == |s.transactions| + k
    ensures var a := s.accounts[id];
      var t0 := RunAll(s, id, Withdrawals(n - 1, w));
      var t := RunAll(s, id, Withdrawals(n, w));
      var k := Min(n, a.balance / w);
      && WellFormed(t.after) && id in t.after.accounts
      && t.after.accounts[id].balance == a.balance - k * w
      && t.after.accounts[id].version == a.version + k
      && |t.after.transactions| == |s.transactions| + k
      && t.results == t0.results + [DrainAnswer(a.balance, a.version, |s.transactions|, w, n - 1)]
      && k == Min(n - 1, a.balance / w) + (if n - 1 < a.balance / w then 1 else 0)
      && CountOk(t.results) == CountOk(t0.results) + (if n - 1 < a.balance / w then 1 else 0)
  {
    var a := s.accounts[id];
    var t0 := RunAll(s, id, Withdrawals(n - 1, w));
    assert Withdrawals(n, w)[..n - 1] == Withdrawals(n - 1, w);
    assert Withdrawals(n, w)[n - 1] == UpdateBalanceDto(w, Withdraw, None);
    DrainUpdate(a, |s.transactions|, w, n - 1, t0.after, id);
    DrainArith(a.balance, w, n - 1, t0.after.accounts[id].balance);
    CountOkAppend(t0.results, DrainAnswer(a.balance, a.version, |s.transactions|, w, n - 1));
  }

  /** Draining an account: after `n` withdrawals of `w`, the first
      balance / w of them have succeeded, and the balance is `w` times the
      number of successes lower, never below zero, with one version and one
      row more per success. */
  lemma {:induction false} DrainState(s: State, id: string, n: nat, w: int)
    requires WellFormed(s) && id in s.accounts && w > 0
    ensures var a := s.accounts[id];
      var t := RunAll(s, id, Withdrawals(n, w));
      var k := Min(n, a.balance / w);
      && WellFormed(t.after)
      && CountOk(t.results) == k
      && id in t.after.accounts
      && t.after.accounts[id].balance == a.balance - k * w
      && t.after.accounts[id].version == a.version + k
      && |t.after.transactions| == |s.transactions| + k
  {
    var a := s.accounts[id];
    if n > 0 {
      DrainState(s, id, n - 1, w);
      DrainStep(s, id, n, w);
    } else {
      assert Withdrawals(0, w) == [];
      assert a.balance >= 0;
      assert Min(0, a.balance / w) == 0;
    }
  }

  /** Draining an account: of `n` withdrawals of `w`, the first
      balance / w succeed, each leaving `w` less and one version more, and
      every later one is refused for insufficient funds. */
  lemma {:induction false} Drain(s: State, id: string, n: nat, w: int)
    requires WellFormed(s) && id in s.accounts && w > 0
    ensures var a := s.accounts[id];
      var t := RunAll(s, id, Withdrawals(n, w));
      forall i :: 0 <= i < n ==> t.results[i] == DrainAnswer(a.balance, a.version, |s.transactions|, w, i)
  {
    var a := s.accounts[id];
    if n > 0 {
      Drain(s, id, n - 1, w);
      DrainState(s, id, n - 1, w);
      var t0 := RunAll(s, id, Withdrawals(n - 1, w));
      var t := RunAll(s, id, Withdrawals(n, w));
      DrainStep(s, id, n, w);
      forall i | 0 <= i < n
        ensures t.results[i] == DrainAnswer(a.balance, a.version, |s.transactions|, w, i)
      {
        if i < n - 1 {
          assert t.results[i] == t0.results[i];
        }
      }
    }
  }

  /** The suite's hundred withdrawals of 5 from 500: all succeed and the
      account ends at 0 with a hundred new rows. */
  lemma HundredWithdrawalsOfFive(s: State, id: string)
    requires WellFormed(s) && id in s.accounts && s.accounts[id].balance == 500
    ensures var t := RunAll(s, id, Withdrawals(100, 5));
      && CountOk(t.results) == 100
      && (forall i :: 0 <= i < 100 ==> t.results[i].Ok?)
      && t.after.accounts[id].balance == 0
      && |t.after.transactions| == |s.transactions| + 100
  {
    DrainState(s, id, 100, 5);
    Drain(s, id, 100, 5);
  }

  /** The suite's overdraft check, ten withdrawals of 20 from 100: exactly
      five succeed, the other five are refused for insufficient funds, and the
      balance ends at 0. */
  lemma OverdraftPrevented(s: State, id: string)
    requires WellFormed(s) && id in s.accounts && s.accounts[id].balance == 100
    ensures var t := RunAll(s, id, Withdrawals(10, 20));
      && CountOk(t.results) == 5
      && (forall i :: 0 <= i < 10 ==> (t.results[i].Ok? <==> i < 5))
      && (forall i :: 5 <= i < 10 ==> t.results[i] == Err(InsufficientFunds))
      && t.after.accounts[id].balance == 0
  {
    DrainState(s, id, 10, 20);
    Drain(s, id, 10, 20);
  }

  /** Withdrawing exactly the balance succeeds and leaves 0; after that any
      positive withdrawal is refused for insufficient funds and changes
      nothing. */
  lemma ExactWithdrawalEmptiesAccount(s: State, id: string)
    requires WellFormed(s) && id in s.accounts
    ensures var o := Update(s, id, UpdateBalanceDto(s.accounts[id].balance, Withdraw, None));
      && o.result.Ok? && o.result.value.balanceAfter == 0
      && o.after.accounts[id].balance == 0
      && (forall w :: w > 0 ==> Update(o.after, id, UpdateBalanceDto(w, Withdraw, None)) == Outcome(o.after, Err(InsufficientFunds)))
  {
    var b := s.accounts[id].balance;
    AttemptProperties(s, id, -b, Withdraw, None, 0);
    var o := Update(s, id, UpdateBalanceDto(b, Withdraw, None));
    forall w | w > 0
      ensures Update(o.after, id, UpdateBalanceDto(w, Withdraw, None)) == Outcome(o.after, Err(InsufficientFunds))
    {
      AttemptProperties(o.after, id, -w, Withdraw, None, 0);
    }
  }

  /** `n` copies of one request. */
  function Repeat(d: UpdateBalanceDto, n: nat): (r: seq<UpdateBalanceDto>)
    ensures |r| == n
  {
    seq(n, _ => d)
  }

  /** The same keyed request sent any number of times: exactly one row is
      written and the balance moves once, and every copy answers exactly what
      the first one did. */
  lemma {:induction false} RepeatedKeyWritesOnce(s: State, id: string, d: UpdateBalanceDto, n: nat)
    requires WellFormed(s) && id in s.accounts && n >= 1
    requires d.idempotencyKey.Some? && FindByKey(s.transactions, d.idempotencyKey).None?
    requires s.accounts[id].balance + Delta(d) >= 0
    ensures var t := RunAll(s, id, Repeat(d, n));
      var o := Update(s, id, d);
      && t.after == o.after
      && |t.after.transactions| == |s.transactions| + 1
      && t.after.accounts[id].balance == s.accounts[id].balance + Delta(d)
      && o.result.Ok?
      && (forall i :: 0 <= i < n ==> t.results[i] == o.result)
  {
    var o := Update(s, id, d);
    AttemptProperties(s, id, Delta(d), d.txType, d.idempotencyKey, 0);
    var t := RunAll(s, id, Repeat(d, n));
    assert Repeat(d, n)[..n - 1] == Repeat(d, n - 1);
    assert Repeat(d, n)[n - 1] == d;
    if n == 1 {
      assert Repeat(d, 0) == [];
    } else {
      RepeatedKeyWritesOnce(s, id, d, n - 1);
      var t0 := RunAll(s, id, Repeat(d, n - 1));
      var k := d.idempotencyKey.value;
      ReplayIsIdempotent(s, id, Delta(d), d.txType, k, 0, o.after, id, Delta(d), d.txType, 0);
      AttemptProperties(o.after, id, Delta(d), d.txType, d.idempotencyKey, 0);
      assert t == Trace(Update(o.after, id, d).after, t0.results + [Update(o.after, id, d).result]);
      forall i | 0 <= i < n
        ensures t.results[i] == o.result
      {
        if i < n - 1 {
          assert t.results[i] == t0.results[i];
        }
      }
    }
  }

  /** A request to an account that does not exist throws AccountNotFound
      after a single call and changes nothing. */
  lemma MissingAccountFailsOnce(s: State, id: string, d: UpdateBalanceDto, random: nat -> real)
    requires WellFormed(s) && id !in s.accounts && FindByKey(s.transactions, d.idempotencyKey).None?
    ensures Run(AttemptResults(s, id, Delta(d), d.txType, d.idempotencyKey), DefaultConfig, random)
            == RetryRun(Err(AccountNotFound(id)), 1, [], None)
    ensures Update(s, id, d).after == s
  {
    SequentialRunIsOneAttempt(s, id, Delta(d), d.txType, d.idempotencyKey, random);
    AttemptProperties(s, id, Delta(d), d.txType, d.idempotencyKey, 0);
  }

  /** The suite's version check: an account opened with 100, then a deposit
      of 10 and a withdrawal of 5, ends at balance 105 and version 3; its two
      rows carry versions 2 and 3, and the history lists the withdrawal
      first. */
  lemma VersionTracking(id: string)
    ensures var s1 := SaveAccount(State(map[], []), id, 100).0;
      var o1 := Update(s1, id, UpdateBalanceDto(10, Deposit, None));
      var o2 := Update(o1.after, id, UpdateBalanceDto(5, Withdraw, None));
      && o1.result == Ok(Response(true, 1, 110, 2, false))
      && o2.after.accounts[id] == Account(id, 105, 3)
      && Records(o2.after.transactions, id)
         == [TxRecord(1, id, 10, Deposit, 100, 110, 2, None), TxRecord(2, id, -5, Withdraw, 110, 105, 3, None)]
      && Reverse(Records(o2.after.transactions, id))[0].txType == Withdraw
  {
    var s0 := State(map[], []);
    SaveAccountProperties(s0, id, 100);
    var s1 := State(map[id := Account(id, 100, 1)], []);
    assert SaveAccount(s0, id, 100).0 == s1;
    var r1 := TxRecord(1, id, 10, Deposit, 100, 110, 2, None);
    var r2 := TxRecord(2, id, -5, Withdraw, 110, 105, 3, None);
    var s2 := State(map[id := Account(id, 110, 2)], [r1]);
    var s3 := State(map[id := Account(id, 105, 3)], [r1, r2]);
    FirstUpdate(s1, id, r1);
    SecondUpdate(s2, id, r1, r2);
    assert [r1] + [r2] == [r1, r2];
    RecordsAppend([r1], r2, id);
    assert [] + [r1] == [r1];
    RecordsAppend([], r1, id);
  }

  lemma FirstUpdate(s1: State, id: string, r1: TxRecord)
    requires s1 == State(map[id := Account(id, 100, 1)], [])
    requires r1 == TxRecord(1, id, 10, Deposit, 100, 110, 2, None)
    ensures Update(s1, id, UpdateBalanceDto(10, Deposit, None))
         == Outcome(State(map[id := Account(id, 110, 2)], [r1]), Ok(Response(true, 1, 110, 2, false)))
  {
    AttemptProperties(s1, id, 10, Deposit, None, 0);
    assert s1.accounts[id := Account(id, 110, 2)] == map[id := Account(id, 110, 2)];
    assert [] + [r1] == [r1];
  }

  lemma SecondUpdate(s2: State, id: string, r1: TxRecord, r2: TxRecord)
    requires r1 == TxRecord(1, id, 10, Deposit, 100, 110, 2, None)
    requires s2 == State(map[id := Account(id, 110, 2)], [r1])
    requires r2 == TxRecord(2, id, -5, Withdraw, 110, 105, 3, None)
    ensures Update(s2, id, UpdateBalanceDto(5, Withdraw, None)).after == State(map[id := Account(id, 105, 3)], [r1, r2])
  {
    assert WellFormed(s2);
    AttemptProperties(s2, id, -5, Withdraw, None, 0);
    assert s2.accounts[id := Account(id, 105, 3)] == map[id := Account(id, 105, 3)];
    assert [r1] + [r2] == [r1, r2];
  }

  /** A lost race and its retry: request 2 reads the account, request 1
      commits in between, and request 2's write then finds the version moved
      and throws a version conflict, writing nothing; the coordinator retries,
      the second attempt reads afresh and commits on top of request 1, and
      the response is marked as retried. */
  lemma RaceThenRetry(s: State, id: string, d1: UpdateBalanceDto, d2: UpdateBalanceDto, random: nat -> real)
    requires WellFormed(s) && id in s.accounts
    requires d1.idempotencyKey.None? && d2.idempotencyKey.None?
    requires s.accounts[id].balance + Delta(d1) >= 0 && s.accounts[id].balance + Delta(d2) >= 0
    requires s.accounts[id].balance + Delta(d1) + Delta(d2) >= 0
    ensures var a := s.accounts[id];
      var o1 := Update(s, id, d1);
      var stale := WriteStep(o1.after, id, a, Delta(d2), d2.txType, None, 0);
      var op := (i: nat) => if i == 0 then stale.result else Attempt(o1.after, id, Delta(d2), d2.txType, None, i).result;
      var run := Run(op, DefaultConfig, random);
      && stale == Outcome(o1.after, Err(VersionConflict))
      && run.calls == 2 && run.exceeded.None?
      && run.retried == [Notice(1, CalculateDelay(0, DefaultConfig, random(0)), VersionConflict)]
      && run.result.Ok? && run.result.value.wasRetried
      && run.result.value.balanceAfter == a.balance + Delta(d1) + Delta(d2)
      && run.result.value.version == a.version + 2
  {
    RaceStates(s, id, d1, d2);
  }

  /** The race's three steps on the tables: request 1 commits, request 2's
      stale write conflicts and writes nothing, request 2's retry commits on
      top. */
  lemma RaceStates(s: State, id: string, d1: UpdateBalanceDto, d2: UpdateBalanceDto)
    requires WellFormed(s) && id in s.accounts
    requires d1.idempotencyKey.None? && d2.idempotencyKey.None?
    requires s.accounts[id].balance + Delta(d1) >= 0 && s.accounts[id].balance + Delta(d2) >= 0
    requires s.accounts[id].balance + Delta(d1) + Delta(d2) >= 0
    ensures var a := s.accounts[id];
      var o1 := Attempt(s, id, Delta(d1), d1.txType, None, 0);
      var stale := WriteStep(o1.after, id, a, Delta(d2), d2.txType, None, 0);
      var o2 := Attempt(o1.after, id, Delta(d2), d2.txType, None, 1);
      && WellFormed(o1.after) && WellFormed(o2.after)
      && o1.result.Ok? && o1.result.value.balanceAfter == a.balance + Delta(d1)
      && stale == Outcome(o1.after, Err(VersionConflict))
      && o2.result.Ok? && o2.result.value.wasRetried
      && o2.result.value.balanceAfter == a.balance + Delta(d1) + Delta(d2)
      && o2.result.value.version == a.version + 2
      && id in o2.after.accounts && o2.after.accounts[id].balance == o2.result.value.balanceAfter
      && o2.after.accounts[id].version == a.version + 2
      && |o2.after.transactions| == |s.transactions| + 2
  {
    var a := s.accounts[id];
    AttemptProperties(s, id, Delta(d1), d1.txType, None, 0);
    var o1 := Attempt(s, id, Delta(d1), d1.txType, None, 0);
    WriteStepProperties(o1.after, id, a, Delta(d2), d2.txType, None, 0);
    AttemptProperties(o1.after, id, Delta(d2), d2.txType, None, 1);
  }

  /** The same race played on the store itself: the read phase of request 2,
      then request 1 as a whole attempt, then request 2's write phase against
      its now stale snapshot, then request 2's retry. */
  method LostRace(store: Store, id: string, d1: UpdateBalanceDto, d2: UpdateBalanceDto)
    returns (first: Result<Response>, conflict: Result<Response>, retry: Result<Response>)
    requires store.Valid() && id in store.accounts
    requires d1.idempotencyKey.None? && d2.idempotencyKey.None?
    requires store.accounts[id].balance + Delta(d1) >= 0 && store.accounts[id].balance + Delta(d2) >= 0
    requires store.accounts[id].balance + Delta(d1) + Delta(d2) >= 0
    modifies store
    ensures store.Valid()
    ensures first.Ok? && first.value.balanceAfter == old(store.accounts[id].balance) + Delta(d1)
    ensures conflict == Err(VersionConflict)
    ensures retry.Ok? && retry.value.wasRetried
    ensures retry.value.balanceAfter == old(store.accounts[id].balance) + Delta(d1) + Delta(d2)
    ensures id in store.accounts
    ensures store.accounts[id].balance == retry.value.balanceAfter
    ensures store.accounts[id].version == old(store.accounts[id].version) + 2
    ensures |store.transactions| == old(|store.transactions|) + 2
  {
    ghost var s0 := store.Current();
    RaceStates(s0, id, d1, d2);
    var p := ReadPhase(store, id, None);
    var snap := p.account;
    first := ExecuteTransaction(store, id, Delta(d1), d1.txType, None, 0);
    ghost var s1 := store.Current();
    assert s1 == Attempt(s0, id, Delta(d1), d1.txType, None, 0).after;
    conflict := WritePhase(store, id, snap, Delta(d2), d2.txType, None, 0);
    assert store.Current() == s1;
    retry := ExecuteTransaction(store, id, Delta(d2), d2.txType, None, 1);
  }
}
