/** The serializable retry loop (internal/infra/persistence/transaction_manager.go).

    What the database does in attempt `i` is entry `i` of a parameter, and so is the number the
    random source draws, which is reduced to the range asked for.
    The loop logs what it does to the connection, and the contract reads that log. */
module Transactions {
  import opened Domain

  const MAX_RETRIES: nat := 5
  const BASE_DELAY: int := 10 * MILLISECOND
  const MAX_DELAY: int := 250 * MILLISECOND

  /** How an attempt ends; `serialization` says whether the error carries code 40001. */
  datatype Attempt =
    | BeginFails
    | FnFails(serialization: bool)
    | CommitFails(serialization: bool)
    | Commits

  datatype TxError = BeginError | CommitError | FnError | RetriesExhausted

  datatype Event =
    | Begun(attempt: nat)
    | Committed(attempt: nat)
    | RolledBack(attempt: nat)
    | Slept(duration: int)

  predicate Retryable(a: Attempt) {
    (a.FnFails? || a.CommitFails?) && a.serialization
  }

  /** What a log amounts to: the attempts begun and neither committed nor rolled back, the
      attempts committed, how many were begun, and the time slept. */
  datatype Ledger = Ledger(open: set<nat>, committed: seq<nat>, begun: nat, slept: int)

  const EMPTY_LEDGER := Ledger({}, [], 0, 0)

  function Post(l: Ledger, e: Event): Ledger {
    match e
    case Begun(i) => l.(open := l.open + {i}, begun := l.begun + 1)
    case Committed(i) => l.(open := l.open - {i}, committed := l.committed + [i])
    case RolledBack(i) => l.(open := l.open - {i})
    case Slept(d) => l.(slept := l.slept + d)
  }

  function Audit(log: seq<Event>): Ledger {
    if log == [] then EMPTY_LEDGER else Post(Audit(log[..|log| - 1]), log[|log| - 1])
  }

  lemma Appended(log: seq<Event>, e: Event)
    ensures Audit(log + [e]) == Post(Audit(log), e)
  {
    assert (log + [e])[..|log + [e]| - 1] == log;
  }

  function Pow2(i: nat): nat {
    if i == 0 then 1 else 2 * Pow2(i - 1)
  }

  /** The delay before the jitter, after attempt `i` failed. */
  function Backoff(i: nat): int {
    var delay := BASE_DELAY * Pow2(i);
    if delay > MAX_DELAY then MAX_DELAY else delay
  }

  function BackoffSum(n: nat): int {
    if n == 0 then 0 else BackoffSum(n - 1) + Backoff(n - 1)
  }

  lemma BackoffValues()
    ensures Backoff(0) == 10 * MILLISECOND && Backoff(1) == 20 * MILLISECOND && Backoff(2) == 40 * MILLISECOND
    ensures Backoff(3) == 80 * MILLISECOND && Backoff(4) == 160 * MILLISECOND
    ensures BackoffSum(5) == 310 * MILLISECOND
  {
    assert Pow2(1) == 2 && Pow2(2) == 4 && Pow2(3) == 8 && Pow2(4) == 16;
    assert BackoffSum(1) == Backoff(0) && BackoffSum(2) == Backoff(0) + Backoff(1);
    assert BackoffSum(3) == BackoffSum(2) + Backoff(2) && BackoffSum(4) == BackoffSum(3) + Backoff(3);
  }

  lemma BackoffBounds(i: nat)
    requires i < MAX_RETRIES
    ensures 10 * MILLISECOND <= Backoff(i)
    ensures BackoffSum(i + 1) <= 310 * MILLISECOND
  {
    BackoffValues();
    assert i == 0 || i == 1 || i == 2 || i == 3 || i == 4;
    assert BackoffSum(5) == BackoffSum(4) + Backoff(4) && BackoffSum(4) == BackoffSum(3) + Backoff(3);
    assert BackoffSum(3) == BackoffSum(2) + Backoff(2) && BackoffSum(2) == BackoffSum(1) + Backoff(1);
  }

  /** After `i` failures the time slept is at least the sum of the bare delays and at most 11/10 of it. */
  predicate SleptWithin(i: nat, slept: int) {
    BackoffSum(i) <= slept && 10 * slept <= 11 * BackoffSum(i) && 0 <= slept < 341 * MILLISECOND
  }

  lemma SleepBounds(i: nat, slept: int, delay: int)
    requires i < MAX_RETRIES && SleptWithin(i, slept) && DelayOk(i, delay)
    ensures SleptWithin(i + 1, slept + delay)
  {
    BackoffBounds(i);
  }

  /** The log tells what became of the first `n` attempts: which began a transaction, which committed it, and
      which rolled it back. */
  ghost predicate Matches(log: seq<Event>, db: seq<Attempt>, n: nat)
    requires n <= |db|
  {
    forall i: nat ::
      && (Begun(i) in log <==> i < n && !db[i].BeginFails?)
      && (Committed(i) in log <==> i < n && db[i] == Commits)
      && (RolledBack(i) in log <==> i < n && (db[i].FnFails? || db[i].CommitFails?))
  }

  lemma AttemptMatches(log: seq<Event>, db: seq<Attempt>, n: nat)
    requires n < |db| && Matches(log, db, n)
    ensures Matches(log + EventsOf(n, db[n]), db, n + 1)
  {
    var log' := log + EventsOf(n, db[n]);
    forall e ensures e in log' <==> e in log || e in EventsOf(n, db[n]) {}
  }

  lemma SleepMatches(log: seq<Event>, db: seq<Attempt>, n: nat, d: int)
    requires n <= |db| && Matches(log, db, n)
    ensures Matches(log + [Slept(d)], db, n)
  {
  }

  /** What an attempt does to the connection: every transaction begun is ended once, and committed exactly when
      the attempt commits. */
  function EventsOf(i: nat, outcome: Attempt): seq<Event> {
    match outcome
    case BeginFails => []
    case Commits => [Begun(i), Committed(i)]
    case _ => [Begun(i), RolledBack(i)]
  }

  /** The delay after attempt `i` is its backoff and a jitter below a tenth of it. */
  predicate DelayOk(i: nat, delay: int) { Backoff(i) <= delay && 10 * delay < 11 * Backoff(i) }

  /** What the loop does in its first `n` attempts, sleeping `delays[i]` after attempt `i` if it retries. */
  function Trace(db: seq<Attempt>, delays: seq<int>, n: nat): seq<Event>
    requires n <= |db| == |delays|
  {
    if n == 0 then []
    else
      Trace(db, delays, n - 1) + EventsOf(n - 1, db[n - 1])
        + if Retryable(db[n - 1]) then [Slept(delays[n - 1])] else []
  }

  lemma AttemptLedger(log: seq<Event>, i: nat, outcome: Attempt)
    requires i !in Audit(log).open
    ensures Audit(log + EventsOf(i, outcome)) == Audit(log).(
      begun := Audit(log).begun + (if outcome.BeginFails? then 0 else 1),
      committed := Audit(log).committed + (if outcome == Commits then [i] else []))
  {
    if outcome.BeginFails? {
      assert log + [] == log;
    } else {
      var second := if outcome.Commits? then Committed(i) else RolledBack(i);
      Appended(log, Begun(i));
      Appended(log + [Begun(i)], second);
      assert log + EventsOf(i, outcome) == log + [Begun(i)] + [second];
    }
  }

  /** As long as every attempt is retried nothing is committed or left open, and the time slept is within
      bounds. */
  lemma {:induction false} RetriedLedger(db: seq<Attempt>, delays: seq<int>, n: nat)
    requires n <= |db| == |delays| == MAX_RETRIES
    requires forall i :: 0 <= i < n ==> Retryable(db[i]) && DelayOk(i, delays[i])
    ensures
      var log := Trace(db, delays, n);
      && Audit(log) == Ledger({}, [], n, Audit(log).slept) && SleptWithin(n, Audit(log).slept) && Matches(log, db, n)
    decreases n
  {
    if n > 0 {
      RetriedLedger(db, delays, n - 1);
      var before := Trace(db, delays, n - 1);
      var after := before + EventsOf(n - 1, db[n - 1]);
      AttemptLedger(before, n - 1, db[n - 1]);
      AttemptMatches(before, db, n - 1);
      Appended(after, Slept(delays[n - 1]));
      SleepMatches(after, db, n, delays[n - 1]);
      SleepBounds(n - 1, Audit(before).slept, delays[n - 1]);
    }
  }

  /** The last attempt, if it is not retried, is committed or leaves nothing behind. */
  lemma LastLedger(db: seq<Attempt>, delays: seq<int>, n: nat)
    requires 1 <= n <= |db| == |delays| == MAX_RETRIES && !Retryable(db[n - 1])
    requires forall i :: 0 <= i < n - 1 ==> Retryable(db[i]) && DelayOk(i, delays[i])
    ensures
      var log := Trace(db, delays, n);
      && Audit(log).open == {} && Audit(log).begun <= n && SleptWithin(n - 1, Audit(log).slept) && Matches(log, db, n)
      && Audit(log).committed == if db[n - 1] == Commits then [n - 1] else []
  {
    RetriedLedger(db, delays, n - 1);
    var before := Trace(db, delays, n - 1);
    AttemptLedger(before, n - 1, db[n - 1]);
    AttemptMatches(before, db, n - 1);
    assert before + EventsOf(n - 1, db[n - 1]) + [] == before + EventsOf(n - 1, db[n - 1]);
  }

  /** Only a failure with code 40001, in the function or at commit, is retried. */
  lemma RetriedIff(outcome: Attempt)
    ensures Retryable(outcome) <==> outcome in {FnFails(true), CommitFails(true)}
  {
  }

  /** What a caller is told when the last attempt ends so. */
  function ErrorOf(outcome: Attempt): TxError
    requires outcome != Commits
  {
    match outcome
    case BeginFails => BeginError
    case FnFails(serialization) => if serialization then RetriesExhausted else FnError
    case CommitFails(serialization) => if serialization then RetriesExhausted else CommitError
  }

  /** `attempts` is the number of attempts made and `delays[i]` the sleep after attempt `i`.  For every
      behaviour of the database: at most five attempts run and each but the last failed with 40001; the call
      succeeds exactly when the last attempt committed, and no other attempt commits; nothing begun is
      left open; and the loop backs off after each 40001, for less than 341 ms in all, with every
      argument to the random source positive. */
  method ExecuteInTransaction<T>(db: seq<Attempt>, value: seq<T>, random: seq<nat>)
    returns (result: Result<T, TxError>, log: seq<Event>, attempts: nat, delays: seq<int>)
    requires |db| == |value| == |random| == MAX_RETRIES
    ensures 1 <= attempts <= MAX_RETRIES && Audit(log).begun <= attempts
    ensures forall i :: 0 <= i < attempts - 1 ==> Retryable(db[i])
    ensures attempts < MAX_RETRIES ==> !Retryable(db[attempts - 1])
    ensures result == if db[attempts - 1] == Commits then Ok(value[attempts - 1]) else Err(ErrorOf(db[attempts - 1]))
    ensures result == Err(BeginError) <==> db[attempts - 1] == BeginFails
    ensures result == Err(FnError) <==> db[attempts - 1] == FnFails(false)
    ensures result == Err(CommitError) <==> db[attempts - 1] == CommitFails(false)
    ensures Audit(log).committed == if result.Ok? then [attempts - 1] else []
    ensures result == Err(RetriesExhausted) <==> forall i :: 0 <= i < MAX_RETRIES ==> Retryable(db[i])
    ensures Audit(log).open == {}
    ensures |delays| == MAX_RETRIES && log == Trace(db, delays, attempts) && Matches(log, db, attempts)
    ensures Audit(log).slept < 341 * MILLISECOND
    ensures SleptWithin(if Retryable(db[attempts - 1]) then attempts else attempts - 1, Audit(log).slept)
  {
    var last;
    last, log, attempts, delays := Retry(db, random);
    if Retryable(db[attempts - 1]) {
      RetriedLedger(db, delays, attempts);
    } else {
      LastLedger(db, delays, attempts);
    }
    result := if last.Ok? then Ok(value[attempts - 1]) else Err(last.error);
  }

  /** The loop: it stops after the first attempt that need not be retried, or after the fifth. */
  method Retry(db: seq<Attempt>, random: seq<nat>)
    returns (last: Result<(), TxError>, log: seq<Event>, attempts: nat, delays: seq<int>)
    requires |db| == |random| == MAX_RETRIES
    ensures 1 <= attempts <= MAX_RETRIES && |delays| == MAX_RETRIES
    ensures forall i :: 0 <= i < attempts && Retryable(db[i]) ==> DelayOk(i, delays[i])
    ensures forall i :: 0 <= i < attempts - 1 ==> Retryable(db[i])
    ensures attempts < MAX_RETRIES ==> !Retryable(db[attempts - 1])
    ensures last == if db[attempts - 1] == Commits then Ok(()) else Err(ErrorOf(db[attempts - 1]))
    ensures log == Trace(db, delays, attempts)
  {
    log := [];
    attempts := 0;
    delays := seq(MAX_RETRIES, _ => 0);
    last := Err(RetriesExhausted);
    while attempts < MAX_RETRIES
      invariant attempts <= MAX_RETRIES && |delays| == MAX_RETRIES && last == Err(RetriesExhausted)
      invariant forall j :: 0 <= j < attempts ==> Retryable(db[j]) && DelayOk(j, delays[j])
      invariant log == Trace(db, delays, attempts)
    {
      var i := attempts;
      var outcome := RunAttempt(i, db[i]);
      attempts := attempts + 1;
      log := log + outcome.0;
      last := outcome.1;
      if last != Err(RetriesExhausted) {
        assert log == Trace(db, delays, attempts);
        return;
      }
      var delay := Sleep(i, random[i]);
      TraceKeeps(db, delays, i, delay);
      delays := delays[i := delay];
      log := log + [Slept(delay)];
    }
  }

  lemma {:induction false} TraceKeeps(db: seq<Attempt>, delays: seq<int>, n: nat, delay: int)
    requires n < |db| == |delays|
    ensures Trace(db, delays[n := delay], n) == Trace(db, delays, n)
  {
    TraceReadsOnly(db, delays, delays[n := delay], n);
  }

  lemma {:induction false} TraceReadsOnly(db: seq<Attempt>, a: seq<int>, b: seq<int>, n: nat)
    requires n <= |db| == |a| == |b| && forall i :: 0 <= i < n ==> a[i] == b[i]
    ensures Trace(db, a, n) == Trace(db, b, n)
    decreases n
  {
    if n > 0 { TraceReadsOnly(db, a, b, n - 1); }
  }

  /** One pass of the loop up to the backoff: begin, run the function, commit or roll back.
      Having to retry is reported as the error that stands if it was the last attempt. */
  method RunAttempt(i: nat, outcome: Attempt) returns (r: (seq<Event>, Result<(), TxError>))
    ensures r.0 == EventsOf(i, outcome)
    ensures r.1 == if outcome == Commits then Ok(()) else Err(ErrorOf(outcome))
    ensures r.1 == Err(RetriesExhausted) <==> Retryable(outcome)
  {
    if outcome.BeginFails? {
      return ([], Err(BeginError));
    }
    var log := [Begun(i)];
    if outcome.Commits? {
      return (log + [Committed(i)], Ok(()));
    }
    log := log + [RolledBack(i)];
    if outcome.serialization {
      return (log, Err(RetriesExhausted));
    }
    return (log, Err(if outcome.CommitFails? then CommitError else FnError));
  }

  /** How long to sleep after attempt `i`; the argument of the random source is positive. */
  method Sleep(i: nat, random: nat) returns (delay: int)
    requires i < MAX_RETRIES
    ensures DelayOk(i, delay)
  {
    BackoffBounds(i);
    var jitter := random % (Backoff(i) / 10);
    delay := Backoff(i) + jitter;
  }
}
