/** The bounded worker pool behind every pass over a checkpoint.

    Workers run on threads and finish in any order; the main thread takes a batch
    of finished calls, records each one, and refills. The specification of a pass
    is its history: the submissions and completions in the order the main thread
    performed them. Everything the pass decides is a function of that history. */
module Pool {
  import opened Options
  import opened Checkpoint

  /** What one worker call comes back with: a row to keep, a row that carries an
      error (a reader error, or a verdict graded by `judge_error`), or the
      usage-limit exception. */
  datatype Outcome<+R> = Ok(row: R) | Failed(error: string) | Quota(message: string)

  datatype Event<+R> = Submit(item: nat) | Done(item: nat, outcome: Outcome<R>)

  datatype History<+R> = Start | Then(past: History<R>, last: Event<R>)

  datatype Stop =
    | UsageLimit(message: string)
    | Breaker(failures: nat, last: string)
    | Residual(missing: nat, last: string)

  /** The counters of the pass: failures since the last kept row, and the first
      reason that asked it to stop. */
  datatype Health = Health(consecutive: nat, lastError: string, stop: Option<Stop>)

  function Width(concurrency: int): nat {
    if concurrency < 1 then 1 else concurrency
  }

  function Observe<R>(h: Health, outcome: Outcome<R>, limit: nat): Health {
    match outcome
    case Ok(_) => h.(consecutive := 0)
    case Quota(message) => if h.stop.None? then h.(stop := Some(UsageLimit(message))) else h
    case Failed(error) =>
      var failures := h.consecutive + 1;
      Health(failures, error,
             if failures >= limit && h.stop.None? then Some(Breaker(failures, error)) else h.stop)
  }

  function HealthOf<R>(h: History<R>, limit: nat): Health {
    match h
    case Start => Health(0, "", None)
    case Then(past, Submit(_)) => HealthOf(past, limit)
    case Then(past, Done(_, outcome)) => Observe(HealthOf(past, limit), outcome, limit)
  }

  /** The rows kept, in completion order. */
  function Rows<R>(h: History<R>): seq<R> {
    match h
    case Start => []
    case Then(past, Done(_, Ok(row))) => Rows(past) + [row]
    case Then(past, _) => Rows(past)
  }

  /** The item that each kept row answers. */
  function Finishers<R>(h: History<R>): seq<nat> {
    match h
    case Start => []
    case Then(past, Done(item, Ok(_))) => Finishers(past) + [item]
    case Then(past, _) => Finishers(past)
  }

  /** Completions that kept nothing. */
  function Losses<R>(h: History<R>): nat {
    match h
    case Start => 0
    case Then(past, Done(_, outcome)) => Losses(past) + (if outcome.Ok? then 0 else 1)
    case Then(past, Submit(_)) => Losses(past)
  }

  function Submitted<R>(h: History<R>): nat {
    match h
    case Start => 0
    case Then(past, Submit(_)) => Submitted(past) + 1
    case Then(past, Done(_, _)) => Submitted(past)
  }

  function InFlight<R>(h: History<R>): set<nat> {
    match h
    case Start => {}
    case Then(past, Submit(item)) => InFlight(past) + {item}
    case Then(past, Done(item, _)) => InFlight(past) - {item}
  }

  /** The discipline of the pool over `n` items: items are submitted in order, each
      once, only while nothing has asked the pass to stop and a worker is free; and
      only an item in flight completes. */
  ghost predicate Disciplined<R>(h: History<R>, n: nat, width: nat, limit: nat) {
    match h
    case Start => true
    case Then(past, Submit(item)) =>
      && Disciplined(past, n, width, limit)
      && item == Submitted(past) < n
      && |InFlight(past)| < width
      && HealthOf(past, limit).stop.None?
    case Then(past, Done(item, _)) =>
      && Disciplined(past, n, width, limit)
      && item in InFlight(past)
  }

  /** `row` is what some call on `item` returned. */
  ghost predicate Produced<I, R>(work: (nat, I) -> Outcome<R>, item: I, row: R) {
    exists tick: nat :: work(tick, item) == Ok(row)
  }

  /** Every kept row was produced by a call on the item it is recorded against. */
  ghost predicate Faithful<I, R>(h: History<R>, todo: seq<I>, work: (nat, I) -> Outcome<R>) {
    && |Finishers(h)| == |Rows(h)|
    && forall k :: 0 <= k < |Rows(h)| ==>
         && Finishers(h)[k] < |todo|
         && Produced(work, todo[Finishers(h)[k]], Rows(h)[k])
  }

  function Completions<R>(h: History<R>): seq<(nat, Outcome<R>)> {
    match h
    case Start => []
    case Then(past, Submit(_)) => Completions(past)
    case Then(past, Done(item, outcome)) => Completions(past) + [(item, outcome)]
  }

  /** The completion that a kept row comes from. */
  lemma {:induction false} RowCompleted<R>(h: History<R>, k: nat) returns (item: nat)
    requires k < |Rows(h)|
    ensures (item, Ok(Rows(h)[k])) in Completions(h)
  {
    if h.last.Done? && h.last.outcome.Ok? && k == |Rows(h)| - 1 {
      item := h.last.item;
    } else {
      item := RowCompleted(h.past, k);
    }
  }

  /** `outcome` is what some call on `item` came back with. */
  ghost predicate Returned<I, R>(work: (nat, I) -> Outcome<R>, item: I, outcome: Outcome<R>) {
    exists tick: nat :: work(tick, item) == outcome
  }

  /** Every completion is what some call on its item came back with. */
  ghost predicate FromCalls<I, R>(h: History<R>, todo: seq<I>, work: (nat, I) -> Outcome<R>) {
    forall c :: c in Completions(h) ==> c.0 < |todo| && Returned(work, todo[c.0], c.1)
  }

  ghost predicate Distinct<T(!new)>(s: seq<T>) {
    forall i, j :: 0 <= i < j < |s| ==> s[i] != s[j]
  }

  /** A pass that ran to the end of its loop: nothing is in flight, and unless it
      was asked to stop everything was submitted. */
  ghost predicate Drained<R>(h: History<R>, n: nat, limit: nat) {
    && InFlight(h) == {}
    && (HealthOf(h, limit).stop.None? ==> Submitted(h) == n)
  }

  /** The reason a resumable pass reports: the first stop, else the items that
      failed without tripping the breaker, else none. */
  function Report<R>(h: History<R>, n: nat, limit: nat): Option<Stop> {
    var health := HealthOf(h, limit);
    if health.stop.None? && |Rows(h)| < n
    then Some(Residual(n - |Rows(h)|, health.lastError))
    else health.stop
  }

  ghost predicate Prefix<R>(p: History<R>, h: History<R>) {
    p == h || (h.Then? && Prefix(p, h.past))
  }

  // ---------------------------------------------------------------- properties

  /** However calls interleave, the pool never holds more calls than it has
      workers, and every item is submitted at most once and in range. */
  lemma {:induction false} InFlightBounded<R>(h: History<R>, n: nat, width: nat, limit: nat)
    requires Disciplined(h, n, width, limit)
    ensures |InFlight(h)| <= width
    ensures Submitted(h) <= n
    ensures forall item :: item in InFlight(h) ==> item < Submitted(h)
  {
    if h.Then? {
      InFlightBounded(h.past, n, width, limit);
    }
  }

  /** At no moment of a history were more than `bound` calls in flight. */
  ghost predicate NeverMore<R>(h: History<R>, bound: int) {
    |InFlight(h)| <= bound && (h.Then? ==> NeverMore(h.past, bound))
  }

  lemma {:induction false} InFlightThroughout<R>(h: History<R>, n: nat, width: nat, limit: nat)
    requires Disciplined(h, n, width, limit)
    ensures NeverMore(h, width)
  {
    InFlightBounded(h, n, width, limit);
    if h.Then? {
      InFlightThroughout(h.past, n, width, limit);
    }
  }

  /** Conservation: every submission is in flight, kept, or lost; and no item is
      kept twice or kept while in flight. */
  lemma {:induction false} Accounting<R>(h: History<R>, n: nat, width: nat, limit: nat)
    requires Disciplined(h, n, width, limit)
    ensures Submitted(h) == |InFlight(h)| + |Rows(h)| + Losses(h)
    ensures |Finishers(h)| == |Rows(h)|
    ensures Distinct(Finishers(h))
    ensures forall item :: item in Finishers(h) ==> item < Submitted(h) && item !in InFlight(h)
  {
    if h.Then? {
      Accounting(h.past, n, width, limit);
      InFlightBounded(h.past, n, width, limit);
    }
  }

  /** The first stop reason wins and closes the pool: afterwards nothing is
      submitted, and only the calls already in flight can still add a row. */
  lemma {:induction false} StopClosesThePool<R>(p: History<R>, h: History<R>, n: nat, width: nat, limit: nat)
    requires Prefix(p, h) && Disciplined(h, n, width, limit)
    requires HealthOf(p, limit).stop.Some?
    ensures Disciplined(p, n, width, limit)
    ensures HealthOf(h, limit).stop == HealthOf(p, limit).stop
    ensures Submitted(h) == Submitted(p)
    ensures Rows(p) <= Rows(h)
    ensures |Rows(h)| - |Rows(p)| + |InFlight(h)| <= |InFlight(p)| <= width
  {
    if p == h {
      InFlightBounded(h, n, width, limit);
    } else {
      StopClosesThePool(p, h.past, n, width, limit);
    }
  }

  /** The completions the breaker looks at, in order, as failures or not: a quota is no
      evidence either way. */
  function Observed<R>(h: History<R>): seq<bool> {
    match h
    case Start => []
    case Then(past, Done(_, Ok(_))) => Observed(past) + [false]
    case Then(past, Done(_, Failed(_))) => Observed(past) + [true]
    case Then(past, _) => Observed(past)
  }

  /** The counter has reached `m` exactly when the last `m` completions, quotas apart,
      were all failures. */
  lemma {:induction false} ConsecutiveMeaning<R>(h: History<R>, limit: nat, m: nat)
    requires m > 0
    ensures HealthOf(h, limit).consecutive >= m <==>
      |Observed(h)| >= m && forall k :: |Observed(h)| - m <= k < |Observed(h)| ==> Observed(h)[k]
    decreases h
  {
    if h.Then? {
      var before, after := Observed(h.past), Observed(h);
      if h.last.Done? && h.last.outcome.Failed? {
        assert forall k :: 0 <= k < |before| ==> after[k] == before[k];
        assert after[|before|] && |after| == |before| + 1;
        if m > 1 {
          ConsecutiveMeaning(h.past, limit, m - 1);
        }
        assert forall k :: |before| - (m - 1) <= k < |before| && k >= 0 ==> after[k] == before[k];
      } else if h.last.Done? && h.last.outcome.Ok? {
        assert !after[|after| - 1];
      } else {
        ConsecutiveMeaning(h.past, limit, m);
      }
    }
  }

  /** The breaker trips at exactly `limit` failures with no kept row between them;
      a pass with fewer goes on. */
  lemma {:induction false} BreakerTripsAtTheLimit<R>(h: History<R>, limit: nat)
    requires limit > 0
    ensures var health := HealthOf(h, limit);
      match health.stop
      case None => health.consecutive < limit
      case Some(Breaker(failures, _)) => failures == limit
      case Some(stop) => stop.UsageLimit?
  {
    if h.Then? {
      BreakerTripsAtTheLimit(h.past, limit);
    }
  }

  /** The last failure of a history, if it had any. */
  function LastError<R>(h: History<R>): string {
    match h
    case Start => ""
    case Then(_, Done(_, Failed(error))) => error
    case Then(past, _) => LastError(past)
  }

  /** The completion that `h` ends with calls for a stop: a quota, or the last of `limit`
      observed completions that all failed. */
  ghost predicate Trips<R>(h: History<R>, limit: nat) {
    && h.Then? && h.last.Done?
    && (|| h.last.outcome.Quota?
        || (&& h.last.outcome.Failed? && |Observed(h)| >= limit
            && forall k :: |Observed(h)| - limit <= k < |Observed(h)| ==> Observed(h)[k]))
  }

  ghost predicate NeverTrips<R>(h: History<R>, limit: nat) {
    h.Then? ==> NeverTrips(h.past, limit) && !Trips(h, limit)
  }

  /** `h` is stopped at `p` for the first time, and `stop` says by what. */
  ghost predicate TripsFirst<R>(p: History<R>, h: History<R>, limit: nat, stop: Stop) {
    && Prefix(p, h) && Trips(p, limit) && NeverTrips(p.past, limit)
    && match p.last.outcome
       case Quota(message) => stop == UsageLimit(message)
       case Failed(error) => stop == Breaker(limit, error)
       case Ok(_) => false
  }

  /** `stop` is what the first completion to call for a stop said, if any did. */
  ghost predicate StopMeans<R(!new)>(h: History<R>, limit: nat, stop: Option<Stop>) {
    match stop
    case None => NeverTrips(h, limit)
    case Some(first) => exists p :: TripsFirst(p, h, limit, first)
  }

  /** A pool is stopped exactly when some completion called for it, and it stops with the
      quota or the error of the first that did. */
  lemma {:induction false} StopExactlyWhen<R(!new)>(h: History<R>, limit: nat)
    requires limit > 0
    ensures StopMeans(h, limit, HealthOf(h, limit).stop)
    ensures HealthOf(h, limit).lastError == LastError(h)
  {
    if h.Then? {
      StopExactlyWhen(h.past, limit);
      if HealthOf(h.past, limit).stop.Some? {
        var p :| TripsFirst(p, h.past, limit, HealthOf(h.past, limit).stop.value);
        assert TripsFirst(p, h, limit, HealthOf(h, limit).stop.value);
      } else {
        ConsecutiveMeaning(h, limit, limit);
        BreakerTripsAtTheLimit(h, limit);
        if Trips(h, limit) {
          assert TripsFirst(h, h, limit, HealthOf(h, limit).stop.value);
        }
      }
    }
  }

  /** The reason a resumable pass over `n` items gives for its end. */
  ghost predicate Reports<R(!new)>(h: History<R>, n: nat, limit: nat, stop: Option<Stop>) {
    if stop.None? then NeverTrips(h, limit) && |Rows(h)| >= n
    else if stop.value.Residual? then
      && NeverTrips(h, limit) && |Rows(h)| < n
      && stop.value.missing == n - |Rows(h)| && stop.value.last == LastError(h)
    else StopMeans(h, limit, stop)
  }

  lemma ReportMeans<R(!new)>(h: History<R>, n: nat, limit: nat)
    requires limit > 0
    ensures Reports(h, n, limit, Report(h, n, limit))
  {
    StopExactlyWhen(h, limit);
  }

  lemma {:induction false} FullRange(s: seq<nat>, n: nat)
    requires Distinct(s) && forall x :: x in s ==> x < n
    requires |s| == n
    ensures forall x: nat :: x < n ==> x in s
  {
    var mine := set x | x in s;
    DistinctSize(s);
    forall x: nat | x < n
      ensures x in s
    {
      if x !in s {
        Smaller(mine, Below(n) - {x});
      }
    }
  }

  function Below(n: nat): (s: set<nat>)
    ensures |s| == n && forall x: nat :: x in s <==> x < n
  {
    if n == 0 then {} else Below(n - 1) + {n - 1}
  }

  lemma {:induction false} DistinctSize<T(!new)>(s: seq<T>)
    requires Distinct(s)
    ensures |set x | x in s| == |s|
  {
    if s != [] {
      var t := s[..|s| - 1];
      DistinctSize(t);
      assert (set x | x in s) == (set x | x in t) + {s[|s| - 1]};
    }
  }

  lemma {:induction false} Smaller<T>(a: set<T>, b: set<T>)
    requires a <= b
    ensures |a| <= |b|
  {
    assert b == a + (b - a);
  }

  lemma {:induction false} StopMeansALoss<R>(h: History<R>, limit: nat)
    requires HealthOf(h, limit).stop.Some?
    ensures Losses(h) > 0
  {
    if h.last.Submit? || HealthOf(h.past, limit).stop.Some? {
      StopMeansALoss(h.past, limit);
    }
  }

  /** A pass reports no stop exactly when it kept a row for every item: a quota, a
      tripped breaker and a lone failure each leave an item without one. */
  lemma NoStopExactlyWhenAllKept<R>(h: History<R>, n: nat, width: nat, limit: nat)
    requires Disciplined(h, n, width, limit) && Drained(h, n, limit)
    ensures Report(h, n, limit).None? <==> forall item: nat :: item < n ==> item in Finishers(h)
  {
    Accounting(h, n, width, limit);
    InFlightBounded(h, n, width, limit);
    var f := Finishers(h);
    if |f| == n {
      FullRange(f, n);
      if HealthOf(h, limit).stop.Some? {
        StopMeansALoss(h, limit);
      }
    } else if forall item: nat :: item < n ==> item in f {
      DistinctSize(f);
      Smaller(Below(n), set x | x in f);
    }
  }

  // ------------------------------------------------------------------ the loop

  /** One pass over `todo`. `work` is any behaviour of the workers, indexed by the
      moment of the call; batches of finished calls are arbitrary; and if something may
      kill the process, it may die before any append. */
  method Run<I, R(!new)>(file: JsonlFile<R>, todo: seq<I>, work: (nat, I) -> Outcome<R>,
                   concurrency: int, limit: nat, mayDie: bool)
    returns (done: nat, health: Health, crashed: bool, ghost history: History<R>)
    modifies file
    ensures crashed ==> mayDie
    ensures file.rows == old(file.rows) + Rows(history)
    ensures Disciplined(history, |todo|, Width(concurrency), limit)
    ensures NeverMore(history, if concurrency > 1 then concurrency else 1)
    ensures Faithful(history, todo, work) && FromCalls(history, todo, work)
    ensures done == |Rows(history)| && health == HealthOf(history, limit)
    ensures limit > 0 ==> StopMeans(history, limit, health.stop) && health.lastError == LastError(history)
    ensures !crashed ==> Drained(history, |todo|, limit)
  {
    var width := Width(concurrency);
    var pending: set<nat> := {};
    var next, tick := 0, 0;
    done, health, crashed, history := 0, Health(0, "", None), false, Start;
    ghost var base := file.rows;

    next, pending, history := Refill(|todo|, width, width, limit, health, next, pending, history);
    while pending != {}
      invariant Recorded(file.rows, base, history, todo, work, width, limit, done, health)
      invariant pending == InFlight(history) && next == Submitted(history) <= |todo|
      invariant pending == {} && health.stop.None? ==> next == |todo|
      invariant !crashed
      decreases |todo| - next + |pending|
    {
      InFlightBounded(history, |todo|, width, limit);
      var finished: set<nat> :| finished != {} && finished <= pending;
      pending := pending - finished;
      var batch := |finished|;
      tick, done, health, crashed, history :=
        Collect(file, todo, finished, work, tick, width, limit, done, health, base, history, mayDie);
      if crashed {
        break;
      }
      next, pending, history := Refill(|todo|, width, batch, limit, health, next, pending, history);
    }
    InFlightThroughout(history, |todo|, width, limit);
    if limit > 0 {
      StopExactlyWhen(history, limit);
    }
  }

  /** The file and the counters after a history that obeys the pool. */
  ghost predicate Recorded<I, R>(rows: seq<R>, base: seq<R>, h: History<R>, todo: seq<I>, work: (nat, I) -> Outcome<R>,
                                 width: nat, limit: nat, done: nat, health: Health) {
    && Disciplined(h, |todo|, width, limit) && Faithful(h, todo, work) && FromCalls(h, todo, work)
    && rows == base + Rows(h) && done == |Rows(h)| && health == HealthOf(h, limit)
  }

  /** Records a batch of finished calls, in any order. */
  method Collect<I, R(!new)>(file: JsonlFile<R>, todo: seq<I>, batch: set<nat>, work: (nat, I) -> Outcome<R>, tick0: nat,
                       ghost width: nat, limit: nat, done0: nat, health0: Health,
                       ghost base: seq<R>, ghost history0: History<R>, mayDie: bool)
    returns (tick: nat, done: nat, health: Health, crashed: bool, ghost history: History<R>)
    requires Recorded(file.rows, base, history0, todo, work, width, limit, done0, health0)
    requires batch <= InFlight(history0) && forall item :: item in batch ==> item < |todo|
    modifies file
    ensures Recorded(file.rows, base, history, todo, work, width, limit, done, health)
    ensures Submitted(history) == Submitted(history0) && (crashed ==> mayDie)
    ensures !crashed ==> InFlight(history) == InFlight(history0) - batch
  {
    tick, done, health, crashed, history := tick0, done0, health0, false, history0;
    var finished := batch;
    while finished != {}
      invariant finished <= batch
      invariant Recorded(file.rows, base, history, todo, work, width, limit, done, health)
      invariant finished <= InFlight(history) && InFlight(history) - finished == InFlight(history0) - batch
      invariant Submitted(history) == Submitted(history0) && !crashed
    {
      var item :| item in finished;
      finished := finished - {item};
      var dies: bool := *;
      if mayDie && dies {
        crashed := true;
        return;
      }
      done, health, history := Record(file, todo, item, work, tick, width, limit, done, health, base, history);
      tick := tick + 1;
    }
  }

  /** What the main thread does with one finished call. */
  method Record<I, R(!new)>(file: JsonlFile<R>, todo: seq<I>, item: nat, work: (nat, I) -> Outcome<R>, tick: nat,
                      ghost width: nat, limit: nat, done0: nat, health0: Health,
                      ghost base: seq<R>, ghost history0: History<R>)
    returns (done: nat, health: Health, ghost history: History<R>)
    requires Recorded(file.rows, base, history0, todo, work, width, limit, done0, health0)
    requires item < |todo| && item in InFlight(history0)
    modifies file
    ensures history == Then(history0, Done(item, work(tick, todo[item])))
    ensures Recorded(file.rows, base, history, todo, work, width, limit, done, health)
    ensures limit > 0 ==> StopMeans(history, limit, health.stop) && health.lastError == LastError(history)
  {
    var outcome := work(tick, todo[item]);
    assert Returned(work, todo[item], outcome);
    history := Then(history0, Done(item, outcome));
    health := Observe(health0, outcome, limit);
    done := done0;
    if outcome.Ok? {
      file.Append(outcome.row);
      done := done + 1;
      assert Produced(work, todo[item], outcome.row);
    }
    if limit > 0 {
      StopExactlyWhen(history, limit);
    }
  }

  /** `slots` attempts to submit the next item, refused once a stop is set. */
  method Refill<R>(n: nat, width: nat, slots: nat, limit: nat, health: Health,
                   next0: nat, pending0: set<nat>, ghost history0: History<R>)
    returns (next: nat, pending: set<nat>, ghost history: History<R>)
    requires Disciplined(history0, n, width, limit)
    requires health == HealthOf(history0, limit)
    requires pending0 == InFlight(history0) && next0 == Submitted(history0) <= n
    requires |pending0| + slots <= width
    ensures Disciplined(history, n, width, limit)
    ensures Rows(history) == Rows(history0) && Finishers(history) == Finishers(history0)
    ensures Completions(history) == Completions(history0) && HealthOf(history, limit) == health
    ensures pending == InFlight(history) && next == Submitted(history) <= n
    ensures |pending| <= |pending0| + slots && n - next + |pending| == n - next0 + |pending0|
    ensures slots > 0 && health.stop.None? && pending == {} ==> next == n
  {
    next, pending, history := next0, pending0, history0;
    var s := 0;
    while s < slots
      invariant s <= slots
      invariant Disciplined(history, n, width, limit)
      invariant Rows(history) == Rows(history0) && Finishers(history) == Finishers(history0)
      invariant Completions(history) == Completions(history0) && HealthOf(history, limit) == health
      invariant pending == InFlight(history) && next == Submitted(history) <= n
      invariant |pending| <= |pending0| + s && n - next + |pending| == n - next0 + |pending0|
      invariant s > 0 && health.stop.None? && pending == {} ==> next == n
    {
      if next < n && health.stop.None? {
        InFlightBounded(history, n, width, limit);
        history := Then(history, Submit(next));
        pending := pending + {next};
        next := next + 1;
      }
      s := s + 1;
    }
  }
}
