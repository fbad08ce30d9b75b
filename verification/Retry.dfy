/** The two retry loops that send requests under the limiter. */
module Retry {
  import opened Options
  import opened Throttle

  /** The two names an endpoint may give the output cap. */
  datatype Field = MaxTokens | MaxCompletionTokens

  /** One exchange, with what the loops read of it: whether the body speaks of a spent
      allowance, which cap fields it names, and a `Retry-After` that parses. */
  datatype Reply =
    | Answered(payload: int)
    | Http(code: int, hardQuota: bool, names: set<Field>, retryAfter: Option<real>)
    | Unreachable

  datatype Result = Done(payload: int) | Quota | Failed | Crashed

  function Other(f: Field): Field {
    if f == MaxTokens then MaxCompletionTokens else MaxTokens
  }

  /** `None` is the client that has no cap field to rename. */
  predicate Switches(r: Reply, f: Option<Field>) {
    r.Http? && r.code == 400 && f.Some? && Other(f.value) in r.names
  }

  function Next(r: Reply, f: Option<Field>): Option<Field> {
    if Switches(r, f) then Some(Other(f.value)) else f
  }

  predicate Passing(r: Reply) {
    r.Unreachable? || (r.Http? && ((r.code == 429 && !r.hardQuota) || r.code >= 500))
  }

  /** The replies after which another attempt is made, if one is left. */
  predicate Again(r: Reply, f: Option<Field>) {
    Switches(r, f) || Passing(r)
  }

  function Final(r: Reply): Result {
    if r.Answered? then Done(r.payload)
    else if r.Http? && r.code == 429 && r.hardQuota then Quota
    else Failed
  }

  /** What becomes of a reply, by its status: refusals and client errors end the call, and so
      does a spent allowance, as a quota; a rate limit, a server error or a lost connection
      ends it only on the last attempt; a refusal of the cap's field leads on. */
  ghost predicate Treated(r: Reply, f: Option<Field>, last: bool, over: Option<Result>) {
    match r
    case Answered(payload) => over == Some(Done(payload))
    case Unreachable => over == if last then Some(Failed) else None
    case Http(code, hardQuota, names, _) =>
      && (code == 429 && hardQuota ==> over == Some(Quota))
      && (code == 429 && !hardQuota ==> over == if last then Some(Failed) else None)
      && (code >= 500 ==> over == if last then Some(Failed) else None)
      && (code != 429 && code < 500 && code != 400 ==> over == Some(Failed))
      && (code == 400 ==> over == match f
            case Some(MaxTokens) => if MaxCompletionTokens in names then None else Some(Failed)
            case Some(MaxCompletionTokens) => if MaxTokens in names then None else Some(Failed)
            case None => Some(Failed))
  }

  /** A rate limit that names its wait is taken at its word, within nothing and five minutes;
      any other wait is the backoff. */
  ghost predicate WaitFor(r: Reply, delay: real, wait: real) {
    if r.Http? && r.code == 429 && r.retryAfter.Some? then
      var stated := r.retryAfter.value;
      && (stated < 0.0 ==> wait == 0.0) && (0.0 <= stated <= 300.0 ==> wait == stated)
      && (stated > 300.0 ==> wait == 300.0)
    else wait == delay
  }

  /** The index of the first reply that ends the call. */
  function Settles(replies: seq<Reply>, f: Option<Field>): (k: nat)
    ensures k <= |replies|
  {
    if replies == [] || !Again(replies[0], f) then 0
    else 1 + Settles(replies[1..], Next(replies[0], f))
  }

  /** The renamings among the replies before that one. */
  function Renamed(replies: seq<Reply>, f: Option<Field>): (s: nat)
    ensures s <= Settles(replies, f)
  {
    if replies == [] || !Again(replies[0], f) then 0
    else (if Switches(replies[0], f) then 1 else 0) + Renamed(replies[1..], Next(replies[0], f))
  }

  // --------------------------------------------------------- what a renaming costs

  /** The loop as written: every reply uses up an attempt. */
  function Strict(replies: seq<Reply>, f: Option<Field>, attempts: nat): Result {
    if attempts == 0 || replies == [] then Failed
    else if Again(replies[0], f) then Strict(replies[1..], Next(replies[0], f), attempts - 1)
    else Final(replies[0])
  }

  /** The loop as its comment describes it: a renaming does not consume a retry. */
  function Patient(replies: seq<Reply>, f: Option<Field>, attempts: nat): Result {
    if attempts == 0 || replies == [] then Failed
    else if Switches(replies[0], f) then Patient(replies[1..], Next(replies[0], f), attempts)
    else if Again(replies[0], f) then Patient(replies[1..], f, attempts - 1)
    else Final(replies[0])
  }

  lemma {:induction false} StrictClosed(replies: seq<Reply>, f: Option<Field>, attempts: nat)
    ensures Strict(replies, f, attempts) ==
            if Settles(replies, f) < attempts && Settles(replies, f) < |replies|
            then Final(replies[Settles(replies, f)]) else Failed
  {
    if attempts > 0 && replies != [] && Again(replies[0], f) {
      StrictClosed(replies[1..], Next(replies[0], f), attempts - 1);
    }
  }

  lemma {:induction false} PatientClosed(replies: seq<Reply>, f: Option<Field>, attempts: nat)
    ensures Patient(replies, f, attempts) ==
            if Settles(replies, f) - Renamed(replies, f) < attempts && Settles(replies, f) < |replies|
            then Final(replies[Settles(replies, f)]) else Failed
  {
    if attempts > 0 && replies != [] && Again(replies[0], f) {
      var spent := if Switches(replies[0], f) then 0 else 1;
      PatientClosed(replies[1..], Next(replies[0], f), attempts - spent);
    }
  }

  /** The two differ exactly when the renamings push the reply that would have settled the
      call past the last attempt. */
  lemma RenamingCostsExactlyWhen(replies: seq<Reply>, f: Option<Field>, attempts: nat)
    ensures var k, s := Settles(replies, f), Renamed(replies, f);
      Strict(replies, f, attempts) != Patient(replies, f, attempts) <==>
      k < |replies| && k - s < attempts <= k && Final(replies[k]) != Failed
  {
    StrictClosed(replies, f, attempts);
    PatientClosed(replies, f, attempts);
  }

  /** One attempt, one renaming, then an answer that is never asked for. */
  lemma RenamingCostsTheCall()
    ensures var replies := [Http(400, false, {MaxCompletionTokens}, None), Answered(7)];
      Strict(replies, Some(MaxTokens), 1) == Failed && Patient(replies, Some(MaxTokens), 1) == Done(7)
  {
    var replies := [Http(400, false, {MaxCompletionTokens}, None), Answered(7)];
    assert Switches(replies[0], Some(MaxTokens));
    assert replies[1..] == [Answered(7)];
    assert Patient(replies[1..], Some(MaxCompletionTokens), 1) == Done(7);
  }

  // ------------------------------------------------------------------------ waits

  function Pow2(n: nat): (p: real)
    ensures p >= 1.0
  {
    if n == 0 then 1.0 else 2.0 * Pow2(n - 1)
  }

  function RetryAfter(header: Option<real>, fallback: real): (s: real)
    ensures header.None? ==> s == fallback
    ensures header.Some? ==> 0.0 <= s <= 300.0
    ensures header.Some? && 0.0 <= header.value <= 300.0 ==> s == header.value
  {
    match header
    case None => fallback
    case Some(v) =>
      var capped := if v < 300.0 then v else 300.0;
      if capped > 0.0 then capped else 0.0
  }

  /** The wait before the next attempt; only a 429 may name its own. */
  function Pause(r: Reply, f: Option<Field>, delay: real): real {
    if f.Some? && r.Http? && r.code == 429 then RetryAfter(r.retryAfter, delay) else delay
  }

  /** The waits of a call: one for each passing failure that leaves an attempt. */
  function Waits(replies: seq<Reply>, f: Option<Field>, delay: real, attempts: nat): seq<real> {
    if attempts <= 1 || replies == [] || !Again(replies[0], f) then []
    else if Switches(replies[0], f) then Waits(replies[1..], Next(replies[0], f), delay, attempts - 1)
    else [Pause(replies[0], f, delay)] + Waits(replies[1..], f, 2.0 * delay, attempts - 1)
  }

  ghost predicate NamesNoWait(replies: seq<Reply>) {
    forall i :: 0 <= i < |replies| ==> (replies[i].Http? ==> replies[i].retryAfter.None?)
  }

  lemma TwiceThenDouble(delay: real, i: nat)
    requires i > 0
    ensures 2.0 * delay * Pow2(i - 1) == delay * Pow2(i)
  {
    var p := Pow2(i - 1);
    assert Pow2(i) == 2.0 * p;
  }

  /** Where no endpoint names its own wait, the waits double from the first. */
  lemma {:induction false} WaitsDouble(replies: seq<Reply>, f: Option<Field>, delay: real, attempts: nat, i: nat)
    requires f.None? || NamesNoWait(replies)
    requires i < |Waits(replies, f, delay, attempts)|
    ensures Waits(replies, f, delay, attempts)[i] == delay * Pow2(i)
  {
    if Switches(replies[0], f) {
      WaitsDouble(replies[1..], Next(replies[0], f), delay, attempts - 1, i);
    } else if i > 0 {
      WaitsDouble(replies[1..], f, 2.0 * delay, attempts - 1, i - 1);
      TwiceThenDouble(delay, i);
    }
  }

  /** There is one wait for each attempt after the first that no renaming bought. */
  lemma {:induction false} WaitsCount(replies: seq<Reply>, f: Option<Field>, delay: real, attempts: nat)
    requires attempts > Settles(replies, f)
    ensures |Waits(replies, f, delay, attempts)| == Settles(replies, f) - Renamed(replies, f)
  {
    if replies != [] && Again(replies[0], f) {
      var d := if Switches(replies[0], f) then delay else 2.0 * delay;
      WaitsCount(replies[1..], Next(replies[0], f), d, attempts - 1);
    }
  }

  function Sum(waits: seq<real>): real {
    if waits == [] then 0.0 else Sum(waits[..|waits| - 1]) + waits[|waits| - 1]
  }

  lemma {:induction false} DoublingSum(waits: seq<real>)
    requires forall i :: 0 <= i < |waits| ==> waits[i] == 2.0 * Pow2(i)
    ensures Sum(waits) == 2.0 * Pow2(|waits|) - 2.0
  {
    if waits != [] {
      DoublingSum(waits[..|waits| - 1]);
    }
  }

  /** A client that ignores `Retry-After` waits less than 2^attempts seconds in all. */
  lemma {:induction false} TotalWait(replies: seq<Reply>, attempts: nat)
    requires attempts >= 1
    ensures Sum(Waits(replies, None, 2.0, attempts)) <= Pow2(attempts) - 2.0
  {
    var waits := Waits(replies, None, 2.0, attempts);
    forall i | 0 <= i < |waits|
      ensures waits[i] == 2.0 * Pow2(i)
    {
      WaitsDouble(replies, None, 2.0, attempts, i);
    }
    DoublingSum(waits);
    FewWaits(replies, None, 2.0, attempts);
    Pow2Grows(|waits|, attempts - 1);
    assert Pow2(attempts) == 2.0 * Pow2(attempts - 1);
  }

  lemma {:induction false} FewWaits(replies: seq<Reply>, f: Option<Field>, delay: real, attempts: nat)
    requires attempts >= 1
    ensures |Waits(replies, f, delay, attempts)| <= attempts - 1
  {
    if attempts > 1 && replies != [] && Again(replies[0], f) {
      FewWaits(replies[1..], Next(replies[0], f), if Switches(replies[0], f) then delay else 2.0 * delay, attempts - 1);
    }
  }

  lemma {:induction false} Pow2Grows(a: nat, b: nat)
    requires a <= b
    ensures Pow2(a) <= Pow2(b)
  {
    if a < b {
      Pow2Grows(a, b - 1);
    }
  }

  function Attempts(maxRetries: int): nat {
    if maxRetries < 0 then 0 else maxRetries
  }

  function Least(a: nat, b: nat): nat {
    if a < b then a else b
  }

  // ---------------------------------------------------------------------- clients

  /** A call that has made `a` of its attempts: what the replies left will do. */
  ghost predicate Running(replies: seq<Reply>, f0: Option<Field>, f: Option<Field>, a: nat, n: nat, delay: real,
                          waits: seq<real>) {
    && a <= n <= |replies|
    && Settles(replies, f0) == a + Settles(replies[a..], f)
    && waits + Waits(replies[a..], f, delay, n - a) == Waits(replies, f0, 2.0, n)
  }

  /** One more attempt: it settles the call, uses up the last attempt, or leads on. */
  lemma RunOn(replies: seq<Reply>, f0: Option<Field>, f: Option<Field>, a: nat, n: nat, delay: real, waits: seq<real>)
    requires a < n && Running(replies, f0, f, a, n, delay, waits)
    ensures !Again(replies[a], f) ==> Ended(replies, f0, a + 1, n, waits, Final(replies[a]))
    ensures !Switches(replies[a], f) && Again(replies[a], f) && a == n - 1 ==> Ended(replies, f0, n, n, waits, Failed)
    ensures Switches(replies[a], f) ==> Running(replies, f0, Next(replies[a], f), a + 1, n, delay, waits)
    ensures !Switches(replies[a], f) && Again(replies[a], f) && a < n - 1 ==>
      Running(replies, f0, f, a + 1, n, 2.0 * delay, waits + [Pause(replies[a], f, delay)])
  {
    StrictClosed(replies, f0, n);
    assert replies[a..][1..] == replies[a + 1..];
    assert waits + [] == waits;
    if !Switches(replies[a], f) && Again(replies[a], f) && a < n - 1 {
      var p, rest := Pause(replies[a], f, delay), Waits(replies[a + 1..], f, 2.0 * delay, n - a - 1);
      assert waits + ([p] + rest) == (waits + [p]) + rest;
    }
  }

  /** A finished call: so many requests, these waits, this result. */
  ghost predicate Ended(replies: seq<Reply>, f0: Option<Field>, sent: int, n: nat, waits: seq<real>, result: Result) {
    && sent == Least(Settles(replies, f0) + 1, n)
    && waits == Waits(replies, f0, 2.0, n)
    && result == Strict(replies, f0, n)
  }

  lemma StillWanted(replies: seq<Reply>, f: Option<Field>, a: nat, n: nat, delay: real, waits: seq<real>)
    requires a < n && Running(replies, f, f, a, n, delay, waits)
    ensures Least(Settles(replies, f) + 1, n) > a
  {
  }

  lemma NotYet(replies: seq<Reply>, f: Option<Field>, n: nat)
    requires n <= |replies|
    ensures Running(replies, f, f, 0, n, 2.0, [])
  {
    assert replies[0..] == replies;
    assert [] + Waits(replies, f, 2.0, n) == Waits(replies, f, 2.0, n);
  }

  lemma RanOut(replies: seq<Reply>, f0: Option<Field>, f: Option<Field>, n: nat, delay: real, waits: seq<real>)
    requires Running(replies, f0, f, n, n, delay, waits)
    ensures Ended(replies, f0, n, n, waits, Failed)
  {
    StrictClosed(replies, f0, n);
    assert waits + [] == waits;
  }

  /** Without a cap field nothing is renamed, and no reply names its own wait. */
  lemma Plain(r: Reply, delay: real)
    ensures !Switches(r, None) && Next(r, None) == None && Pause(r, None, delay) == delay
  {
  }

  /** Two seconds, and then twice as long each time. */
  ghost predicate Doubling(waits: seq<real>) {
    && (waits != [] ==> waits[0] == 2.0)
    && forall i :: 0 < i < |waits| ==> waits[i] == 2.0 * waits[i - 1]
  }

  lemma WaitsAreDoubling(replies: seq<Reply>, f: Option<Field>, attempts: nat)
    requires f.None? || NamesNoWait(replies)
    ensures Doubling(Waits(replies, f, 2.0, attempts))
  {
    var waits := Waits(replies, f, 2.0, attempts);
    if waits != [] {
      WaitsDouble(replies, f, 2.0, attempts, 0);
    }
    forall i | 0 < i < |waits|
      ensures waits[i] == 2.0 * waits[i - 1]
    {
      WaitsDouble(replies, f, 2.0, attempts, i);
      WaitsDouble(replies, f, 2.0, attempts, i - 1);
      TwiceThenDouble(2.0, i);
    }
  }

  lemma DoublesUnlessNamed(replies: seq<Reply>, f: Option<Field>, attempts: nat)
    ensures f.None? || NamesNoWait(replies) ==> Doubling(Waits(replies, f, 2.0, attempts))
  {
    if f.None? || NamesNoWait(replies) {
      WaitsAreDoubling(replies, f, attempts);
    }
  }

  class OpenAiClient {
    const limiter: Limiter
    const maxRetries: int
    var field: Field

    constructor (limiter: Limiter, maxRetries: int)
      ensures this.limiter == limiter && this.maxRetries == maxRetries && field == MaxTokens
    {
      this.limiter, this.maxRetries, field := limiter, maxRetries, MaxTokens;
    }

    /** Renames the cap in the request body if the refusal names the other field. */
    method SwitchField(r: Reply, cap: Field) returns (switched: bool, renamed: Field)
      requires r.Http?
      modifies this
      ensures switched <==> Other(old(field)) in r.names && cap == old(field)
      ensures field == if switched then Other(old(field)) else old(field)
      ensures renamed == if switched then field else cap
    {
      var other := Other(field);
      if other !in r.names || cap != field {
        return false, cap;
      }
      field := other;
      return true, other;
    }

    /** What one reply leads to: a result, or else a renamed cap or a wait. */
    method Handle(clock: Clock, r: Reply, cap: Field, delay: real, last: bool)
      returns (over: Option<Result>, renamed: Field, waited: seq<real>)
      requires cap == field
      modifies this, clock
      ensures clock.now >= old(clock.now)
      ensures Some(field) == Next(r, Some(old(field))) && renamed == field
      ensures over == if !Again(r, Some(old(field))) then Some(Final(r))
                      else if last && Passing(r) then Some(Failed) else None
      ensures waited == if over.Some? || Switches(r, Some(old(field))) then [] else [Pause(r, Some(old(field)), delay)]
      ensures clock.asked == old(clock.asked) + waited && (waited != [] ==> clock.now >= old(clock.now) + waited[0])
      ensures Treated(r, Some(old(field)), last, over)
      ensures waited != [] ==> |waited| == 1 && WaitFor(r, delay, waited[0])
    {
      over, renamed, waited := None, cap, [];
      match r {
        case Answered(payload) =>
          over := Some(Done(payload));
        case Http(code, hardQuota, names, retryAfter) =>
          if code == 400 {
            var switched;
            switched, renamed := SwitchField(r, cap);
            if switched {
              return;
            }
          }
          if code == 401 || code == 403 {
            over := Some(Failed);
          } else if code == 429 {
            if hardQuota {
              over := Some(Quota);
            } else if last {
              over := Some(Failed);
            } else {
              waited := [RetryAfter(retryAfter, delay)];
              clock.Sleep(waited[0]);
            }
          } else if code >= 500 && !last {
            waited := [delay];
            clock.Sleep(delay);
          } else {
            over := Some(Failed);
          }
        case Unreachable =>
          if last {
            over := Some(Failed);
          } else {
            waited := [delay];
            clock.Sleep(delay);
          }
      }
    }

    /** One attempt: the limiter is asked, then the request is sent and its reply handled. */
    method Attempt(clock: Clock, replies: seq<Reply>, attempt: nat, n: nat, cap: Field, delay0: real,
                   waits0: seq<real>, ghost f0: Option<Field>)
      returns (over: Option<Result>, renamed: Field, delay: real, waits: seq<real>)
      requires limiter.Valid(clock) && cap == field && attempt < n
      requires Running(replies, f0, Some(field), attempt, n, delay0, waits0)
      modifies this, limiter, clock
      ensures limiter.Valid(clock) && |limiter.sent| == |old(limiter.sent)| + 1 && renamed == field
      ensures over.Some? ==> Ended(replies, f0, attempt + 1, n, waits, over.value)
      ensures over.None? ==> Running(replies, f0, Some(field), attempt + 1, n, delay, waits)
    {
      limiter.OpenAiThrottle(clock);
      ghost var sentAt := clock.now;
      over, renamed, delay, waits := Send(clock, replies, attempt, n, cap, delay0, waits0, f0);
      if limiter.rpm >= 1 {
        limiter.TracksLater(sentAt, clock.now);
      }
    }

    /** The request itself, and what its reply leads to. */
    method Send(clock: Clock, replies: seq<Reply>, attempt: nat, n: nat, cap: Field, delay0: real,
                waits0: seq<real>, ghost f0: Option<Field>)
      returns (over: Option<Result>, renamed: Field, delay: real, waits: seq<real>)
      requires cap == field && attempt < n && Running(replies, f0, Some(field), attempt, n, delay0, waits0)
      modifies this, clock
      ensures clock.now >= old(clock.now) && renamed == field
      ensures over.Some? ==> Ended(replies, f0, attempt + 1, n, waits, over.value)
      ensures over.None? ==> Running(replies, f0, Some(field), attempt + 1, n, delay, waits)
    {
      RunOn(replies, f0, Some(field), attempt, n, delay0, waits0);
      var waited;
      over, renamed, waited := Handle(clock, replies[attempt], cap, delay0, attempt == n - 1);
      delay, waits := delay0, waits0;
      if waited != [] {
        delay, waits := 2.0 * delay0, waits0 + waited;
      }
    }

    /** One request with its retries; `replies` is what the endpoint would say to each
        attempt. The body carries the cap under the client's own field. */
    method Post(clock: Clock, replies: seq<Reply>) returns (result: Result, waits: seq<real>)
      requires limiter.Valid(clock) && |replies| >= Attempts(maxRetries)
      modifies this, limiter, clock
      ensures limiter.Valid(clock)
      ensures Ended(replies, Some(old(field)), |limiter.sent| - |old(limiter.sent)|, Attempts(maxRetries), waits, result)
      ensures NamesNoWait(replies) ==> Doubling(waits)
    {
      var cap, delay, attempt, n := field, 2.0, 0, Attempts(maxRetries);
      ghost var f0 := Some(field);
      waits := [];
      NotYet(replies, f0, n);
      while attempt < n
        invariant 0 <= attempt <= n && cap == field
        invariant limiter.Valid(clock)
        invariant |limiter.sent| == |old(limiter.sent)| + attempt
        invariant Running(replies, f0, Some(field), attempt, n, delay, waits)
      {
        var over;
        over, cap, delay, waits := Attempt(clock, replies, attempt, n, cap, delay, waits, f0);
        if over.Some? {
          DoublesUnlessNamed(replies, f0, n);
          return over.value, waits;
        }
        attempt := attempt + 1;
      }
      RanOut(replies, f0, Some(field), n, delay, waits);
      DoublesUnlessNamed(replies, f0, n);
      result := Failed;
    }
  }

  class GeminiClient {
    const limiter: Limiter
    const maxRetries: int

    constructor (limiter: Limiter, maxRetries: int)
      ensures this.limiter == limiter && this.maxRetries == maxRetries
    {
      this.limiter, this.maxRetries := limiter, maxRetries;
    }

    /** How many attempts the daily cap still allows. */
    ghost function Room(): nat
      reads limiter
    {
      if limiter.requestsToday >= limiter.rpd then 0 else limiter.rpd - limiter.requestsToday
    }

    /** As above without renaming and without `Retry-After`. */
    method Handle(clock: Clock, r: Reply, delay: real, last: bool) returns (over: Option<Result>)
      modifies clock
      ensures clock.now >= old(clock.now)
      ensures over == if !Again(r, None) then Some(Final(r)) else if last then Some(Failed) else None
      ensures over.None? ==> clock.now >= old(clock.now) + delay
      ensures clock.asked == old(clock.asked) + if over.None? then [delay] else []
      ensures Treated(r, None, last, over)
    {
      over := None;
      match r {
        case Answered(payload) =>
          return Some(Done(payload));
        case Http(code, hardQuota, _, _) =>
          if code == 429 {
            if hardQuota {
              return Some(Quota);
            }
            if last {
              return Some(Failed);
            }
            clock.Sleep(delay);
          } else if code >= 500 && !last {
            clock.Sleep(delay);
          } else {
            return Some(Failed);
          }
        case Unreachable =>
          if last {
            return Some(Failed);
          }
          clock.Sleep(delay);
      }
    }

    /** One attempt: the caps are read, then the request is sent and its reply handled. */
    method Attempt(clock: Clock, replies: seq<Reply>, attempt: nat, n: nat, delay0: real, waits0: seq<real>)
      returns (over: Option<Result>, delay: real, waits: seq<real>)
      requires limiter.Valid(clock) && attempt < n && Running(replies, None, None, attempt, n, delay0, waits0)
      modifies limiter, clock
      ensures limiter.Valid(clock)
      ensures limiter.requestsToday - old(limiter.requestsToday) == |limiter.sent| - |old(limiter.sent)|
      ensures |limiter.sent| == |old(limiter.sent)| + if old(Room()) > 0 && limiter.rpm >= 1 then 1 else 0
      ensures old(Room()) == 0 ==> over == Some(Quota) && Least(Settles(replies, None) + 1, n) > attempt
      ensures old(Room()) > 0 && limiter.rpm <= 0 ==> over == Some(Crashed)
      ensures old(Room()) > 0 && limiter.rpm > 0 && over.Some? ==> Ended(replies, None, attempt + 1, n, waits, over.value)
      ensures over.None? ==>
        old(Room()) > 0 && limiter.rpm > 0 && Running(replies, None, None, attempt + 1, n, delay, waits)
    {
      delay, waits := delay0, waits0;
      StillWanted(replies, None, attempt, n, delay, waits);
      var admission := limiter.GeminiThrottle(clock);
      if admission != Sent {
        over := Some(if admission == DayOver then Quota else Crashed);
        return;
      }
      ghost var sentAt := clock.now;
      over, delay, waits := Send(clock, replies, attempt, n, delay, waits);
      limiter.TracksLater(sentAt, clock.now);
    }

    /** The request itself, and what its reply leads to. */
    method Send(clock: Clock, replies: seq<Reply>, attempt: nat, n: nat, delay0: real, waits0: seq<real>)
      returns (over: Option<Result>, delay: real, waits: seq<real>)
      requires attempt < n && Running(replies, None, None, attempt, n, delay0, waits0)
      modifies clock
      ensures clock.now >= old(clock.now)
      ensures over.Some? ==> Ended(replies, None, attempt + 1, n, waits, over.value)
      ensures over.None? ==> Running(replies, None, None, attempt + 1, n, delay, waits)
    {
      delay, waits := delay0, waits0;
      RunOn(replies, None, None, attempt, n, delay, waits);
      Plain(replies[attempt], delay);
      over := Handle(clock, replies[attempt], delay, attempt == n - 1);
      if over.None? {
        waits, delay := waits + [delay], 2.0 * delay;
      }
    }

    /** One request with its retries, under a daily cap that is read before every attempt. */
    method Post(clock: Clock, replies: seq<Reply>) returns (result: Result, waits: seq<real>)
      requires limiter.Valid(clock) && |replies| >= Attempts(maxRetries)
      modifies limiter, clock
      ensures limiter.Valid(clock)
      ensures limiter.requestsToday - old(limiter.requestsToday) == |limiter.sent| - |old(limiter.sent)|
      ensures limiter.rpm >= 1 ==> Posted(replies, |limiter.sent| - |old(limiter.sent)|, old(Room()), waits, result)
      ensures limiter.rpm <= 0 ==> |limiter.sent| == |old(limiter.sent)|
      ensures limiter.rpm <= 0 ==>
        result == if maxRetries <= 0 then Failed else if old(Room()) == 0 then Quota else Crashed
    {
      var delay, attempt, n := 2.0, 0, Attempts(maxRetries);
      ghost var room := Room();
      waits := [];
      NotYet(replies, None, n);
      while attempt < n
        invariant 0 <= attempt <= n && attempt <= room
        invariant limiter.Valid(clock)
        invariant |limiter.sent| == |old(limiter.sent)| + attempt
        invariant limiter.requestsToday == old(limiter.requestsToday) + attempt
        invariant limiter.rpm <= 0 ==> attempt == 0
        invariant Running(replies, None, None, attempt, n, delay, waits)
      {
        var over;
        over, delay, waits := Attempt(clock, replies, attempt, n, delay, waits);
        if over.Some? {
          return over.value, waits;
        }
        attempt := attempt + 1;
      }
      RanOut(replies, None, None, n, delay, waits);
      result := Failed;
    }

    /** The call ran its course, within what the daily cap had room for; or the cap ended
        it short of that, as a quota stop. */
    ghost predicate Posted(replies: seq<Reply>, sent: int, room: nat, waits: seq<real>, result: Result) {
      var n := Attempts(maxRetries);
      if Least(Settles(replies, None) + 1, n) <= room
      then Ended(replies, None, sent, n, waits, result)
      else sent == room && result == Quota
    }
  }
}
