/** Client-side pacing: the sliding-window limiter and the retry loops around it. */
module Throttle {
  import opened Options

  // ------------------------------------------------------------------------ clock

  /** The monotonic clock: each reading is at least the one before, and a sleep lasts at
      least as long as asked. `asked` is every sleep asked of it. */
  class Clock {
    var now: real
    ghost var asked: seq<real>

    constructor () {
      now := *;
      asked := [];
    }

    method Read() returns (t: real)
      modifies this
      ensures t == now && now >= old(now) && asked == old(asked)
    {
      var passed: real := *;
      now := now + (if passed > 0.0 then passed else 0.0);
      t := now;
    }

    method Sleep(seconds: real)
      modifies this
      ensures now >= old(now) && now >= old(now) + seconds && asked == old(asked) + [seconds]
    {
      var extra: real := *;
      asked := asked + [seconds];
      now := now + (if seconds > 0.0 then seconds else 0.0) + (if extra > 0.0 then extra else 0.0);
    }
  }

  // ---------------------------------------------------------------------- spacing

  ghost predicate Ascending(s: seq<real>) {
    forall i, j :: 0 <= i <= j < |s| ==> s[i] <= s[j]
  }

  /** Any request and the `rpm`-th one after it are a minute apart. */
  ghost predicate Spaced(sent: seq<real>, rpm: nat) {
    forall k :: 0 <= k && k + rpm < |sent| ==> sent[k + rpm] - sent[k] >= 60.0
  }

  /** The entries of the window younger than a minute: the pruning comprehension. */
  function Recent(window: seq<real>, now: real): (kept: seq<real>) {
    if window == [] then []
    else if now - window[0] < 60.0 then [window[0]] + Recent(window[1..], now)
    else Recent(window[1..], now)
  }

  /** On an ascending window pruning cuts off a prefix, all of it at least a minute old. */
  lemma {:induction false} RecentIsSuffix(window: seq<real>, now: real)
    requires Ascending(window)
    ensures |Recent(window, now)| <= |window|
    ensures Recent(window, now) == window[|window| - |Recent(window, now)|..]
    ensures forall i :: 0 <= i < |window| - |Recent(window, now)| ==> now - window[i] >= 60.0
    ensures forall i :: |window| - |Recent(window, now)| <= i < |window| ==> now - window[i] < 60.0
  {
    if window != [] {
      var rest := window[1..];
      RecentIsSuffix(rest, now);
      if now - window[0] >= 60.0 {
        forall i | 0 <= i < |window| - |Recent(window, now)|
          ensures now - window[i] >= 60.0
        {
          if i > 0 {
            assert rest[i - 1] == window[i];
          }
        }
        forall i | |window| - |Recent(window, now)| <= i < |window|
          ensures now - window[i] < 60.0
        {
          assert rest[i - 1] == window[i];
        }
      }
    }
  }

  /** How many requests fall in the minute that starts at `a`. */
  function InMinute(sent: seq<real>, a: real): (n: nat)
    ensures n <= |sent|
  {
    if sent == [] then 0
    else InMinute(sent[..|sent| - 1], a) + (if a <= sent[|sent| - 1] < a + 60.0 then 1 else 0)
  }

  lemma {:induction false} EarlierNotCounted(sent: seq<real>, a: real, m: nat)
    requires m <= |sent| && forall i :: 0 <= i < m ==> sent[i] < a
    ensures InMinute(sent, a) <= |sent| - m
  {
    if m < |sent| {
      EarlierNotCounted(sent[..|sent| - 1], a, m);
    } else if sent != [] {
      EarlierNotCounted(sent[..|sent| - 1], a, m - 1);
    }
  }

  /** No minute, wherever it starts, holds more than `rpm` requests. */
  lemma {:induction false} AtMostRpmAMinute(sent: seq<real>, rpm: nat, a: real)
    requires rpm >= 1 && Ascending(sent) && Spaced(sent, rpm)
    ensures InMinute(sent, a) <= rpm
  {
    if sent != [] {
      var last := |sent| - 1;
      if a <= sent[last] < a + 60.0 {
        if last >= rpm {
          assert sent[(last - rpm) + rpm] - sent[last - rpm] >= 60.0;
          EarlierNotCounted(sent, a, last - rpm + 1);
        }
      } else {
        AtMostRpmAMinute(sent[..last], rpm, a);
      }
    }
  }

  /** Conversely, spacing is what the bound needs: a request less than a minute after the
      `rpm`-th one before it makes some minute hold more than `rpm`. */
  lemma {:induction false} CountsInMinute(sent: seq<real>, a: real, i: nat)
    requires i <= |sent| && forall k :: i <= k < |sent| ==> a <= sent[k] < a + 60.0
    ensures InMinute(sent, a) >= |sent| - i
  {
    if i < |sent| {
      CountsInMinute(sent[..|sent| - 1], a, i);
    }
  }

  lemma {:induction false} InMinuteGrows(sent: seq<real>, a: real, n: nat)
    requires n <= |sent|
    ensures InMinute(sent[..n], a) <= InMinute(sent, a)
  {
    if n < |sent| {
      InMinuteGrows(sent[..|sent| - 1], a, n);
      assert sent[..|sent| - 1][..n] == sent[..n];
    } else {
      assert sent[..n] == sent;
    }
  }

  lemma SpacedExactlyWhen(sent: seq<real>, rpm: nat)
    requires rpm >= 1 && Ascending(sent)
    ensures Spaced(sent, rpm) <==> forall a :: InMinute(sent, a) <= rpm
  {
    if Spaced(sent, rpm) {
      forall a
        ensures InMinute(sent, a) <= rpm
      {
        AtMostRpmAMinute(sent, rpm, a);
      }
    } else {
      var k :| 0 <= k && k + rpm < |sent| && sent[k + rpm] - sent[k] < 60.0;
      CountsInMinute(sent[..k + rpm + 1], sent[k], k);
      InMinuteGrows(sent, sent[k], k + rpm + 1);
      assert InMinute(sent, sent[k]) > rpm;
    }
  }

  lemma EndOfEnd(s: seq<real>, m: nat, k: nat)
    requires k <= m <= |s|
    ensures s[|s| - m..][m - k..] == s[|s| - k..]
    ensures forall i :: |s| - m <= i < |s| ==> s[i] == s[|s| - m..][i - (|s| - m)]
  {
  }

  lemma AscendingEnd(s: seq<real>, m: nat)
    requires m <= |s| && Ascending(s)
    ensures Ascending(s[|s| - m..])
  {
  }

  /** What is pruned from the end of `sent` is a minute old, and so is all before it. */
  lemma PrunedEnd(sent: seq<real>, window: seq<real>, later: real)
    requires |window| <= |sent| && window == sent[|sent| - |window|..] && Ascending(sent)
    requires forall i :: 0 <= i < |sent| - |window| ==> later - sent[i] >= 60.0
    ensures var kept := Recent(window, later);
      && |kept| <= |window| && kept == sent[|sent| - |kept|..]
      && (forall i :: 0 <= i < |sent| - |kept| ==> later - sent[i] >= 60.0)
      && (forall i :: 0 <= i < |kept| ==> later - kept[i] < 60.0)
  {
    var kept := Recent(window, later);
    AscendingEnd(sent, |window|);
    RecentIsSuffix(window, later);
    EndOfEnd(sent, |window|, |kept|);
    forall i | 0 <= i < |sent| - |kept|
      ensures later - sent[i] >= 60.0
    {
      if i >= |sent| - |window| {
        assert sent[i] == window[i - (|sent| - |window|)];
      }
    }
  }

  /** At most one sleep is asked for: when, at some time between, the `rpm`-th last request was
      under a minute old, and then only for what it still lacked and a quarter of a second. */
  ghost predicate Slept(before: seq<real>, after: seq<real>, sent: seq<real>, rpm: nat, from: real, to: real) {
    after == before ||
    (&& 1 <= rpm <= |sent|
     && exists at: real :: from <= at <= to && SleptOut(before, after, sent, rpm, at))
  }

  ghost predicate SleptOut(before: seq<real>, after: seq<real>, sent: seq<real>, rpm: nat, at: real)
    requires 1 <= rpm <= |sent|
  {
    var oldest := sent[|sent| - rpm];
    at - oldest < 60.0 && after == before + [60.25 - (at - oldest)]
  }

  // ---------------------------------------------------------------------- limiter

  /** What becomes of one attempt to send: sent, refused by the daily cap, or an
      exception (a cap of no requests a minute reads an empty window). */
  datatype Admission = Sent | DayOver | Broken

  class Limiter {
    const rpm: int
    const rpd: int
    var window: seq<real>
    var requestsToday: nat
    ghost var sent: seq<real>

    /** The window is the end of everything sent, and all that was pruned from it is at
        least a minute older than any later request. */
    ghost predicate Tracks(now: real)
      reads this
    {
      && |window| <= |sent| && window == sent[|sent| - |window|..]
      && Ascending(sent)
      && (forall i :: 0 <= i < |sent| ==> sent[i] <= now)
      && forall i :: 0 <= i < |sent| - |window| ==> now - sent[i] >= 60.0
    }

    ghost predicate Valid(clock: Clock)
      reads this, clock
    {
      && (rpm >= 1 ==> Tracks(clock.now) && |window| <= rpm && Spaced(sent, rpm))
      && (requestsToday == 0 || requestsToday <= rpd)
    }

    constructor (rpm: int, rpd: int)
      ensures this.rpm == rpm && this.rpd == rpd && sent == [] && window == [] && requestsToday == 0
    {
      this.rpm := rpm;
      this.rpd := rpd;
      window, requestsToday, sent := [], 0, [];
    }

    /** What is tracked at one time is tracked at any later one. */
    lemma TracksLater(now: real, later: real)
      requires Tracks(now) && later >= now
      ensures Tracks(later) && Ascending(window)
    {
      AscendingEnd(sent, |window|);
    }

    lemma PrunedTracks(now: real, later: real)
      requires Tracks(now) && later >= now
      ensures var kept := Recent(window, later);
        && |kept| <= |window| && kept == sent[|sent| - |kept|..]
        && (forall i :: 0 <= i < |sent| - |kept| ==> later - sent[i] >= 60.0)
        && (forall i :: 0 <= i < |kept| ==> later - kept[i] < 60.0)
    {
      PrunedEnd(sent, window, later);
    }

    method Prune(clock: Clock) returns (now: real)
      requires Tracks(clock.now)
      modifies clock, this`window
      ensures now == clock.now >= old(clock.now) && Tracks(now) && clock.asked == old(clock.asked)
      ensures window == Recent(old(window), now) && |window| <= |old(window)|
      ensures forall i :: 0 <= i < |window| ==> now - window[i] < 60.0
    {
      now := clock.Read();
      PrunedTracks(old(clock.now), now);
      window := Recent(window, now);
    }

    /** Waits, if the window is full, for the oldest request in it to age out; then
        records the new one. */
    method Pace(clock: Clock)
      requires Valid(clock) && rpm >= 1
      modifies clock, this`window, this`sent
      ensures Valid(clock) && clock.now >= old(clock.now)
      ensures sent == old(sent) + [clock.now]
      ensures Slept(old(clock.asked), clock.asked, old(sent), rpm, old(clock.now), clock.now)
    {
      var now := Prune(clock);
      assert |window| >= rpm ==> window[0] == sent[|sent| - rpm];
      if |window| >= rpm {
        ghost var at := now;
        now := AgeOut(clock, now);
        assert SleptOut(old(clock.asked), clock.asked, sent, rpm, at);
      }
      Admit(clock, now);
    }

    /** Sleeps until the oldest request in a full window is a minute old, and prunes it. */
    method AgeOut(clock: Clock, now0: real) returns (now: real)
      requires now0 == clock.now && Tracks(now0) && |window| == rpm >= 1
      modifies clock, this`window
      ensures now == clock.now >= old(clock.now) && Tracks(now) && |window| < rpm
      ensures var wait := 60.25 - (now0 - old(window[0]));
        clock.asked == old(clock.asked) + if wait > 0.0 then [wait] else []
    {
      ghost var full := window;
      var oldest := window[0];
      SleepOut(clock, now0, oldest);
      TracksLater(now0, clock.now);
      ghost var woken := clock.now;
      now := Prune(clock);
      OldestGoes(full, woken, now);
    }

    static method SleepOut(clock: Clock, now: real, oldest: real)
      requires now == clock.now
      modifies clock
      ensures clock.now >= now && clock.now - oldest >= 60.0
      ensures clock.asked == old(clock.asked) + if 60.25 - (now - oldest) > 0.0 then [60.25 - (now - oldest)] else []
    {
      var wait := 60.0 - (now - oldest) + 0.25;
      if wait > 0.0 {
        clock.Sleep(wait);
      }
    }

    static lemma OldestGoes(full: seq<real>, woken: real, now: real)
      requires full != [] && Ascending(full) && woken - full[0] >= 60.0 && now >= woken
      ensures |Recent(full, now)| < |full|
    {
      RecentIsSuffix(full, now);
    }

    method Admit(clock: Clock, now: real)
      requires Tracks(now) && now == clock.now && |window| < rpm && Spaced(sent, rpm)
      requires requestsToday == 0 || requestsToday <= rpd
      modifies this`window, this`sent
      ensures Valid(clock) && sent == old(sent) + [now]
    {
      window, sent := window + [now], sent + [now];
    }

    /** The free-tier guard: a cap a day, then a cap a minute. */
    method GeminiThrottle(clock: Clock) returns (admission: Admission)
      requires Valid(clock)
      modifies clock, this
      ensures Valid(clock) && clock.now >= old(clock.now)
      ensures admission == if old(requestsToday) >= rpd then DayOver else if rpm <= 0 then Broken else Sent
      ensures requestsToday == old(requestsToday) + (if admission == Sent then 1 else 0)
      ensures sent == if admission == Sent then old(sent) + [clock.now] else old(sent)
    {
      if requestsToday >= rpd {
        return DayOver;
      }
      if rpm <= 0 {
        return Broken;
      }
      Pace(clock);
      requestsToday := requestsToday + 1;
      admission := Sent;
    }

    /** The operator's own guard, off unless configured. */
    method OpenAiThrottle(clock: Clock)
      requires Valid(clock)
      modifies clock, this
      ensures Valid(clock) && clock.now >= old(clock.now)
      ensures sent == old(sent) + [clock.now] && requestsToday == old(requestsToday)
      ensures rpm <= 0 ==> clock.now == old(clock.now)
    {
      if rpm <= 0 {
        sent := sent + [clock.now];
      } else {
        Pace(clock);
      }
    }
  }
}
