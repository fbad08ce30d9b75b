/** How a run buckets the reason it stopped, by the words in it. */
module StopReason {
  import opened Options
  import opened Pool
  import opened Scoring

  const TRANSIENT_SIGNS: seq<string> := ["transientclierror", "cli could not be launched", "the cli was not found"]

  const USAGE_SIGNS: seq<string> := [
    "usage limit", "quota", "429", "out of usage", "out of extra usage",
    "rate limit", "resets", "limit reached", "limit exceeded"]

  function LowerCase(s: string): string {
    seq(|s|, i requires 0 <= i < |s| => Lower(s[i]))
  }

  predicate Names(text: string, signs: seq<string>) {
    exists i :: 0 <= i < |signs| && Contains(text, signs[i])
  }

  /** `stop_class`: an outage of the command line heals itself; a cap resets; anything else
      wants a person. */
  function StopClass(reason: string): string {
    var r := LowerCase(reason);
    if Names(r, TRANSIENT_SIGNS) then "transient" else if Names(r, USAGE_SIGNS) then "usage" else "halt"
  }

  const BREAKER := "5 consecutive judge failures; last: "
  const QUOTA := "quota: "

  /** The reason a grading phase gives for its stop. */
  function JudgeReason(stop: Stop): string {
    match stop
    case UsageLimit(message) => QUOTA + message
    case Breaker(_, last) => BREAKER + last
    case Residual(_, last) => last
  }

  function JudgeClass(stop: Stop): string {
    StopClass(JudgeReason(stop))
  }

  const LAUNCH_FAILURE := "TransientCLIError"

  /** The class an answer phase declares: its breaker is an outage exactly when the last
      reader error begins as one, and otherwise a cap. */
  function ReaderClass(stop: Stop): string {
    if stop.Breaker? && LAUNCH_FAILURE <= stop.last then "transient" else "usage"
  }

  /** Case does not matter to the class of a reason. */
  lemma ClassIgnoresCase(a: string, b: string)
    requires |a| == |b| && forall i :: 0 <= i < |a| ==> SameButCase(a[i], b[i])
    ensures StopClass(a) == StopClass(b)
  {
    assert forall i :: 0 <= i < |a| ==> Lower(a[i]) == Lower(b[i]);
    assert LowerCase(a) == LowerCase(b);
  }

  // --------------------------------------------------------- what a prefix adds to it

  /** A sign that neither begins with a space nor holds a colon does not straddle ": ". */
  predicate Whole(sign: string) {
    sign != "" && sign[0] != ' ' && forall i :: 0 <= i < |sign| ==> sign[i] != ':'
  }

  lemma NotAcross(head: string, tail: string, sign: string, i: nat)
    requires Whole(sign) && i <= |head| + 1 && i + |sign| > |head|
    ensures !At(head + ": " + tail, sign, i)
  {
    var s := head + ": " + tail;
    if i + |sign| <= |s| {
      if i <= |head| {
        assert s[i..i + |sign|][|head| - i] == s[|head|] == ':';
      } else {
        assert s[i..i + |sign|][0] == s[i] == ' ';
      }
    }
  }

  lemma SliceOfFirst(a: string, b: string, i: nat, j: nat)
    requires i <= j <= |a|
    ensures (a + b)[i..j] == a[i..j]
  {
  }

  lemma SliceOfSecond(a: string, b: string, i: nat, j: nat)
    requires |a| <= i <= j <= |a + b|
    ensures (a + b)[i..j] == b[i - |a|..j - |a|]
  {
  }

  lemma NoStraddle(head: string, tail: string, sign: string)
    requires Whole(sign)
    ensures Contains(head + ": " + tail, sign) <==> Contains(head, sign) || Contains(tail, sign)
  {
    var s, n := head + ": " + tail, |head|;
    if i :| 0 <= i <= |s| && At(s, sign, i) {
      if i <= n + 1 && i + |sign| > n {
        NotAcross(head, tail, sign, i);
      } else if i + |sign| <= n {
        SliceOfFirst(head, ": " + tail, i, i + |sign|);
        assert head + (": " + tail) == s;
        assert At(head, sign, i);
      } else {
        SliceOfSecond(head + ": ", tail, i, i + |sign|);
        assert At(tail, sign, i - n - 2);
      }
    }
    if Contains(head, sign) {
      ContainsInside(head, sign, "", ": " + tail);
      assert "" + head + (": " + tail) == s;
    }
    if Contains(tail, sign) {
      ContainsInside(tail, sign, head + ": ", "");
      assert (head + ": ") + tail + "" == s;
    }
  }

  lemma MissingChar(head: string, sign: string, k: nat)
    requires k < |sign| && forall i :: 0 <= i < |head| ==> head[i] != sign[k]
    ensures !Contains(head, sign)
  {
    forall i | 0 <= i <= |head|
      ensures !At(head, sign, i)
    {
      if i + |sign| <= |head| {
        assert head[i..i + |sign|][k] == head[i + k];
      }
    }
  }

  lemma MissingStart(head: string, sign: string, k: nat)
    requires 0 < k < |sign|
    requires forall i :: 0 <= i < |head| - k ==> head[i] != sign[0] || head[i + k] != sign[k]
    ensures !Contains(head, sign)
  {
    forall i | 0 <= i <= |head|
      ensures !At(head, sign, i)
    {
      if i + |sign| <= |head| {
        assert head[i..i + |sign|][0] == head[i] && head[i..i + |sign|][k] == head[i + k];
      }
    }
  }

  const BREAKER_HEAD := "5 consecutive judge failures; last"

  lemma NoLaunchSign()
    ensures !Contains(BREAKER_HEAD, "transientclierror")
  {
    MissingStart(BREAKER_HEAD, "transientclierror", 1);
  }

  lemma NoTransientSign()
    ensures !Names(BREAKER_HEAD, TRANSIENT_SIGNS)
  {
    NoLaunchSign();
    MissingChar(BREAKER_HEAD, "cli could not be launched", 14);
    MissingChar(BREAKER_HEAD, "the cli was not found", 1);
  }

  lemma NoCapSign()
    ensures !Contains(BREAKER_HEAD, "usage limit") && !Contains(BREAKER_HEAD, "quota")
    ensures !Contains(BREAKER_HEAD, "429")
  {
    MissingChar(BREAKER_HEAD, "usage limit", 8);
    MissingChar(BREAKER_HEAD, "quota", 0);
    MissingChar(BREAKER_HEAD, "429", 0);
  }

  lemma NoLimitSign()
    ensures !Contains(BREAKER_HEAD, "rate limit")
    ensures !Contains(BREAKER_HEAD, "limit reached") && !Contains(BREAKER_HEAD, "limit exceeded")
  {
    MissingChar(BREAKER_HEAD, "rate limit", 7);
    MissingChar(BREAKER_HEAD, "limit reached", 2);
    MissingChar(BREAKER_HEAD, "limit exceeded", 2);
  }

  lemma NoOutSign()
    ensures !Contains(BREAKER_HEAD, "out of usage") && !Contains(BREAKER_HEAD, "out of extra usage")
  {
    MissingStart(BREAKER_HEAD, "out of usage", 1);
    MissingChar(BREAKER_HEAD, "out of extra usage", 8);
  }

  lemma NoResetSign()
    ensures !Contains(BREAKER_HEAD, "resets")
  {
    MissingStart(BREAKER_HEAD, "resets", 3);
  }

  /** The breaker's own words hold no sign. */
  lemma NoUsageSign()
    ensures !Names(BREAKER_HEAD, USAGE_SIGNS)
  {
    NoCapSign();
    NoLimitSign();
    NoOutSign();
    NoResetSign();
  }

  lemma SignsAreWhole()
    ensures forall i :: 0 <= i < |TRANSIENT_SIGNS| ==> Whole(TRANSIENT_SIGNS[i])
    ensures forall i :: 0 <= i < |USAGE_SIGNS| ==> Whole(USAGE_SIGNS[i])
  {
  }

  lemma NamesPrefixed(head: string, tail: string, signs: seq<string>)
    requires forall i :: 0 <= i < |signs| ==> Whole(signs[i])
    ensures Names(head + ": " + tail, signs) <==> Names(head, signs) || Names(tail, signs)
  {
    forall i | 0 <= i < |signs|
      ensures Contains(head + ": " + tail, signs[i]) <==> Contains(head, signs[i]) || Contains(tail, signs[i])
    {
      NoStraddle(head, tail, signs[i]);
    }
  }

  lemma LowerAlready(head: string, tail: string)
    requires forall i :: 0 <= i < |head| ==> Lower(head[i]) == head[i]
    ensures LowerCase(head + ": " + tail) == head + ": " + LowerCase(tail)
  {
  }

  /** The class of a tripped judge breaker is that of its last error: it is rerouted to a
      back-off or a sleep exactly when that error names an outage or a cap. */
  lemma BreakerClass(failures: nat, error: string)
    ensures JudgeReason(Breaker(failures, error)) == "5 consecutive judge failures; last: " + error
    ensures JudgeClass(Breaker(failures, error)) == StopClass(error)
  {
    assert BREAKER == BREAKER_HEAD + ": ";
    LowerAlready(BREAKER_HEAD, error);
    SignsAreWhole();
    NoTransientSign();
    NoUsageSign();
    NamesPrefixed(BREAKER_HEAD, LowerCase(error), TRANSIENT_SIGNS);
    NamesPrefixed(BREAKER_HEAD, LowerCase(error), USAGE_SIGNS);
  }

  /** A quota stop is a cap unless its message names an outage. */
  lemma QuotaClass(message: string)
    ensures JudgeClass(UsageLimit(message)) ==
      if Names(LowerCase(message), TRANSIENT_SIGNS) then "transient" else "usage"
  {
    assert QUOTA == "quota" + ": ";
    LowerAlready("quota", message);
    SignsAreWhole();
    NamesPrefixed("quota", LowerCase(message), TRANSIENT_SIGNS);
    NamesPrefixed("quota", LowerCase(message), USAGE_SIGNS);
    assert At("quota", USAGE_SIGNS[1], 0);
  }

  lemma LoweredLaunchFailure()
    ensures LowerCase(LAUNCH_FAILURE) == TRANSIENT_SIGNS[0]
  {
  }

  lemma LaunchFailureClass()
    ensures StopClass(LAUNCH_FAILURE) == "transient"
  {
    LoweredLaunchFailure();
    ContainsItself(TRANSIENT_SIGNS[0]);
    assert Contains(LowerCase(LAUNCH_FAILURE), TRANSIENT_SIGNS[0]);
  }

  /** So the rule that a breaker wants a person fails on an error that names an outage. */
  lemma BreakerRerouted(failures: nat)
    ensures JudgeClass(Breaker(failures, LAUNCH_FAILURE)) == "transient"
    ensures ReaderClass(Breaker(failures, LAUNCH_FAILURE)) == "transient"
  {
    BreakerClass(failures, LAUNCH_FAILURE);
    LaunchFailureClass();
  }
}
