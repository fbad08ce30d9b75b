/** Splitting a session into overlapping extraction windows. */
module Windows {
  import opened Options

  datatype Window<Turn> = Window(turns: seq<Turn>, index: nat)

  /** Joins the first `n` windows back, dropping from each after the first the turns it
      repeats. */
  function Rejoined<Turn>(windows: seq<Window<Turn>>, overlap: nat, n: nat): seq<Turn>
    requires n <= |windows|
  {
    if n == 0 then []
    else if n == 1 then windows[0].turns
    else
      var last := windows[n - 1].turns;
      Rejoined(windows, overlap, n - 1) + (if overlap <= |last| then last[overlap..] else [])
  }

  function Rejoin<Turn>(windows: seq<Window<Turn>>, overlap: nat): seq<Turn> {
    Rejoined(windows, overlap, |windows|)
  }

  /** Where the window of index `i` starts. */
  function Start(i: nat, step: nat): nat {
    if i == 0 then 0 else Start(i - 1, step) + step
  }

  /** Window `i` is the slice of the session at its start, as long as allowed. */
  ghost predicate Cut<Turn>(turns: seq<Turn>, w: Window<Turn>, i: nat, max: nat, step: nat) {
    && w.index == i
    && Start(i, step) <= |turns|
    && w.turns == turns[Start(i, step)..(if Start(i, step) + max <= |turns| then Start(i, step) + max else |turns|)]
  }

  ghost predicate AllCut<Turn>(turns: seq<Turn>, windows: seq<Window<Turn>>, max: nat, step: nat) {
    forall i :: 0 <= i < |windows| ==> Cut(turns, windows[i], i, max, step)
  }

  lemma Next(i: nat, step: nat)
    ensures Start(i + 1, step) == Start(i, step) + step
  {
  }

  lemma {:induction false} StartsGrow(i: nat, j: nat, step: nat)
    requires i <= j
    ensures Start(i, step) <= Start(j, step)
  {
    if i < j {
      StartsGrow(i, j - 1, step);
      Next(j - 1, step);
    }
  }

  /** What a cut window holds. */
  lemma CutMeans<Turn>(turns: seq<Turn>, w: Window<Turn>, i: nat, max: nat, step: nat)
    requires Cut(turns, w, i, max, step)
    ensures |w.turns| == if Start(i, step) + max <= |turns| then max else |turns| - Start(i, step)
    ensures Start(i, step) + |w.turns| <= |turns| && w.turns == turns[Start(i, step)..Start(i, step) + |w.turns|]
  {
  }

  lemma OneMoreCut<Turn>(turns: seq<Turn>, windows: seq<Window<Turn>>, w: Window<Turn>, max: nat, step: nat)
    requires AllCut(turns, windows, max, step) && Cut(turns, w, |windows|, max, step)
    ensures AllCut(turns, windows + [w], max, step)
  {
  }

  /** The windows of a session: `None` is the error for a bad size or overlap. The one
      bound the code does not check is from below: `overlap` may be negative. */
  method WindowSessions<Turn>(turns: seq<Turn>, max: int, overlap: int) returns (windows: Option<seq<Window<Turn>>>)
    ensures windows.None? <==> max <= 0 || overlap >= max
    ensures windows.Some? && |turns| <= max ==> windows.value == [Window(turns, 0)]
    ensures windows.Some? && |turns| > max ==>
      && AllCut(turns, windows.value, max, max - overlap)
      && Complete(turns, |windows.value|, max, max - overlap)
  {
    if max <= 0 || overlap >= max {
      return None;
    }
    if |turns| <= max {
      return Some([Window(turns, 0)]);
    }
    var step := max - overlap;
    var out: seq<Window<Turn>> := [];
    var start := 0;
    while start < |turns|
      invariant start == Start(|out|, step) && AllCut(turns, out, max, step)
      invariant forall i :: 0 <= i < |out| ==> Start(i, step) + max < |turns|
      decreases |turns| - start
    {
      var chunk := turns[start..(if start + max <= |turns| then start + max else |turns|)];
      if chunk == [] {
        break;
      }
      OneMoreCut(turns, out, Window(chunk, |out|), max, step);
      out := out + [Window(chunk, |out|)];
      if start + max >= |turns| {
        break;
      }
      Next(|out| - 1, step);
      start := start + step;
    }
    windows := Some(out);
  }

  /** There are windows up to the first that reaches the end of the session, or, if a step
      jumps over the end, up to the last that starts inside it. */
  ghost predicate Complete(turns: seq, count: nat, max: nat, step: nat) {
    && count >= 1
    && (forall i :: 0 <= i < count - 1 ==> Start(i, step) + max < |turns|)
    && Start(count - 1, step) < |turns|
    && (Start(count - 1, step) + max >= |turns| || Start(count, step) >= |turns|)
  }

  // ------------------------------------------------------------------ what they hold

  /** With an overlap that is not negative every window but the last is full, each adds at
      least one turn to those before it, and the last ends the session. */
  lemma EachWindowAdds<Turn>(turns: seq<Turn>, windows: seq<Window<Turn>>, max: nat, overlap: nat, i: nat)
    requires overlap < max < |turns| && i < |windows|
    requires AllCut(turns, windows, max, max - overlap) && Complete(turns, |windows|, max, max - overlap)
    ensures i < |windows| - 1 ==> |windows[i].turns| == max
    ensures i == |windows| - 1 ==> Start(i, max - overlap) + |windows[i].turns| == |turns|
    ensures |windows[i].turns| > if i == 0 then 0 else overlap
  {
    var step := max - overlap;
    assert Cut(turns, windows[i], i, max, step);
    Next(|windows| - 1, step);
    if i > 0 {
      Next(i - 1, step);
      assert Start(i - 1, step) + max < |turns|;
    }
  }

  /** A later window repeats the last `overlap` turns before it. */
  lemma WindowRepeats<Turn>(turns: seq<Turn>, windows: seq<Window<Turn>>, max: nat, overlap: nat, k: nat)
    requires overlap < max < |turns| && 1 <= k < |windows|
    requires AllCut(turns, windows, max, max - overlap) && Complete(turns, |windows|, max, max - overlap)
    ensures Start(k - 1, max - overlap) + |windows[k - 1].turns| == Start(k, max - overlap) + overlap
    ensures overlap <= |windows[k].turns|
  {
    EachWindowAdds(turns, windows, max, overlap, k - 1);
    EachWindowAdds(turns, windows, max, overlap, k);
    Next(k - 1, max - overlap);
  }

  /** Windows that lie in the session at the given places, each after the first repeating
      the last `overlap` turns before it. */
  ghost predicate Chained<Turn>(turns: seq<Turn>, windows: seq<Window<Turn>>, at: seq<nat>, overlap: nat) {
    && |at| == |windows| > 0 && at[0] == 0
    && (forall k :: 0 <= k < |windows| ==> LiesAt(turns, windows[k].turns, at[k]))
    && (forall k :: 1 <= k < |windows| ==>
          at[k - 1] + |windows[k - 1].turns| == at[k] + overlap && overlap <= |windows[k].turns|)
  }

  ghost predicate LiesAt<Turn>(turns: seq<Turn>, w: seq<Turn>, a: nat) {
    a + |w| <= |turns| && w == turns[a..a + |w|]
  }

  lemma Extends<Turn>(turns: seq<Turn>, a: nat, w: seq<Turn>, overlap: nat)
    requires LiesAt(turns, w, a) && overlap <= |w|
    ensures turns[..a + overlap] + w[overlap..] == turns[..a + |w|]
  {
    assert w[overlap..] == turns[a + overlap..a + |w|];
  }

  /** The first `n` of them, rejoined, are the session as far as they reach. */
  lemma {:induction false} RejoinFirst<Turn>(turns: seq<Turn>, windows: seq<Window<Turn>>, at: seq<nat>, overlap: nat,
                                             n: nat)
    requires Chained(turns, windows, at, overlap) && 1 <= n <= |windows|
    ensures at[n - 1] + |windows[n - 1].turns| <= |turns|
    ensures Rejoined(windows, overlap, n) == turns[..at[n - 1] + |windows[n - 1].turns|]
  {
    assert LiesAt(turns, windows[n - 1].turns, at[n - 1]);
    if n > 1 {
      RejoinFirst(turns, windows, at, overlap, n - 1);
      Extends(turns, at[n - 1], windows[n - 1].turns, overlap);
    }
  }

  lemma WindowsAreChained<Turn>(turns: seq<Turn>, windows: seq<Window<Turn>>, max: nat, overlap: nat)
    returns (at: seq<nat>)
    requires overlap < max < |turns|
    requires AllCut(turns, windows, max, max - overlap) && Complete(turns, |windows|, max, max - overlap)
    ensures Chained(turns, windows, at, overlap)
    ensures at[|windows| - 1] == Start(|windows| - 1, max - overlap)
  {
    var step := max - overlap;
    at := seq(|windows|, i requires 0 <= i < |windows| => Start(i, step));
    forall k | 0 <= k < |windows|
      ensures LiesAt(turns, windows[k].turns, at[k])
    {
      CutMeans(turns, windows[k], k, max, step);
    }
    forall k | 1 <= k < |windows|
      ensures at[k - 1] + |windows[k - 1].turns| == at[k] + overlap && overlap <= |windows[k].turns|
    {
      WindowRepeats(turns, windows, max, overlap, k);
    }
  }

  /** Nothing is lost and nothing else repeated: the first window followed by what each
      later one adds is the session. */
  lemma Reconstruction<Turn>(turns: seq<Turn>, windows: seq<Window<Turn>>, max: nat, overlap: nat)
    requires overlap < max < |turns|
    requires AllCut(turns, windows, max, max - overlap) && Complete(turns, |windows|, max, max - overlap)
    ensures Rejoin(windows, overlap) == turns
  {
    var at := WindowsAreChained(turns, windows, max, overlap);
    RejoinFirst(turns, windows, at, overlap, |windows|);
    EachWindowAdds(turns, windows, max, overlap, |windows| - 1);
    assert turns[..|turns|] == turns;
  }

  // ------------------------------------------------------------- negative overlap

  /** Turn `t` is in some window. */
  ghost predicate Covered(t: nat, count: nat, max: nat, step: nat) {
    exists i :: 0 <= i < count && InWindow(t, i, max, step)
  }

  ghost predicate AllCovered(length: nat, count: nat, max: nat, step: nat) {
    forall t :: 0 <= t < length ==> Covered(t, count, max, step)
  }

  ghost predicate InWindow(t: nat, i: nat, max: nat, step: nat) {
    Start(i, step) <= t < Start(i, step) + max
  }

  /** The windows that start at or before `t` leave out no turn up to it. */
  lemma {:induction false} FindWindow(t: nat, count: nat, max: nat, step: nat)
    requires 1 <= step <= max && count >= 1 && t < Start(count - 1, step) + max
    ensures Covered(t, count, max, step)
  {
    if t >= Start(count - 1, step) {
      assert InWindow(t, count - 1, max, step);
    } else {
      assert count > 1 by {
        assert Start(0, step) == 0;
      }
      Next(count - 2, step);
      FindWindow(t, count - 1, max, step);
      var i :| 0 <= i < count - 1 && InWindow(t, i, max, step);
      assert InWindow(t, i, max, step);
    }
  }

  /** The turn just after the first window lies in a gap once a step is longer than a window. */
  lemma GapAfterFirst(count: nat, max: nat, step: nat)
    requires max < step
    ensures !Covered(max, count, max, step)
  {
    forall i | 0 <= i < count
      ensures !InWindow(max, i, max, step)
    {
      if i > 0 {
        StartsGrow(1, i, step);
      }
    }
  }

  /** A split session is wholly covered exactly when the overlap is not negative. */
  lemma CoveredExactlyWhen(turns: seq, count: nat, max: nat, overlap: int)
    requires 1 <= max < |turns| && overlap < max
    requires Complete(turns, count, max, max - overlap)
    ensures AllCovered(|turns|, count, max, max - overlap) <==> overlap >= 0
  {
    var step := max - overlap;
    if overlap >= 0 {
      Next(count - 1, step);
      forall t | 0 <= t < |turns|
        ensures Covered(t, count, max, step)
      {
        FindWindow(t, count, max, step);
      }
    } else {
      GapAfterFirst(count, max, step);
    }
  }
}
