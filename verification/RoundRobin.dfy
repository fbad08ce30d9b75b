/** Round-robin over buckets: the grading order of a run and the stratified subset of
    a corpus. Any prefix of the order is a balanced sample. */
module RoundRobin {
  import opened Options

  /** A row to grade, or a question to sample: its bucket (arm, category and haystack;
      or category), by rank in sorted order, and the digest of its id as a number. */
  datatype Item = Item(bucket: nat, digest: nat, id: nat, haystack: nat)

  // ------------------------------------------------------------------- the schedule

  /** What the first `r` buckets contribute to round `q`. */
  function Round(buckets: seq<seq<Item>>, q: nat, r: nat): seq<Item>
    requires r <= |buckets|
  {
    if r == 0 then []
    else Round(buckets, q, r - 1) + (if q < |buckets[r - 1]| then [buckets[r - 1][q]] else [])
  }

  function Rounds(buckets: seq<seq<Item>>, q: nat): seq<Item> {
    if q == 0 then [] else Rounds(buckets, q - 1) + Round(buckets, q - 1, |buckets|)
  }

  /** The order after `q` whole rounds and `r` more visits. */
  function Visited(buckets: seq<seq<Item>>, q: nat, r: nat): seq<Item>
    requires r <= |buckets|
  {
    Rounds(buckets, q) + Round(buckets, q, r)
  }

  function Longest(buckets: seq<seq<Item>>): (n: nat)
    ensures forall j :: 0 <= j < |buckets| ==> |buckets[j]| <= n
    ensures buckets == [] ==> n == 0
  {
    if buckets == [] then 0 else
    var n := Longest(buckets[..|buckets| - 1]);
    if |buckets[|buckets| - 1]| > n then |buckets[|buckets| - 1]| else n
  }

  /** The whole order: round by round, and within a round bucket by bucket. */
  function Schedule(buckets: seq<seq<Item>>): seq<Item> {
    Rounds(buckets, Longest(buckets))
  }

  function Min(a: nat, b: nat): nat {
    if a < b then a else b
  }

  /** How many items bucket `j` has given after `q` rounds and `r` visits. */
  function Given(buckets: seq<seq<Item>>, q: nat, r: nat, j: nat): nat
    requires j < |buckets|
  {
    Min(|buckets[j]|, q + (if j < r then 1 else 0))
  }

  function Count(s: seq<Item>, bucket: nat): nat {
    if s == [] then 0 else Count(s[..|s| - 1], bucket) + (if s[|s| - 1].bucket == bucket then 1 else 0)
  }

  /** Bucket `j` holds the items of bucket `name`, all of them and no others. */
  ghost predicate Holds(buckets: seq<seq<Item>>, j: nat, name: nat) {
    forall i, k :: 0 <= i < |buckets| && 0 <= k < |buckets[i]| ==> (buckets[i][k].bucket == name <==> i == j)
  }

  lemma {:induction false} CountJoin(a: seq<Item>, b: seq<Item>, bucket: nat)
    ensures Count(a + b, bucket) == Count(a, bucket) + Count(b, bucket)
  {
    if b == [] {
      assert a + b == a;
    } else {
      assert (a + b)[..|a + b| - 1] == a + b[..|b| - 1];
      CountJoin(a, b[..|b| - 1], bucket);
    }
  }

  lemma CountOne(item: Item, bucket: nat)
    ensures Count([item], bucket) == if item.bucket == bucket then 1 else 0
  {
    assert [item][..0] == [];
  }

  lemma {:induction false} RoundCounts(buckets: seq<seq<Item>>, q: nat, r: nat, j: nat, name: nat)
    requires Holds(buckets, j, name) && r <= |buckets| && j < |buckets|
    ensures Count(Round(buckets, q, r), name) == if j < r && q < |buckets[j]| then 1 else 0
  {
    if r > 0 {
      RoundCounts(buckets, q, r - 1, j, name);
      if q < |buckets[r - 1]| {
        CountJoin(Round(buckets, q, r - 1), [buckets[r - 1][q]], name);
        CountOne(buckets[r - 1][q], name);
      } else {
        assert Round(buckets, q, r) == Round(buckets, q, r - 1);
      }
    }
  }

  lemma RoundsCounts(buckets: seq<seq<Item>>, q: nat, j: nat, name: nat)
    requires Holds(buckets, j, name) && j < |buckets|
    ensures Count(Rounds(buckets, q), name) == Min(|buckets[j]|, q)
  {
    for p := 0 to q
      invariant Count(Rounds(buckets, p), name) == Min(|buckets[j]|, p)
    {
      RoundCounts(buckets, p, |buckets|, j, name);
      CountJoin(Rounds(buckets, p), Round(buckets, p, |buckets|), name);
    }
  }

  /** The closed form: after `q` rounds and `r` visits, bucket `j` has given
      min(|bucket j|, q + 1) items if `j < r`, else min(|bucket j|, q). */
  lemma VisitedCounts(buckets: seq<seq<Item>>, q: nat, r: nat, j: nat, name: nat)
    requires Holds(buckets, j, name) && r <= |buckets| && j < |buckets|
    ensures Count(Visited(buckets, q, r), name) == Given(buckets, q, r, j)
  {
    RoundsCounts(buckets, q, j, name);
    RoundCounts(buckets, q, r, j, name);
    CountJoin(Rounds(buckets, q), Round(buckets, q, r), name);
  }

  /** Every length is reached at some visit. */
  lemma {:induction false} PrefixIsVisited(buckets: seq<seq<Item>>, q: nat, r: nat, n: nat) returns (p: nat, s: nat)
    requires r <= |buckets| && n <= |Visited(buckets, q, r)|
    ensures s <= |buckets| && Visited(buckets, p, s) == Visited(buckets, q, r)[..n]
    decreases q, r
  {
    var v := Visited(buckets, q, r);
    if n == |v| {
      p, s := q, r;
      assert v[..n] == v;
    } else if r > 0 {
      var w := Visited(buckets, q, r - 1);
      assert v == w + (if q < |buckets[r - 1]| then [buckets[r - 1][q]] else []);
      p, s := PrefixIsVisited(buckets, q, r - 1, n);
      assert w[..n] == v[..n];
    } else {
      NextRound(buckets, q - 1);
      p, s := PrefixIsVisited(buckets, q - 1, |buckets|, n);
    }
  }

  /** Any prefix of the order is balanced: two buckets have given equally many items to
      within one, unless the one that gave less is exhausted. */
  lemma EveryPrefixBalanced(buckets: seq<seq<Item>>, n: nat, i: nat, j: nat, a: nat, b: nat)
    requires n <= |Schedule(buckets)| && i < |buckets| && j < |buckets|
    requires Holds(buckets, i, a) && Holds(buckets, j, b)
    ensures var prefix := Schedule(buckets)[..n];
      Count(prefix, a) <= Count(prefix, b) + 1 || Count(prefix, b) == |buckets[j]|
  {
    var q := Longest(buckets);
    AllVisited(buckets);
    var p, s := PrefixIsVisited(buckets, q, 0, n);
    VisitedCounts(buckets, p, s, i, a);
    VisitedCounts(buckets, p, s, j, b);
  }

  // ------------------------------------------------------------------ conservation

  function All(buckets: seq<seq<Item>>): multiset<Item> {
    if buckets == [] then multiset{}
    else All(buckets[..|buckets| - 1]) + multiset(buckets[|buckets| - 1])
  }

  /** The first items of each bucket, as many as were given. */
  function Taken(buckets: seq<seq<Item>>, q: nat, r: nat): seq<seq<Item>> {
    seq(|buckets|, j requires 0 <= j < |buckets| => buckets[j][..Given(buckets, q, r, j)])
  }

  lemma {:induction false} AllOfOneMore(a: seq<seq<Item>>, b: seq<seq<Item>>, j: nat, item: Item)
    requires |a| == |b| && j < |a| && b == a[j := a[j] + [item]]
    ensures All(b) == All(a) + multiset{item}
  {
    var last := |a| - 1;
    if j == last {
      assert a[..last] == b[..last];
    } else {
      AllOfOneMore(a[..last], b[..last], j, item);
    }
  }

  /** A visit of round `q` takes item `q` of its bucket, if there is one. */
  lemma VisitTakes(buckets: seq<seq<Item>>, q: nat, r: nat)
    requires r < |buckets|
    ensures var a, b := Taken(buckets, q, r), Taken(buckets, q, r + 1);
      b == if q < |buckets[r]| then a[r := a[r] + [buckets[r][q]]] else a
  {
    var a, b := Taken(buckets, q, r), Taken(buckets, q, r + 1);
    forall j | 0 <= j < |buckets|
      ensures b[j] == if j == r && q < |buckets[r]| then a[j] + [buckets[r][q]] else a[j]
    {
      if j == r && q < |buckets[r]| {
        assert buckets[r][..q + 1] == buckets[r][..q] + [buckets[r][q]];
      } else {
        assert Given(buckets, q, r + 1, j) == Given(buckets, q, r, j);
      }
    }
  }

  lemma VisitAdds(buckets: seq<seq<Item>>, q: nat, r: nat)
    requires r < |buckets|
    ensures Visited(buckets, q, r + 1) ==
      Visited(buckets, q, r) + (if q < |buckets[r]| then [buckets[r][q]] else [])
  {
  }

  lemma OneVisit(buckets: seq<seq<Item>>, q: nat, r: nat)
    requires r < |buckets|
    requires Conserved(buckets, q, r)
    ensures Conserved(buckets, q, r + 1)
  {
    VisitTakes(buckets, q, r);
    VisitAdds(buckets, q, r);
    if q < |buckets[r]| {
      AllOfOneMore(Taken(buckets, q, r), Taken(buckets, q, r + 1), r, buckets[r][q]);
    }
  }

  ghost predicate Conserved(buckets: seq<seq<Item>>, q: nat, r: nat)
    requires r <= |buckets|
  {
    multiset(Visited(buckets, q, r)) == All(Taken(buckets, q, r))
  }

  lemma RoundConserves(buckets: seq<seq<Item>>, q: nat, r: nat)
    requires r <= |buckets| && Conserved(buckets, q, 0)
    ensures Conserved(buckets, q, r)
  {
    for k := 0 to r
      invariant Conserved(buckets, q, k)
    {
      OneVisit(buckets, q, k);
    }
  }

  lemma NextConserved(buckets: seq<seq<Item>>, q: nat)
    requires Conserved(buckets, q, |buckets|)
    ensures Conserved(buckets, q + 1, 0)
  {
    NextRound(buckets, q);
  }

  lemma FirstConserved(buckets: seq<seq<Item>>)
    ensures Conserved(buckets, 0, 0)
  {
    NoneTaken(buckets);
    assert Visited(buckets, 0, 0) == [];
  }

  lemma AlwaysConserved(buckets: seq<seq<Item>>, q: nat, r: nat)
    requires r <= |buckets|
    ensures Conserved(buckets, q, r)
  {
    FirstConserved(buckets);
    for p := 0 to q
      invariant Conserved(buckets, p, 0)
    {
      RoundConserves(buckets, p, |buckets|);
      NextConserved(buckets, p);
    }
    RoundConserves(buckets, q, r);
  }

  lemma NextRound(buckets: seq<seq<Item>>, q: nat)
    ensures Visited(buckets, q + 1, 0) == Visited(buckets, q, |buckets|)
    ensures Taken(buckets, q + 1, 0) == Taken(buckets, q, |buckets|)
  {
    assert Round(buckets, q + 1, 0) == [];
    RoundOver(buckets, q);
    forall j | 0 <= j < |buckets|
      ensures Taken(buckets, q + 1, 0)[j] == Taken(buckets, q, |buckets|)[j]
    {
      assert Given(buckets, q + 1, 0, j) == Given(buckets, q, |buckets|, j);
    }
  }

  lemma NoneTaken(buckets: seq<seq<Item>>)
    ensures All(Taken(buckets, 0, 0)) == multiset{}
  {
    Empties(Taken(buckets, 0, 0));
  }

  lemma {:induction false} Empties(buckets: seq<seq<Item>>)
    requires forall j :: 0 <= j < |buckets| ==> buckets[j] == []
    ensures All(buckets) == multiset{}
  {
    if buckets != [] {
      Empties(buckets[..|buckets| - 1]);
    }
  }

  lemma AllVisited(buckets: seq<seq<Item>>)
    ensures Visited(buckets, Longest(buckets), 0) == Schedule(buckets)
  {
    assert Round(buckets, Longest(buckets), 0) == [];
  }

  lemma AllTaken(buckets: seq<seq<Item>>, q: nat)
    requires forall j :: 0 <= j < |buckets| ==> |buckets[j]| <= q
    ensures Taken(buckets, q, 0) == buckets
  {
    forall j | 0 <= j < |buckets|
      ensures Taken(buckets, q, 0)[j] == buckets[j]
    {
      assert Given(buckets, q, 0, j) == |buckets[j]|;
    }
  }

  /** The order loses and repeats nothing. */
  lemma ScheduleIsPermutation(buckets: seq<seq<Item>>)
    ensures multiset(Schedule(buckets)) == All(buckets)
  {
    var q := Longest(buckets);
    AlwaysConserved(buckets, q, 0);
    AllVisited(buckets);
    AllTaken(buckets, q);
  }

  // -------------------------------------------------------------------- the loop

  lemma {:induction false} RoundGrows(buckets: seq<seq<Item>>, q: nat, r: nat, s: nat)
    requires r <= s <= |buckets|
    ensures Round(buckets, q, r) <= Round(buckets, q, s)
  {
    if r < s {
      RoundGrows(buckets, q, r, s - 1);
    }
  }

  lemma {:induction false} RoundsGrow(buckets: seq<seq<Item>>, q: nat, p: nat)
    requires q <= p
    ensures Rounds(buckets, q) <= Rounds(buckets, p)
  {
    if q < p {
      RoundsGrow(buckets, q, p - 1);
    }
  }

  lemma VisitedIsPrefix(buckets: seq<seq<Item>>, q: nat, r: nat)
    requires r <= |buckets| && q < Longest(buckets)
    ensures Visited(buckets, q, r) <= Schedule(buckets)
  {
    RoundGrows(buckets, q, r, |buckets|);
    RoundsGrow(buckets, q + 1, Longest(buckets));
  }

  /** Once every bucket is empty the order is complete. */
  lemma ExhaustedIsComplete(buckets: seq<seq<Item>>, q: nat, r: nat)
    requires r <= |buckets| && Visited(buckets, q, r) <= Schedule(buckets)
    requires forall j :: 0 <= j < |buckets| ==> Given(buckets, q, r, j) == |buckets[j]|
    ensures Visited(buckets, q, r) == Schedule(buckets)
  {
    forall j | 0 <= j < |buckets|
      ensures Taken(buckets, q, r)[j] == buckets[j]
    {
      assert Given(buckets, q, r, j) == |buckets[j]|;
    }
    assert Taken(buckets, q, r) == buckets;
    AlwaysConserved(buckets, q, r);
    ScheduleIsPermutation(buckets);
    assert |multiset(Visited(buckets, q, r))| == |multiset(Schedule(buckets))|;
  }

  lemma NextIndex(i: nat, n: nat)
    requires n > 0
    ensures (i + 1) % n == if i % n + 1 == n then 0 else i % n + 1
  {
    var d, s := i / n, if i % n + 1 == n then 0 else i % n + 1;
    var e := if i % n + 1 == n then d + 1 else d;
    assert i + 1 == n * e + s;
    Remainder(i + 1, n, e, s);
  }

  lemma Remainder(x: nat, n: nat, d: nat, s: nat)
    requires n > 0 && x == n * d + s && s < n
    ensures x % n == s
  {
    var e := x / n;
    if e < d {
      MulGap(n, e, d);
    } else if e > d {
      MulGap(n, d, e);
    }
  }

  lemma {:induction false} MulGap(n: nat, a: nat, b: nat)
    requires a < b
    ensures n * b >= n * a + n
  {
    if b > a + 1 {
      MulGap(n, a, b - 1);
    }
  }

  ghost predicate Remaining(buckets: seq<seq<Item>>, queues: seq<seq<Item>>, q: nat, r: nat) {
    && |queues| == |buckets|
    && forall j :: 0 <= j < |buckets| ==> queues[j] == buckets[j][Given(buckets, q, r, j)..]
  }

  /** One visit of the loop: the queue at `r`, if it holds anything, gives its head. */
  lemma VisitStep(buckets: seq<seq<Item>>, queues: seq<seq<Item>>, q: nat, r: nat)
    requires r < |buckets| && Remaining(buckets, queues, q, r)
    ensures if queues[r] != []
      then Visited(buckets, q, r + 1) == Visited(buckets, q, r) + [queues[r][0]]
        && Remaining(buckets, queues[r := queues[r][1..]], q, r + 1)
      else Visited(buckets, q, r + 1) == Visited(buckets, q, r) && Remaining(buckets, queues, q, r + 1)
  {
    VisitAdds(buckets, q, r);
    assert queues[r] == buckets[r][Given(buckets, q, r, r)..];
    forall j | 0 <= j < |buckets| && j != r
      ensures Given(buckets, q, r + 1, j) == Given(buckets, q, r, j)
    {
    }
    if queues[r] != [] {
      assert Given(buckets, q, r, r) == q && Given(buckets, q, r + 1, r) == q + 1;
      assert queues[r][0] == buckets[r][q];
      assert queues[r][1..] == buckets[r][q + 1..];
    } else {
      assert Given(buckets, q, r + 1, r) == Given(buckets, q, r, r) == |buckets[r]|;
    }
  }

  /** The loop after `q` rounds and `r` visits. */
  ghost predicate At(buckets: seq<seq<Item>>, queues: seq<seq<Item>>, i: nat, out: seq<Item>, q: nat, r: nat) {
    && r <= |buckets| && (buckets != [] ==> r < |buckets| && i % |buckets| == r)
    && out == Visited(buckets, q, r) && out <= Schedule(buckets)
    && Remaining(buckets, queues, q, r)
  }

  /** One visit. */
  method Visit(buckets: seq<seq<Item>>, queues0: seq<seq<Item>>, i: nat, out0: seq<Item>, ghost q0: nat, ghost r0: nat)
    returns (queues: seq<seq<Item>>, out: seq<Item>, ghost q: nat, ghost r: nat)
    requires buckets != [] && At(buckets, queues0, i, out0, q0, r0) && q0 < Longest(buckets)
    ensures At(buckets, queues, i + 1, out, q, r)
    ensures |out| <= |out0| + 1
    ensures (q == q0 && r == r0 + 1) || (q == q0 + 1 && r == 0)
  {
    NextIndex(i, |buckets|);
    VisitStep(buckets, queues0, q0, r0);
    VisitedIsPrefix(buckets, q0, r0 + 1);
    var k := i % |queues0|;
    queues, out := queues0, out0;
    if queues[k] != [] {
      out := out + [queues[k][0]];
      queues := queues[k := queues[k][1..]];
    }
    q, r := q0, r0 + 1;
    if r == |buckets| {
      NextRound(buckets, q);
      RoundOver(buckets, q);
      q, r := q + 1, 0;
    }
  }

  lemma AtStart(buckets: seq<seq<Item>>)
    ensures At(buckets, buckets, 0, [], 0, 0)
  {
    assert Visited(buckets, 0, 0) == [];
    forall j | 0 <= j < |buckets|
      ensures buckets[j] == buckets[j][Given(buckets, 0, 0, j)..]
    {
    }
  }

  /** While a queue holds anything there is a round to go. */
  lemma RoundsLeft(buckets: seq<seq<Item>>, queues: seq<seq<Item>>, i: nat, out: seq<Item>, q: nat, r: nat)
    requires At(buckets, queues, i, out, q, r) && exists j :: 0 <= j < |queues| && queues[j] != []
    ensures q < Longest(buckets) && r < |buckets|
  {
    var j :| 0 <= j < |queues| && queues[j] != [];
    assert queues[j] == buckets[j][Given(buckets, q, r, j)..];
    assert Given(buckets, q, r, j) < |buckets[j]| <= Longest(buckets);
  }

  lemma AtEnd(buckets: seq<seq<Item>>, queues: seq<seq<Item>>, i: nat, out: seq<Item>, q: nat, r: nat)
    requires At(buckets, queues, i, out, q, r) && forall j :: 0 <= j < |queues| ==> queues[j] == []
    ensures out == Schedule(buckets)
  {
    forall j | 0 <= j < |buckets|
      ensures Given(buckets, q, r, j) == |buckets[j]|
    {
      assert queues[j] == [];
    }
    ExhaustedIsComplete(buckets, q, r);
  }

  /** Visits the buckets in turn until `limit` items are out or every bucket is empty. */
  method Interleave(buckets: seq<seq<Item>>, limit: nat) returns (out: seq<Item>)
    ensures out == Schedule(buckets)[..Min(limit, |Schedule(buckets)|)]
  {
    var queues := buckets;
    var i := 0;
    ghost var q, r := 0, 0;
    out := [];
    AtStart(buckets);
    while |out| < limit && exists j :: 0 <= j < |queues| && queues[j] != []
      invariant At(buckets, queues, i, out, q, r) && |out| <= limit
      decreases Longest(buckets) - q, |buckets| - r
    {
      RoundsLeft(buckets, queues, i, out, q, r);
      queues, out, q, r := Visit(buckets, queues, i, out, q, r);
      i := i + 1;
    }
    if |out| < limit {
      AtEnd(buckets, queues, i, out, q, r);
    }
    Reached(buckets, out, limit);
  }

  lemma Reached(buckets: seq<seq<Item>>, out: seq<Item>, limit: nat)
    requires out <= Schedule(buckets) && |out| <= limit && (|out| < limit ==> out == Schedule(buckets))
    ensures out == Schedule(buckets)[..Min(limit, |Schedule(buckets)|)]
  {
  }

  lemma RoundOver(buckets: seq<seq<Item>>, q: nat)
    ensures forall j :: 0 <= j < |buckets| ==> Given(buckets, q, |buckets|, j) == Given(buckets, q + 1, 0, j)
  {
  }
}
