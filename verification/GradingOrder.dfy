/** The order in which answers are graded: bucketed, sorted by digest, and taken in turn. */
module GradingOrder {
  import opened RoundRobin

  // --------------------------------------------------------------------- bucketing

  function InBucket(rows: seq<Item>, bucket: nat): seq<Item> {
    if rows == [] then []
    else InBucket(rows[..|rows| - 1], bucket)
         + (if rows[|rows| - 1].bucket == bucket then [rows[|rows| - 1]] else [])
  }

  /** A stable insertion by digest: what sorting a bucket comes to. */
  function Insert(s: seq<Item>, item: Item): (t: seq<Item>)
    ensures multiset(t) == multiset(s) + multiset{item}
  {
    if s != [] && s[|s| - 1].digest > item.digest
    then
      assert s == s[..|s| - 1] + [s[|s| - 1]];
      Insert(s[..|s| - 1], item) + [s[|s| - 1]]
    else s + [item]
  }

  function SortByDigest(s: seq<Item>): (t: seq<Item>)
    ensures multiset(t) == multiset(s)
  {
    if s == [] then [] else
    assert s == s[..|s| - 1] + [s[|s| - 1]];
    Insert(SortByDigest(s[..|s| - 1]), s[|s| - 1])
  }

  ghost predicate ByDigest(s: seq<Item>) {
    forall i, j :: 0 <= i < j < |s| ==> s[i].digest <= s[j].digest
  }

  lemma {:induction false} InsertAtMost(s: seq<Item>, item: Item, top: Item)
    requires (forall i :: 0 <= i < |s| ==> s[i].digest <= top.digest) && item.digest <= top.digest
    ensures forall i :: 0 <= i < |Insert(s, item)| ==> Insert(s, item)[i].digest <= top.digest
  {
    if s != [] && s[|s| - 1].digest > item.digest {
      InsertAtMost(s[..|s| - 1], item, top);
    }
  }

  lemma SortedThen(t: seq<Item>, top: Item)
    requires ByDigest(t) && forall i :: 0 <= i < |t| ==> t[i].digest <= top.digest
    ensures ByDigest(t + [top])
  {
  }

  lemma {:induction false} InsertSorts(s: seq<Item>, item: Item)
    requires ByDigest(s)
    ensures ByDigest(Insert(s, item))
  {
    if s != [] && s[|s| - 1].digest > item.digest {
      var last := |s| - 1;
      InsertSorts(s[..last], item);
      InsertAtMost(s[..last], item, s[last]);
      SortedThen(Insert(s[..last], item), s[last]);
    } else {
      SortedThen(s, item);
    }
  }

  lemma {:induction false} SortSorts(s: seq<Item>)
    ensures ByDigest(SortByDigest(s))
  {
    if s != [] {
      SortSorts(s[..|s| - 1]);
      InsertSorts(SortByDigest(s[..|s| - 1]), s[|s| - 1]);
    }
  }

  /** Bucket ranks in ascending order, each once. */
  function InsertName(names: seq<nat>, name: nat): (t: seq<nat>)
    ensures forall x :: x in t <==> x in names || x == name
  {
    if names == [] then [name]
    else if names[|names| - 1] == name then names
    else if names[|names| - 1] > name then InsertName(names[..|names| - 1], name) + [names[|names| - 1]]
    else names + [name]
  }

  ghost predicate Occurs(rows: seq<Item>, name: nat) {
    exists k :: 0 <= k < |rows| && rows[k].bucket == name
  }

  lemma OccursLast(rows: seq<Item>, name: nat)
    requires rows != []
    ensures Occurs(rows, name) <==> Occurs(rows[..|rows| - 1], name) || name == rows[|rows| - 1].bucket
  {
    if k :| 0 <= k < |rows| && rows[k].bucket == name {
      assert k < |rows| - 1 ==> rows[..|rows| - 1][k] == rows[k];
    }
  }

  function Names(rows: seq<Item>): (names: seq<nat>)
    ensures forall x :: x in names <==> Occurs(rows, x)
  {
    if rows == [] then [] else
    var last := |rows| - 1;
    assert forall x :: Occurs(rows, x) <==> Occurs(rows[..last], x) || x == rows[last].bucket by {
      forall x {
        OccursLast(rows, x);
      }
    }
    InsertName(Names(rows[..last]), rows[last].bucket)
  }

  ghost predicate Ascending(s: seq<nat>) {
    forall i, j :: 0 <= i < j < |s| ==> s[i] < s[j]
  }

  lemma {:induction false} InsertNameAscends(names: seq<nat>, name: nat)
    requires Ascending(names)
    ensures Ascending(InsertName(names, name))
  {
    if names != [] && names[|names| - 1] > name {
      var init := names[..|names| - 1];
      InsertNameAscends(init, name);
      var t := InsertName(init, name);
      forall i | 0 <= i < |t|
        ensures t[i] < names[|names| - 1]
      {
        assert t[i] in t;
      }
    }
  }

  lemma {:induction false} NamesAscend(rows: seq<Item>)
    ensures Ascending(Names(rows))
  {
    if rows != [] {
      NamesAscend(rows[..|rows| - 1]);
      InsertNameAscends(Names(rows[..|rows| - 1]), rows[|rows| - 1].bucket);
    }
  }

  function Buckets(rows: seq<Item>): (b: seq<seq<Item>>)
    ensures |b| == |Names(rows)|
    ensures forall j :: 0 <= j < |b| ==> b[j] == SortByDigest(InBucket(rows, Names(rows)[j]))
  {
    seq(|Names(rows)|, j requires 0 <= j < |Names(rows)| => SortByDigest(InBucket(rows, Names(rows)[j])))
  }

  /** The balanced order of `rows`. */
  function OrderOf(rows: seq<Item>): seq<Item> {
    Schedule(Buckets(rows))
  }

  // ------------------------------------------------------------ order independence

  lemma {:induction false} InBucketCounts(rows: seq<Item>, bucket: nat, x: Item)
    ensures multiset(InBucket(rows, bucket))[x] == if x.bucket == bucket then multiset(rows)[x] else 0
  {
    if rows != [] {
      InBucketCounts(rows[..|rows| - 1], bucket, x);
      assert rows == rows[..|rows| - 1] + [rows[|rows| - 1]];
    }
  }

  ghost predicate DistinctDigests(rows: seq<Item>) {
    forall x, y :: x in rows && y in rows && x.bucket == y.bucket && x.digest == y.digest ==> x == y
  }

  ghost predicate OnePerDigest(s: seq<Item>) {
    forall x, y :: x in s && y in s && x.digest == y.digest ==> x == y
  }

  lemma TailKeeps(s: seq<Item>)
    requires s != [] && ByDigest(s) && OnePerDigest(s)
    ensures ByDigest(s[1..]) && OnePerDigest(s[1..])
  {
    assert forall x :: x in s[1..] ==> x in s;
  }

  lemma TailSorted(s: seq<Item>)
    requires s != [] && ByDigest(s)
    ensures ByDigest(s[1..])
  {
  }

  lemma SameHead(a: seq<Item>, b: seq<Item>)
    requires multiset(a) == multiset(b) && ByDigest(a) && ByDigest(b) && a != [] && b != []
    requires OnePerDigest(a)
    ensures a[0] == b[0]
  {
    assert a[0] in multiset(a) && b[0] in multiset(b);
    assert a[0] in b && b[0] in a;
  }

  lemma Tails(a: seq<Item>, b: seq<Item>)
    requires multiset(a) == multiset(b) && a != [] && b != [] && a[0] == b[0]
    ensures multiset(a[1..]) == multiset(b[1..])
  {
    assert a == [a[0]] + a[1..] && b == [b[0]] + b[1..];
    assert multiset(a[1..]) == multiset(a) - multiset{a[0]};
    assert multiset(b[1..]) == multiset(b) - multiset{b[0]};
  }

  lemma HeadAndTail(a: seq<Item>, b: seq<Item>)
    requires a != [] && b != [] && a[0] == b[0] && a[1..] == b[1..]
    ensures a == b
  {
    assert a == [a[0]] + a[1..] && b == [b[0]] + b[1..];
  }

  /** Two sorted arrangements of the same items, with distinct digests, are one. */
  lemma {:induction false} SortedIsUnique(a: seq<Item>, b: seq<Item>)
    requires multiset(a) == multiset(b) && ByDigest(a) && ByDigest(b)
    requires OnePerDigest(a)
    ensures a == b
  {
    assert |a| == |multiset(a)| == |multiset(b)| == |b|;
    if a != [] {
      SameHead(a, b);
      Tails(a, b);
      TailKeeps(a);
      TailSorted(b);
      SortedIsUnique(a[1..], b[1..]);
      HeadAndTail(a, b);
    }
  }

  lemma {:induction false} AscendingIsUnique(a: seq<nat>, b: seq<nat>)
    requires Ascending(a) && Ascending(b) && forall x :: x in a <==> x in b
    ensures a == b
  {
    if a == [] {
      assert forall i :: 0 <= i < |b| ==> b[i] in b;
    } else {
      assert a[|a| - 1] in a && a[|a| - 1] in b;
      assert b != [] && b[|b| - 1] in b && b[|b| - 1] in a;
      assert a[|a| - 1] == b[|b| - 1];
      var p, q := a[..|a| - 1], b[..|b| - 1];
      forall x
        ensures x in p <==> x in q
      {
        assert x in a <==> x in p || x == a[|a| - 1];
        assert x in b <==> x in q || x == b[|b| - 1];
      }
      AscendingIsUnique(p, q);
    }
  }

  /** The order does not depend on the order of its input, as long as digests within a
      bucket tell items apart. */
  lemma OrderIndependent(a: seq<Item>, b: seq<Item>)
    requires multiset(a) == multiset(b) && DistinctDigests(a)
    ensures OrderOf(a) == OrderOf(b)
  {
    assert forall x :: x in a <==> x in multiset(a);
    assert forall x :: x in b <==> x in multiset(b);
    NamesAscend(a);
    NamesAscend(b);
    SameNames(a, b);
    SameNames(b, a);
    AscendingIsUnique(Names(a), Names(b));
    forall j | 0 <= j < |Names(a)|
      ensures Buckets(a)[j] == Buckets(b)[j]
    {
      SameBucket(a, b, Names(a)[j]);
    }
    assert Buckets(a) == Buckets(b);
  }

  lemma SameNames(a: seq<Item>, b: seq<Item>)
    requires forall x :: x in a ==> x in b
    ensures forall n :: n in Names(a) ==> n in Names(b)
  {
    forall n | n in Names(a)
      ensures n in Names(b)
    {
      var k :| 0 <= k < |a| && a[k].bucket == n;
      assert a[k] in b;
      var m :| 0 <= m < |b| && b[m] == a[k];
    }
  }

  lemma SameBucket(a: seq<Item>, b: seq<Item>, bucket: nat)
    requires multiset(a) == multiset(b) && DistinctDigests(a)
    ensures SortByDigest(InBucket(a, bucket)) == SortByDigest(InBucket(b, bucket))
  {
    var p, q := InBucket(a, bucket), InBucket(b, bucket);
    forall x
      ensures multiset(p)[x] == multiset(q)[x]
    {
      InBucketCounts(a, bucket, x);
      InBucketCounts(b, bucket, x);
    }
    assert multiset(p) == multiset(q);
    SortSorts(p);
    SortSorts(q);
    var s, t := SortByDigest(p), SortByDigest(q);
    forall x, y | x in s && y in s && x.digest == y.digest
      ensures x == y
    {
      assert x in multiset(s) && y in multiset(s);
      InBucketCounts(a, bucket, x);
      InBucketCounts(a, bucket, y);
      assert x in multiset(a) && y in multiset(a);
    }
    SortedIsUnique(s, t);
  }

  // ------------------------------------------------------- what the order preserves

  lemma {:induction false} AllAt(buckets: seq<seq<Item>>, x: Item, j: nat)
    requires j < |buckets| && forall i :: 0 <= i < |buckets| && i != j ==> multiset(buckets[i])[x] == 0
    ensures All(buckets)[x] == multiset(buckets[j])[x]
  {
    var last := |buckets| - 1;
    if j == last {
      AllNone(buckets[..last], x);
    } else {
      AllAt(buckets[..last], x, j);
    }
  }

  lemma {:induction false} AllNone(buckets: seq<seq<Item>>, x: Item)
    requires forall i :: 0 <= i < |buckets| ==> multiset(buckets[i])[x] == 0
    ensures All(buckets)[x] == 0
  {
    if buckets != [] {
      AllNone(buckets[..|buckets| - 1], x);
    }
  }

  lemma BucketCounts(rows: seq<Item>, x: Item)
    ensures forall j :: 0 <= j < |Buckets(rows)| ==>
      multiset(Buckets(rows)[j])[x] == if x.bucket == Names(rows)[j] then multiset(rows)[x] else 0
  {
    forall j | 0 <= j < |Buckets(rows)|
      ensures multiset(Buckets(rows)[j])[x] == if x.bucket == Names(rows)[j] then multiset(rows)[x] else 0
    {
      InBucketCounts(rows, Names(rows)[j], x);
    }
  }

  lemma PresentIsNamed(rows: seq<Item>, x: Item)
    ensures x in rows ==> x.bucket in Names(rows)
  {
    if x in rows {
      var k :| 0 <= k < |rows| && rows[k] == x;
      assert Occurs(rows, x.bucket);
    }
  }

  lemma CountedOnce(rows: seq<Item>, x: Item)
    ensures All(Buckets(rows))[x] == multiset(rows)[x]
  {
    NamesAscend(rows);
    BucketCounts(rows, x);
    if j :| 0 <= j < |Names(rows)| && Names(rows)[j] == x.bucket {
      AllAt(Buckets(rows), x, j);
    } else {
      PresentIsNamed(rows, x);
      AllNone(Buckets(rows), x);
    }
  }

  /** Every row is graded once and none is invented. */
  lemma OrderIsPermutation(rows: seq<Item>)
    ensures multiset(OrderOf(rows)) == multiset(rows)
  {
    ScheduleIsPermutation(Buckets(rows));
    forall x
      ensures All(Buckets(rows))[x] == multiset(rows)[x]
    {
      CountedOnce(rows, x);
    }
  }

  lemma BucketHolds(rows: seq<Item>, j: nat)
    requires j < |Buckets(rows)|
    ensures Holds(Buckets(rows), j, Names(rows)[j]) && |Buckets(rows)[j]| == Count(rows, Names(rows)[j])
  {
    NamesAscend(rows);
    var b: seq<seq<Item>>, names: seq<nat> := Buckets(rows), Names(rows);
    forall i, k | 0 <= i < |b| && 0 <= k < |b[i]|
      ensures b[i][k].bucket == names[j] <==> i == j
    {
      assert b[i][k] in multiset(b[i]);
      InBucketCounts(rows, names[i], b[i][k]);
      assert b[i][k].bucket == names[i];
    }
    assert |b[j]| == |multiset(b[j])| == |multiset(InBucket(rows, names[j]))|;
    InBucketSize(rows, names[j]);
  }

  lemma {:induction false} InBucketSize(rows: seq<Item>, bucket: nat)
    ensures |InBucket(rows, bucket)| == Count(rows, bucket)
  {
    if rows != [] {
      InBucketSize(rows[..|rows| - 1], bucket);
    }
  }

  /** However early grading is cut off, any two buckets have been graded equally often
      to within one, unless the one behind has nothing left. */
  lemma AnyPrefixIsBalanced(rows: seq<Item>, n: nat, x: nat, y: nat)
    requires n <= |OrderOf(rows)| && Occurs(rows, x) && Occurs(rows, y)
    ensures var prefix := OrderOf(rows)[..n];
      Count(prefix, x) <= Count(prefix, y) + 1 || Count(prefix, y) == Count(rows, y)
  {
    assert x in Names(rows) && y in Names(rows);
    var i :| 0 <= i < |Names(rows)| && Names(rows)[i] == x;
    var j :| 0 <= j < |Names(rows)| && Names(rows)[j] == y;
    BucketHolds(rows, i);
    BucketHolds(rows, j);
    EveryPrefixBalanced(Buckets(rows), n, i, j, x, y);
  }

  ghost predicate Grouped(rows: seq<Item>, groups: map<nat, seq<Item>>) {
    && (forall b :: b in groups <==> Occurs(rows, b))
    && forall b :: b in groups ==> groups[b] == InBucket(rows, b)
  }

  lemma GroupOne(rows: seq<Item>, groups: map<nat, seq<Item>>, row: Item)
    requires Grouped(rows, groups)
    ensures Grouped(rows + [row], groups[row.bucket := (if row.bucket in groups then groups[row.bucket] else []) + [row]])
  {
    assert (rows + [row])[..|rows|] == rows;
    forall b: nat
      ensures Occurs(rows + [row], b) <==> Occurs(rows, b) || b == row.bucket
      ensures !Occurs(rows, b) ==> InBucket(rows, b) == []
    {
      OccursLast(rows + [row], b);
      AbsentIsEmpty(rows, b);
    }
  }

  /** Groups rows by bucket, in the order they come. */
  method Group(rows: seq<Item>) returns (groups: map<nat, seq<Item>>)
    ensures Grouped(rows, groups)
  {
    groups := map[];
    for i := 0 to |rows|
      invariant Grouped(rows[..i], groups)
    {
      var row := rows[i];
      GroupOne(rows[..i], groups, row);
      assert rows[..i + 1] == rows[..i] + [row];
      groups := groups[row.bucket := (if row.bucket in groups then groups[row.bucket] else []) + [row]];
    }
    assert rows[..|rows|] == rows;
  }

  /** Groups rows by bucket, sorts each group, and takes turns until all are empty. */
  method JudgeOrder(rows: seq<Item>) returns (out: seq<Item>)
    ensures out == OrderOf(rows)
    ensures multiset(out) == multiset(rows)
  {
    var groups := Group(rows);
    var names := Names(rows);
    var buckets := seq(|names|, j requires 0 <= j < |names| && names[j] in groups => SortByDigest(groups[names[j]]));
    assert buckets == Buckets(rows);
    OrderIsPermutation(rows);
    OrderLength(rows);
    out := Interleave(buckets, |rows|);
  }

  lemma OrderLength(rows: seq<Item>)
    ensures |OrderOf(rows)| == |rows|
  {
    OrderIsPermutation(rows);
    assert |multiset(OrderOf(rows))| == |multiset(rows)|;
  }

  lemma {:induction false} AbsentIsEmpty(rows: seq<Item>, bucket: nat)
    ensures !Occurs(rows, bucket) ==> InBucket(rows, bucket) == []
  {
    if rows != [] {
      AbsentIsEmpty(rows[..|rows| - 1], bucket);
      OccursLast(rows, bucket);
    }
  }
}
