/** The stratified subset of a corpus. */
module Subsets {
  import opened Options
  import opened RoundRobin
  import opened GradingOrder

  // ------------------------------------------------------------------- the subset

  datatype Corpus = Corpus(haystacks: seq<nat>, questions: seq<Item>)

  ghost predicate DistinctIds(questions: seq<Item>) {
    forall i, j :: 0 <= i < j < |questions| ==> questions[i].id != questions[j].id
  }

  ghost predicate ValidCorpus(c: Corpus) {
    && c.haystacks != [] && c.questions != []
    && NoRepeat(c.haystacks)
    && DistinctIds(c.questions)
    && forall q :: q in c.questions ==> q.haystack in c.haystacks
  }

  ghost predicate NoRepeat(ids: seq<nat>) {
    forall i, j :: 0 <= i < j < |ids| ==> ids[i] != ids[j]
  }

  function IdSet(ids: seq<nat>): (s: set<nat>)
    ensures forall x :: x in s <==> x in ids
  {
    set x | x in ids
  }

  lemma {:induction false} DistinctSize(ids: seq<nat>)
    ensures |IdSet(ids)| <= |ids|
    ensures |IdSet(ids)| == |ids| <==> NoRepeat(ids)
  {
    if ids != [] {
      var last := |ids| - 1;
      var init := IdSet(ids[..last]);
      DistinctSize(ids[..last]);
      assert IdSet(ids) == init + {ids[last]};
      assert NoRepeat(ids) ==> NoRepeat(ids[..last]);
      if ids[last] in init {
        var k :| 0 <= k < last && ids[..last][k] == ids[last];
        assert ids[k] == ids[last];
        assert IdSet(ids) == init;
      } else {
        assert |IdSet(ids)| == |init| + 1;
        if NoRepeat(ids[..last]) {
          LastIsNew(ids);
        }
      }
    }
  }

  lemma LastIsNew(ids: seq<nat>)
    requires ids != [] && ids[|ids| - 1] !in ids[..|ids| - 1] && NoRepeat(ids[..|ids| - 1])
    ensures NoRepeat(ids)
  {
    var init := ids[..|ids| - 1];
    forall i, j | 0 <= i < j < |ids|
      ensures ids[i] != ids[j]
    {
      assert init[i] in init;
      assert ids[i] == init[i];
    }
  }

  ghost predicate QuestionsOk(questions: seq<Item>, ids: set<nat>) {
    DistinctIds(questions) && forall q :: q in questions ==> q.haystack in ids
  }

  method CheckQuestions(questions: seq<Item>, ids: set<nat>) returns (ok: bool)
    ensures ok <==> QuestionsOk(questions, ids)
  {
    var seen: set<nat> := {};
    for i := 0 to |questions|
      invariant forall k :: 0 <= k < i ==> questions[k].id in seen && questions[k].haystack in ids
      invariant forall id :: id in seen ==> exists k :: 0 <= k < i && questions[k].id == id
      invariant DistinctIds(questions[..i])
    {
      if questions[i].id in seen {
        return false;
      }
      seen := seen + {questions[i].id};
      if questions[i].haystack !in ids {
        assert questions[i] in questions;
        return false;
      }
    }
    assert questions[..|questions|] == questions;
    ok := true;
  }

  /** `Corpus.validate`: false is the exception. */
  method Validate(c: Corpus) returns (ok: bool)
    ensures ok <==> ValidCorpus(c)
  {
    var ids := IdSet(c.haystacks);
    DistinctSize(c.haystacks);
    var fits := CheckQuestions(c.questions, ids);
    ok := c.haystacks != [] && c.questions != [] && |ids| == |c.haystacks| && fits;
  }

  function Keeping(haystacks: seq<nat>, keep: set<nat>): (kept: seq<nat>)
    ensures forall h :: h in kept <==> h in haystacks && h in keep
    ensures NoRepeat(haystacks) ==> NoRepeat(kept)
  {
    if haystacks == [] then []
    else if haystacks[0] in keep then
      assert forall k :: 0 <= k < |haystacks[1..]| ==> haystacks[1..][k] in haystacks[1..];
      [haystacks[0]] + Keeping(haystacks[1..], keep)
    else Keeping(haystacks[1..], keep)
  }

  /** The haystacks kept are in the order they come: a haystack is kept by itself, whatever
      comes before it. */
  lemma {:induction false} KeepingLast(haystacks: seq<nat>, h: nat, keep: set<nat>)
    ensures Keeping(haystacks + [h], keep) == Keeping(haystacks, keep) + if h in keep then [h] else []
  {
    if haystacks == [] {
      assert haystacks + [h] == [h] && [h][1..] == [];
    } else {
      var rest := haystacks[1..];
      assert (haystacks + [h])[1..] == rest + [h] && (haystacks + [h])[0] == haystacks[0];
      KeepingLast(rest, h, keep);
    }
  }

  /** Any two strata of `all` are sampled equally often to within one, unless the one behind
      is used up. */
  ghost predicate Balanced(all: seq<Item>, sample: seq<Item>) {
    forall x, y :: Occurs(all, x) && Occurs(all, y) ==>
      Count(sample, x) <= Count(sample, y) + 1 || Count(sample, y) == Count(all, y)
  }

  lemma PrefixBalanced(questions: seq<Item>, n: nat)
    requires n <= |OrderOf(questions)|
    ensures Balanced(questions, OrderOf(questions)[..n])
  {
    forall x, y | Occurs(questions, x) && Occurs(questions, y)
      ensures var sample := OrderOf(questions)[..n];
        Count(sample, x) <= Count(sample, y) + 1 || Count(sample, y) == Count(questions, y)
    {
      AnyPrefixIsBalanced(questions, n, x, y);
    }
  }

  /** The stratified sample: at most `limit` questions in balanced order, with the
      haystacks they need. On a valid corpus its closing validation never raises. */
  method Subset(c: Corpus, limit: int) returns (sub: Option<Corpus>)
    ensures limit <= 0 ==> sub.None?
    ensures sub.Some? ==> sub.value.questions == OrderOf(c.questions)[..Min(limit, |OrderOf(c.questions)|)]
    ensures sub.Some? ==> Balanced(c.questions, sub.value.questions) && |sub.value.questions| == Min(limit, |c.questions|)
    ensures sub.Some? ==> sub.value.haystacks == Keeping(c.haystacks, set q | q in sub.value.questions :: q.haystack)
    ensures sub.Some? ==> ValidCorpus(sub.value)
    ensures ValidCorpus(c) && limit > 0 ==> sub.Some?
  {
    if limit <= 0 {
      return None;
    }
    var picked := Interleave(Buckets(c.questions), limit);
    var keep := set q | q in picked :: q.haystack;
    var result := Corpus(Keeping(c.haystacks, keep), picked);
    var ok := Validate(result);
    OrderLength(c.questions);
    PrefixBalanced(c.questions, Min(limit, |c.questions|));
    if ValidCorpus(c) {
      SubsetIsValid(c, limit, result);
    }
    sub := if ok then Some(result) else None;
  }

  lemma OrderMembers(questions: seq<Item>)
    ensures forall q :: q in OrderOf(questions) <==> q in questions
  {
    OrderIsPermutation(questions);
    forall q
      ensures q in OrderOf(questions) <==> q in questions
    {
      assert q in multiset(OrderOf(questions)) <==> q in multiset(questions);
    }
  }

  lemma OrderIdsDistinct(questions: seq<Item>, i: nat, j: nat)
    requires DistinctIds(questions) && i < j < |OrderOf(questions)|
    ensures OrderOf(questions)[i].id != OrderOf(questions)[j].id
  {
    var order := OrderOf(questions);
    OrderMembers(questions);
    OrderIsPermutation(questions);
    if order[i].id == order[j].id {
      SameIdSameItem(questions, order[i], order[j]);
      TwoCopies(order, i, j);
      OneCopy(questions, order[i]);
      assert false;
    }
  }

  lemma OrderDistinct(questions: seq<Item>)
    requires DistinctIds(questions)
    ensures DistinctIds(OrderOf(questions))
  {
    forall i, j | 0 <= i < j < |OrderOf(questions)|
      ensures OrderOf(questions)[i].id != OrderOf(questions)[j].id
    {
      OrderIdsDistinct(questions, i, j);
    }
  }

  lemma SameIdSameItem(questions: seq<Item>, x: Item, y: Item)
    requires DistinctIds(questions) && x in multiset(questions) && y in multiset(questions) && x.id == y.id
    ensures x == y
  {
    var i :| 0 <= i < |questions| && questions[i] == x;
    var j :| 0 <= j < |questions| && questions[j] == y;
  }

  lemma TwoCopies(s: seq<Item>, i: nat, j: nat)
    requires i < j < |s| && s[i] == s[j]
    ensures multiset(s)[s[i]] >= 2
  {
    assert s == s[..j] + s[j..];
    assert s[..j][i] == s[i] && s[j..][0] == s[i];
    assert s[i] in multiset(s[..j]) && s[i] in multiset(s[j..]);
  }

  lemma OneCopy(questions: seq<Item>, x: Item)
    requires DistinctIds(questions) && x in multiset(questions)
    ensures multiset(questions)[x] == 1
  {
    var p :| 0 <= p < |questions| && questions[p] == x;
    assert questions == questions[..p] + [x] + questions[p + 1..];
    assert x !in questions[..p] && x !in questions[p + 1..];
  }

  lemma SubsetIsValid(c: Corpus, limit: nat, sub: Corpus)
    requires ValidCorpus(c) && limit > 0
    requires sub.questions == OrderOf(c.questions)[..Min(limit, |OrderOf(c.questions)|)]
    requires sub.haystacks == Keeping(c.haystacks, set q | q in sub.questions :: q.haystack)
    ensures ValidCorpus(sub)
  {
    OrderLength(c.questions);
    PrefixOk(c.questions, Min(limit, |OrderOf(c.questions)|));
    assert sub.questions[0] in sub.questions && sub.questions[0].haystack in sub.haystacks;
  }

  lemma PrefixOk(questions: seq<Item>, n: nat)
    requires DistinctIds(questions) && n <= |OrderOf(questions)|
    ensures DistinctIds(OrderOf(questions)[..n])
    ensures forall q :: q in OrderOf(questions)[..n] ==> q in questions
  {
    var order := OrderOf(questions);
    OrderMembers(questions);
    OrderDistinct(questions);
    forall q | q in order[..n]
      ensures q in questions
    {
      assert q in order;
    }
  }

  /** The sample for a limit is the start of the sample for any larger limit, has the size
      asked for as far as the corpus goes, and is balanced across the strata. */
  lemma SubsetsNest(questions: seq<Item>, l: nat, m: nat)
    requires l <= m
    ensures var order := OrderOf(questions);
      && order[..Min(l, |order|)] <= order[..Min(m, |order|)]
      && |order[..Min(l, |order|)]| == Min(l, |questions|)
      && Balanced(questions, order[..Min(l, |order|)])
  {
    OrderLength(questions);
    PrefixBalanced(questions, Min(l, |questions|));
  }

}
