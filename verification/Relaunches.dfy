/** Launches of one run id that ask for different things. What one launch marked as ingested
    the next takes as it finds it: in the space the first one provisioned, and under the
    confirm policy the first one chose. */
module Relaunches {
  import opened Options
  import opened Space
  import opened Scopes
  import opened IngestPhase

  /** Of an arm, what its store depends on, and the confirm policy it is reported under. */
  datatype Arm = Arm(extractor: string, pack: string, policy: string)

  datatype Launch = Launch(arms: seq<Arm>, haystacks: set<string>)

  function StoreOf(haystack: string, arm: Arm): Triple {
    Triple(haystack, arm.extractor, arm.pack)
  }

  function Needed(l: Launch): set<Triple> {
    set h, a | h in l.haystacks && a in l.arms :: StoreOf(h, a)
  }

  function NeededByAny(launches: seq<Launch>): set<Triple> {
    set l, t | l in launches && t in Needed(l) :: t
  }

  // ------------------------------------------------------- the places of all launches

  /** The scope keys of the space of `pack`. */
  function ScopeKeys(needed: set<Triple>, pack: string): set<string> {
    set t | t in needed && t.pack == pack :: ScopeKey(t)
  }

  /** What provisioning checks of one launch: `Separates`, on its own keys. */
  ghost predicate Accepted(l: Launch) {
    forall pack :: Apart(ScopeKeys(Needed(l), pack))
  }

  /** Extractor names hold no colon, and the packs' spaces differ. */
  ghost predicate WellNamed(run: string, all: set<Triple>) {
    && (forall t :: t in all ==> ':' !in t.extractor)
    && forall a, b :: a in all && b in all && a.pack != b.pack ==>
         SpaceIdFor(run + "-" + a.pack) != SpaceIdFor(run + "-" + b.pack)
  }

  /** Launch after launch: launch `at` took the last step. A launch takes its own triples only,
      and starts when the one before it has ended or died. */
  ghost predicate InTurn(run: string, launches: seq<Launch>, steps: seq<Step>, at: nat)
    decreases |steps|, 1
  {
    && at < |launches|
    && (steps == [] || exists before: nat :: Follows(run, launches, steps, before, at))
  }

  ghost predicate Follows(run: string, launches: seq<Launch>, steps: seq<Step>, before: nat, at: nat)
    requires at < |launches| && steps != []
    decreases |steps|, 0
  {
    var past := steps[..|steps| - 1];
    && before <= at && InTurn(run, launches, past, before)
    && (before == at || After(run, past).process.Idle?)
    && Enabled(run, Needed(launches[at]), After(run, past), steps[|steps| - 1])
  }

  /** However the launches go, every marker stays true. */
  ghost predicate NoneLoses(run: string, launches: seq<Launch>) {
    forall steps, at: nat :: InTurn(run, launches, steps, at) ==> AllHold(run, After(run, steps))
  }

  /** What is possible launch by launch is possible of the launches together. */
  lemma {:induction false} TurnsArePossible(run: string, launches: seq<Launch>, steps: seq<Step>, at: nat)
    requires InTurn(run, launches, steps, at)
    ensures Possible(run, NeededByAny(launches), steps)
  {
    if steps != [] {
      var before: nat :| Follows(run, launches, steps, before, at);
      TurnsArePossible(run, launches, steps[..|steps| - 1], before);
      assert Needed(launches[at]) <= NeededByAny(launches);
    }
  }

  lemma {:induction false} OneLaunch(run: string, launches: seq<Launch>, steps: seq<Step>, at: nat)
    requires at < |launches| && Possible(run, Needed(launches[at]), steps)
    ensures InTurn(run, launches, steps, at)
  {
    if steps != [] {
      OneLaunch(run, launches, steps[..|steps| - 1], at);
      assert Follows(run, launches, steps, at, at);
    }
  }

  /** What launch `j` does after launch `i` has ended. */
  lemma {:induction false} NextLaunch(run: string, launches: seq<Launch>, all: set<Triple>, steps: seq<Step>,
                                      more: seq<Step>, i: nat, j: nat)
    requires InTurn(run, launches, steps, i) && After(run, steps).process.Idle? && i < j < |launches|
    requires Possible(run, all, steps + more)
    requires forall step :: step in more && step.Take? ==> step.triple in Needed(launches[j])
    ensures more != [] ==> InTurn(run, launches, steps + more, j)
  {
    if more != [] {
      var n, whole := |more| - 1, steps + more;
      assert whole[..|whole| - 1] == steps + more[..n] && whole[|whole| - 1] == more[n];
      if n == 0 {
        assert steps + more[..n] == steps;
        assert Follows(run, launches, whole, i, j);
      } else {
        NextLaunch(run, launches, all, steps, more[..n], i, j);
        assert Follows(run, launches, whole, j, j);
      }
    }
  }

  /** Two launches that share a place: the first ingests `a`, and the second clears it. */
  lemma SharedPlaceIsLost(run: string, launches: seq<Launch>, i: nat, j: nat, a: Triple, b: Triple)
    requires i < j < |launches| && a in Needed(launches[i]) && b in Needed(launches[j])
    requires a != b && PlaceOf(run, a) == PlaceOf(run, b)
    ensures !NoneLoses(run, launches)
  {
    var first, both := Needed(launches[i]), Needed(launches[i]) + {b};
    var steps := OneIngested(run, first, a);
    OneLaunch(run, launches, steps, i);
    OfMore(run, first, both, steps);
    var more := OneLost(run, both, steps, a, b);
    NextLaunch(run, launches, both, steps, more, i, j);
    assert steps + [] == steps;
  }

  lemma {:induction false} OfMore(run: string, all: set<Triple>, more: set<Triple>, steps: seq<Step>)
    requires all <= more && Possible(run, all, steps)
    ensures Possible(run, more, steps)
  {
    if steps != [] {
      OfMore(run, all, more, steps[..|steps| - 1]);
    }
  }

  /** Each launch was accepted, and still: no marker is ever false exactly when the keys of all
      the launches together would have been. Attaching checks those of one launch. */
  lemma RelaunchesSafeExactlyWhen(run: string, launches: seq<Launch>)
    requires WellNamed(run, NeededByAny(launches)) && forall l :: l in launches ==> Accepted(l)
    ensures NoneLoses(run, launches) <==> forall pack :: Apart(ScopeKeys(NeededByAny(launches), pack))
  {
    var all := NeededByAny(launches);
    if pack :| !Apart(ScopeKeys(all, pack)) {
      var i, j, a, b := Colliding(run, launches, pack);
      SharedPlaceIsLost(run, launches, i, j, a, b);
    } else {
      ApartIsolates(run, all);
      forall steps, at: nat | InTurn(run, launches, steps, at)
        ensures AllHold(run, After(run, steps))
      {
        TurnsArePossible(run, launches, steps, at);
        WholeIngest(run, all, steps);
      }
    }
  }

  lemma ApartIsolates(run: string, all: set<Triple>)
    requires WellNamed(run, all) && forall pack :: Apart(ScopeKeys(all, pack))
    ensures Isolated(run, all)
  {
    forall a, b | a in all && b in all && a != b
      ensures PlaceOf(run, a) != PlaceOf(run, b)
    {
      if a.pack == b.pack {
        assert ScopeKey(a) in ScopeKeys(all, a.pack) && ScopeKey(b) in ScopeKeys(all, a.pack);
        if ScopeKey(a) == ScopeKey(b) {
          ScopeKeyInjective(a, b);
        }
      }
    }
  }

  /** Keys that collide are those of different launches. */
  lemma Colliding(run: string, launches: seq<Launch>, pack: string) returns (i: nat, j: nat, a: Triple, b: Triple)
    requires (forall l :: l in launches ==> Accepted(l)) && !Apart(ScopeKeys(NeededByAny(launches), pack))
    ensures i < j < |launches| && a in Needed(launches[i]) && b in Needed(launches[j])
    ensures a != b && PlaceOf(run, a) == PlaceOf(run, b)
  {
    var keys := ScopeKeys(NeededByAny(launches), pack);
    forall key | key in keys
      ensures ScopeIdFor(key).Some?
    {
      var k, t := KeyOf(launches, pack, key);
    }
    var x, y :| x in keys && y in keys && ScopeIdFor(x) == ScopeIdFor(y) && x != y;
    i, a := KeyOf(launches, pack, x);
    j, b := KeyOf(launches, pack, y);
    if i == j {
      ApartWithin(launches[i], a, b);
    } else if j < i {
      i, j, a, b := j, i, b, a;
    }
  }

  lemma KeyOf(launches: seq<Launch>, pack: string, key: string) returns (k: nat, t: Triple)
    requires (forall l :: l in launches ==> Accepted(l)) && key in ScopeKeys(NeededByAny(launches), pack)
    ensures k < |launches| && t in Needed(launches[k]) && t.pack == pack && ScopeKey(t) == key
    ensures ScopeIdFor(key).Some?
  {
    t :| t in NeededByAny(launches) && t.pack == pack && ScopeKey(t) == key;
    var l :| l in launches && t in Needed(l);
    k :| 0 <= k < |launches| && launches[k] == l;
    assert key in ScopeKeys(Needed(l), pack);
  }

  lemma ApartWithin(l: Launch, a: Triple, b: Triple)
    requires Accepted(l) && a in Needed(l) && b in Needed(l) && a.pack == b.pack
    requires ScopeIdFor(ScopeKey(a)) == ScopeIdFor(ScopeKey(b))
    ensures ScopeKey(a) == ScopeKey(b)
  {
    assert ScopeKey(a) in ScopeKeys(Needed(l), a.pack) && ScopeKey(b) in ScopeKeys(Needed(l), a.pack);
  }

  /** Two haystacks whose names slug alike, one in each of two launches: each launch is
      accepted, and the second clears what the first ingested. */
  lemma TwoHaystacks(run: string, arm: Arm)
    requires ':' !in arm.extractor
    ensures var launches := [Launch([arm], {"a b"}), Launch([arm], {"a-b"})];
      && (forall l :: l in launches ==> Accepted(l)) && !NoneLoses(run, launches)
  {
    var first, second := Launch([arm], {"a b"}), Launch([arm], {"a-b"});
    var a, b := StoreOf("a b", arm), StoreOf("a-b", arm);
    SlugsAlike(arm.extractor);
    assert Needed(first) == {a} && Needed(second) == {b};
    assert ScopeKey(a) == "a b:" + arm.extractor && ScopeKey(b) == "a-b:" + arm.extractor;
    AcceptedAlone(first, a);
    AcceptedAlone(second, b);
    SharedPlaceIsLost(run, [first, second], 0, 1, a, b);
  }

  lemma AcceptedAlone(l: Launch, t: Triple)
    requires Needed(l) == {t} && ScopeIdFor(ScopeKey(t)).Some?
    ensures Accepted(l)
  {
    forall pack
      ensures ScopeKeys({t}, pack) <= {ScopeKey(t)} && Apart(ScopeKeys({t}, pack))
    {
    }
  }

  lemma SlugsAlike(extractor: string)
    ensures ScopeIdFor("a b:" + extractor).Some? && ScopeIdFor("a b:" + extractor) == ScopeIdFor("a-b:" + extractor)
  {
    var rest := "b:" + extractor;
    assert "a b:" + extractor == "a " + rest && "a-b:" + extractor == "a-" + rest;
    FirstLetter("a " + rest);
    Collapsed(' ', rest);
    Collapsed('-', rest);
  }

  lemma Collapsed(c: char, rest: string)
    requires c == ' ' || c == '-'
    ensures Collapse(Lower(['a', c] + rest)) == "a" + Hyphened(Collapse(Lower(rest)))
  {
    var s := ['a', c] + rest;
    assert s[1..] == [c] + rest && s[1..][1..] == rest;
    var l := Lower(s);
    assert l == ['a'] + Lower(s[1..]) && Lower(s[1..]) == [c] + Lower(rest);
    assert l[1..] == Lower(s[1..]) && l[1..][1..] == Lower(rest);
  }

  // ------------------------------------------------------- the policies of all launches

  /** The policy that the ingest of a store is made under: that of the first arm that has it. */
  function PolicyFor(arms: seq<Arm>, extractor: string, pack: string): Option<string> {
    if arms == [] then None
    else if arms[0].extractor == extractor && arms[0].pack == pack then Some(arms[0].policy)
    else PolicyFor(arms[1..], extractor, pack)
  }

  /** `builder` names for each store the launch that completed it, which needed it. */
  ghost predicate Builders(launches: seq<Launch>, builder: map<Triple, nat>) {
    forall t :: t in builder ==> builder[t] < |launches| && t in Needed(launches[builder[t]])
  }

  /** Launch `at` gets to its questions: all it needs is built, by itself or before. */
  ghost predicate Reads(launches: seq<Launch>, builder: map<Triple, nat>, at: nat) {
    at < |launches| && forall t :: t in Needed(launches[at]) ==> t in builder && builder[t] <= at
  }

  function BuiltUnder(launches: seq<Launch>, builder: map<Triple, nat>, t: Triple): Option<string>
    requires t in builder && builder[t] < |launches|
  {
    PolicyFor(launches[builder[t]].arms, t.extractor, t.pack)
  }

  /** Every arm that answers questions reads stores built under the policy it names. */
  ghost predicate UnderOwnPolicy(launches: seq<Launch>, builder: map<Triple, nat>)
    requires Builders(launches, builder)
  {
    forall at: nat, arm, h | Reads(launches, builder, at) && arm in launches[at].arms && h in launches[at].haystacks ::
      BuiltUnder(launches, builder, StoreOf(h, arm)) == Some(arm.policy)
  }

  /** Arms of `l` and `m` that share a store name the same policy. */
  ghost predicate Agree(l: Launch, m: Launch) {
    forall a, b, h | a in l.arms && b in m.arms && h in l.haystacks && h in m.haystacks ::
      StoreOf(h, a) == StoreOf(h, b) ==> a.policy == b.policy
  }

  ghost predicate OnePolicyEach(launches: seq<Launch>) {
    forall l, m :: l in launches && m in launches ==> Agree(l, m)
  }

  lemma {:induction false} FirstPolicy(arms: seq<Arm>, arm: Arm) returns (first: Arm)
    requires arm in arms
    ensures first in arms && first.extractor == arm.extractor && first.pack == arm.pack
    ensures PolicyFor(arms, arm.extractor, arm.pack) == Some(first.policy)
  {
    first := arms[0];
    if first.extractor != arm.extractor || first.pack != arm.pack {
      first := FirstPolicy(arms[1..], arm);
    }
  }

  /** The first launch that needs the store. */
  function Needer(launches: seq<Launch>, t: Triple): nat {
    if launches == [] || t in Needed(launches[0]) then 0 else 1 + Needer(launches[1..], t)
  }

  lemma {:induction false} NeederIsFirst(launches: seq<Launch>, t: Triple, k: nat)
    requires k < |launches| && t in Needed(launches[k])
    ensures Needer(launches, t) <= k && t in Needed(launches[Needer(launches, t)])
  {
    if t !in Needed(launches[0]) {
      NeederIsFirst(launches[1..], t, k - 1);
    }
  }

  /** Whoever completes the stores, every arm reads stores built under its own policy exactly
      when no two arms of one store, in one launch or in two, name different policies. */
  lemma PoliciesHoldExactlyWhen(launches: seq<Launch>)
    ensures (forall builder | Builders(launches, builder) :: UnderOwnPolicy(launches, builder))
      <==> OnePolicyEach(launches)
  {
    if OnePolicyEach(launches) {
      forall builder, at: nat, arm, h | Builders(launches, builder) && Reads(launches, builder, at)
                                        && arm in launches[at].arms && h in launches[at].haystacks
        ensures BuiltUnder(launches, builder, StoreOf(h, arm)) == Some(arm.policy)
      {
        SamePolicy(launches, builder, at, arm, h);
      }
    }
    if !OnePolicyEach(launches) {
      var l, m :| l in launches && m in launches && !Agree(l, m);
      var a, b, h :| a in l.arms && b in m.arms && h in l.haystacks && h in m.haystacks
                     && StoreOf(h, a) == StoreOf(h, b) && a.policy != b.policy;
      var builder := BuiltAtOnce(launches);
      var i: nat :| i < |launches| && launches[i] == l;
      var j: nat :| j < |launches| && launches[j] == m;
      assert Reads(launches, builder, i) && Reads(launches, builder, j);
    }
  }

  lemma SamePolicy(launches: seq<Launch>, builder: map<Triple, nat>, at: nat, arm: Arm, h: string)
    requires OnePolicyEach(launches) && Builders(launches, builder) && Reads(launches, builder, at)
    requires arm in launches[at].arms && h in launches[at].haystacks && StoreOf(h, arm) in Needed(launches[at])
    ensures BuiltUnder(launches, builder, StoreOf(h, arm)) == Some(arm.policy)
  {
    var t := StoreOf(h, arm);
    var l := launches[builder[t]];
    var a := ArmOf(l, t);
    var b := FirstPolicy(l.arms, a);
    assert Agree(l, launches[at]) && StoreOf(h, b) == StoreOf(h, arm);
  }

  lemma ArmOf(l: Launch, t: Triple) returns (a: Arm)
    requires t in Needed(l)
    ensures a in l.arms && t.haystack in l.haystacks && StoreOf(t.haystack, a) == t
  {
    var h, arm :| h in l.haystacks && arm in l.arms && StoreOf(h, arm) == t;
    a := arm;
  }

  /** Each store is built by the first launch that needs it, so all of them read. */
  lemma BuiltAtOnce(launches: seq<Launch>) returns (builder: map<Triple, nat>)
    ensures Builders(launches, builder) && forall at: nat :: at < |launches| ==> Reads(launches, builder, at)
  {
    builder := map t | t in NeededByAny(launches) :: Needer(launches, t);
    forall at: nat, t | at < |launches| && t in Needed(launches[at])
      ensures t in builder && builder[t] <= at && t in Needed(launches[builder[t]])
    {
      NeederIsFirst(launches, t, at);
    }
  }

  /** Two arms of one launch: the second reads what was built under the policy of the first. */
  lemma TwoPolicies(haystack: string, first: Arm, second: Arm)
    requires StoreOf(haystack, first) == StoreOf(haystack, second) && first.policy != second.policy
    ensures var launches, t := [Launch([first, second], {haystack})], StoreOf(haystack, first);
      && Builders(launches, map[t := 0]) && Reads(launches, map[t := 0], 0)
      && BuiltUnder(launches, map[t := 0], StoreOf(haystack, second)) == Some(first.policy)
      && !UnderOwnPolicy(launches, map[t := 0])
  {
    var l, t := Launch([first, second], {haystack}), StoreOf(haystack, first);
    assert Needed(l) == {t} && [l][0] == l && second in l.arms;
    assert PolicyFor(l.arms, t.extractor, t.pack) == Some(first.policy);
  }
}
