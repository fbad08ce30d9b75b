/** The duplicate-stream benchmark: ingest a labelled stream, then score its merges. */
module Dupstream {
  import opened Options
  import opened Counting

  // ------------------------------------------------------------------- the stream

  /** What the engine said of one write; a confirmation is then resolved. */
  datatype Outcome =
    | Inserted(node: nat)
    | Merged(node: nat)
    | NeedsConfirmation(answer: Answer)
    | Unrecognised
    | Raised

  datatype Answer = AsNew(node: nat) | IntoOld(node: nat) | Neither | AnswerRaised

  /** One variant of the stream, by position, with what came of writing it. */
  datatype Step = Step(cls: nat, contradiction: bool, outcome: Outcome)

  datatype Landing = Landing(variant: nat, node: nat)

  datatype Merge = Merge(variant: nat, cls: nat, node: nat)

  function LandsOn(s: Step): Option<nat> {
    match s.outcome
    case Inserted(n) => Some(n)
    case Merged(n) => Some(n)
    case NeedsConfirmation(AsNew(n)) => Some(n)
    case NeedsConfirmation(IntoOld(n)) => Some(n)
    case _ => None
  }

  predicate IsMerge(s: Step) {
    s.outcome.Merged? || (s.outcome.NeedsConfirmation? && s.outcome.answer.IntoOld?)
  }

  function Landings(steps: seq<Step>): seq<Landing> {
    if steps == [] then [] else
    var last := |steps| - 1;
    Landings(steps[..last])
    + (if LandsOn(steps[last]).Some? then [Landing(last, LandsOn(steps[last]).value)] else [])
  }

  function Merges(steps: seq<Step>): seq<Merge> {
    if steps == [] then [] else
    var last := |steps| - 1;
    Merges(steps[..last])
    + (if IsMerge(steps[last]) then [Merge(last, steps[last].cls, LandsOn(steps[last]).value)] else [])
  }

  /** What can come of one write, at each of the two stages. A confirmation answered with
      neither an insert nor a merge leaves no trace. */
  datatype Event = Inserts | MergesIn | Asks | ThenInserts | ThenMerges | Fails | ThenFails | NoTrace

  ghost predicate Happens(s: Step, e: Event) {
    match e
    case Inserts => s.outcome.Inserted?
    case MergesIn => s.outcome.Merged?
    case Asks => s.outcome.NeedsConfirmation?
    case ThenInserts => s.outcome.NeedsConfirmation? && s.outcome.answer.AsNew?
    case ThenMerges => s.outcome.NeedsConfirmation? && s.outcome.answer.IntoOld?
    case Fails => s.outcome.Unrecognised? || s.outcome.Raised?
    case ThenFails => s.outcome.NeedsConfirmation? && s.outcome.answer.AnswerRaised?
    case NoTrace => s.outcome.NeedsConfirmation? && s.outcome.answer.Neither?
  }

  ghost function Times(steps: seq<Step>, e: Event): nat {
    if steps == [] then 0
    else Times(steps[..|steps| - 1], e) + if Happens(steps[|steps| - 1], e) then 1 else 0
  }

  ghost function Happened(steps: seq<Step>, e: Event): seq<bool> {
    seq(|steps|, k requires 0 <= k < |steps| => Happens(steps[k], e))
  }

  lemma {:induction false} CountedOver(steps: seq<Step>, e: Event)
    ensures Times(steps, e) == CountTrue(Happened(steps, e))
  {
    if steps != [] {
      var last := |steps| - 1;
      CountedOver(steps[..last], e);
      assert Happened(steps, e)[..last] == Happened(steps[..last], e);
    }
  }

  /** It is the number of writes it happened to. */
  lemma TimesIs(steps: seq<Step>, e: Event)
    ensures Times(steps, e) == |TrueAt(Happened(steps, e))|
  {
    CountedOver(steps, e);
    TrueOnes(Happened(steps, e));
  }

  lemma OneMore(steps: seq<Step>, s: Step)
    ensures forall e :: Times(steps + [s], e) == Times(steps, e) + if Happens(s, e) then 1 else 0
    ensures Landings(steps + [s]) ==
      Landings(steps) + if LandsOn(s).Some? then [Landing(|steps|, LandsOn(s).value)] else []
    ensures Merges(steps + [s]) ==
      Merges(steps) + if IsMerge(s) then [Merge(|steps|, s.cls, LandsOn(s).value)] else []
  {
    assert (steps + [s])[..|steps|] == steps;
  }

  /** Every write and every confirmation is counted once, or leaves no trace. */
  lemma {:induction false} TimesAddUp(steps: seq<Step>)
    ensures |steps| == Times(steps, Inserts) + Times(steps, MergesIn) + Times(steps, Asks) + Times(steps, Fails)
    ensures Times(steps, Asks) ==
      Times(steps, ThenInserts) + Times(steps, ThenMerges) + Times(steps, ThenFails) + Times(steps, NoTrace)
    ensures |Merges(steps)| == Times(steps, MergesIn) + Times(steps, ThenMerges)
    ensures |Landings(steps)| == |Merges(steps)| + Times(steps, Inserts) + Times(steps, ThenInserts)
  {
    if steps != [] {
      TimesAddUp(steps[..|steps| - 1]);
    }
  }

  /** The counters and records of one arm. */
  class ArmResult {
    var inserted: nat
    var merged: nat
    var needsConfirmation: nat
    var resolvedToInsert: nat
    var resolvedToMerge: nat
    var errors: nat
    var resolveErrors: nat
    var landing: seq<Landing>
    var merges: seq<Merge>

    constructor ()
      ensures Records([])
    {
      inserted, merged, needsConfirmation, resolvedToInsert, resolvedToMerge := 0, 0, 0, 0, 0;
      errors, resolveErrors, landing, merges := 0, 0, [], [];
    }

    /** Each counter is the number of writes that met what it counts. */
    ghost predicate Records(steps: seq<Step>)
      reads this
    {
      && landing == Landings(steps) && merges == Merges(steps)
      && inserted == Times(steps, Inserts) && merged == Times(steps, MergesIn)
      && needsConfirmation == Times(steps, Asks)
      && resolvedToInsert == Times(steps, ThenInserts) && resolvedToMerge == Times(steps, ThenMerges)
      && errors == Times(steps, Fails) && resolveErrors == Times(steps, ThenFails)
    }

    method Take(v: nat, s: Step)
      modifies this
      ensures inserted == old(inserted) + if Happens(s, Inserts) then 1 else 0
      ensures merged == old(merged) + if Happens(s, MergesIn) then 1 else 0
      ensures needsConfirmation == old(needsConfirmation) + if Happens(s, Asks) then 1 else 0
      ensures resolvedToInsert == old(resolvedToInsert) + if Happens(s, ThenInserts) then 1 else 0
      ensures resolvedToMerge == old(resolvedToMerge) + if Happens(s, ThenMerges) then 1 else 0
      ensures errors == old(errors) + if Happens(s, Fails) then 1 else 0
      ensures resolveErrors == old(resolveErrors) + if Happens(s, ThenFails) then 1 else 0
      ensures landing == old(landing) + if LandsOn(s).Some? then [Landing(v, LandsOn(s).value)] else []
      ensures merges == old(merges) + if IsMerge(s) then [Merge(v, s.cls, LandsOn(s).value)] else []
    {
      match s.outcome {
        case Inserted(n) =>
          inserted, landing := inserted + 1, landing + [Landing(v, n)];
        case Merged(n) =>
          merged, landing := merged + 1, landing + [Landing(v, n)];
          merges := merges + [Merge(v, s.cls, n)];
        case NeedsConfirmation(answer) =>
          needsConfirmation := needsConfirmation + 1;
          match answer {
            case AsNew(n) =>
              resolvedToInsert, landing := resolvedToInsert + 1, landing + [Landing(v, n)];
            case IntoOld(n) =>
              resolvedToMerge, landing := resolvedToMerge + 1, landing + [Landing(v, n)];
              merges := merges + [Merge(v, s.cls, n)];
            case Neither =>
            case AnswerRaised =>
              resolveErrors := resolveErrors + 1;
          }
        case Unrecognised =>
          errors := errors + 1;
        case Raised =>
          errors := errors + 1;
      }
    }
  }

  method RunArm(steps: seq<Step>) returns (arm: ArmResult)
    ensures fresh(arm) && arm.Records(steps)
  {
    arm := new ArmResult();
    assert steps[..0] == [];
    for v := 0 to |steps|
      invariant fresh(arm) && arm.Records(steps[..v])
    {
      assert steps[..v + 1] == steps[..v] + [steps[v]];
      OneMore(steps[..v], steps[v]);
      arm.Take(v, steps[v]);
    }
    assert steps[..|steps|] == steps;
  }

  // ---------------------------------------------------------------- what is scored

  /** The first variant to land on a node. */
  ghost predicate Claims(steps: seq<Step>, i: nat, node: nat) {
    && i < |steps| && LandsOn(steps[i]) == Some(node)
    && forall j :: 0 <= j < i ==> LandsOn(steps[j]) != Some(node)
  }

  /** A merge the score credits: onto a node whose first variant is of the same class. */
  ghost predicate Credited(steps: seq<Step>, i: nat) {
    && i < |steps| && IsMerge(steps[i]) && !steps[i].contradiction
    && exists k: nat :: Claims(steps, k, LandsOn(steps[i]).value) && steps[k].cls == steps[i].cls
  }

  ghost predicate Crossing(steps: seq<Step>, i: nat) {
    && i < |steps| && IsMerge(steps[i]) && !steps[i].contradiction
    && exists k: nat :: Claims(steps, k, LandsOn(steps[i]).value) && steps[k].cls != steps[i].cls
  }

  /** A write that follows another of its class. */
  predicate Follows(steps: seq<Step>, i: nat) {
    i < |steps| && exists j :: 0 <= j < i && steps[j].cls == steps[i].cls
  }

  predicate Opportunity(steps: seq<Step>, i: nat) {
    i < |steps| && !steps[i].contradiction && Follows(steps, i)
  }

  /** A merge by the first variant of its class, onto a node that no variant had landed
      on: the write that put the node there was not recorded. */
  ghost predicate Orphan(steps: seq<Step>, i: nat) {
    && i < |steps| && IsMerge(steps[i]) && !steps[i].contradiction && !Follows(steps, i)
    && Claims(steps, i, LandsOn(steps[i]).value)
  }

  ghost function CreditedSet(steps: seq<Step>, n: nat): set<nat> {
    set i: nat | i < n && Credited(steps, i)
  }

  ghost function CrossingSet(steps: seq<Step>, n: nat): set<nat> {
    set i: nat | i < n && Crossing(steps, i)
  }

  ghost function OpportunitySet(steps: seq<Step>, n: nat): set<nat> {
    set i: nat | i < n && Opportunity(steps, i)
  }

  ghost function OrphanSet(steps: seq<Step>): set<nat> {
    set i: nat | i < |steps| && Orphan(steps, i)
  }

  /** An opportunity not taken: the write did not merge, or merged onto a node that another
      class landed on first. */
  ghost predicate MissedAt(steps: seq<Step>, i: nat) {
    Opportunity(steps, i) && (!IsMerge(steps[i]) || Crossing(steps, i))
  }

  ghost function Missed(steps: seq<Step>): set<nat> {
    set i: nat | i < |steps| && MissedAt(steps, i)
  }

  /** A credited merge took an opportunity unless it is an orphan. */
  lemma CreditedWithoutOpportunity(steps: seq<Step>, i: nat)
    ensures Credited(steps, i) && !Opportunity(steps, i) <==> Orphan(steps, i)
  {
    if Credited(steps, i) && !Opportunity(steps, i) {
      var k: nat :| Claims(steps, k, LandsOn(steps[i]).value) && steps[k].cls == steps[i].cls;
      assert k < i ==> Follows(steps, i);
    }
  }

  /** An opportunity is missed exactly when it is not credited: a merge has an owner, if only
      itself. */
  lemma MissedWithoutCredit(steps: seq<Step>, i: nat)
    ensures MissedAt(steps, i) <==> Opportunity(steps, i) && !Credited(steps, i)
  {
    if i < |steps| && IsMerge(steps[i]) && !steps[i].contradiction {
      OwnersOwned(steps, |steps|);
      OwnerDecides(steps, i, Owners(steps, Landings(steps[..|steps|])));
    }
  }

  lemma OrphansAre(steps: seq<Step>)
    ensures OrphanSet(steps) == CreditedSet(steps, |steps|) - OpportunitySet(steps, |steps|)
  {
    forall i: nat
      ensures i in OrphanSet(steps) <==> i in CreditedSet(steps, |steps|) - OpportunitySet(steps, |steps|)
    {
      CreditedWithoutOpportunity(steps, i);
    }
  }

  lemma MissedAre(steps: seq<Step>)
    ensures Missed(steps) == OpportunitySet(steps, |steps|) - CreditedSet(steps, |steps|)
  {
    forall i: nat
      ensures i in Missed(steps) <==> i in OpportunitySet(steps, |steps|) - CreditedSet(steps, |steps|)
    {
      MissedWithoutCredit(steps, i);
    }
  }

  lemma Differences(c: set<nat>, o: set<nat>)
    ensures |c| + |o - c| == |o| + |c - o|
  {
    assert c == (c - o) + c * o && o == (o - c) + c * o;
    assert |c| == |c - o| + |c * o|;
    assert |o| == |o - c| + |c * o|;
  }

  /** The score's two counts, related for every stream: credited merges and missed
      opportunities are opportunities and orphans. */
  lemma CreditIdentity(steps: seq<Step>)
    ensures |CreditedSet(steps, |steps|)| + |Missed(steps)| == |OpportunitySet(steps, |steps|)| + |OrphanSet(steps)|
  {
    OrphansAre(steps);
    MissedAre(steps);
    Differences(CreditedSet(steps, |steps|), OpportunitySet(steps, |steps|));
  }

  /** Every merge went to a node that an earlier variant had landed on. */
  ghost predicate MergesAreTraced(steps: seq<Step>) {
    forall i :: 0 <= i < |steps| && IsMerge(steps[i]) ==> LandedBefore(steps, i, LandsOn(steps[i]).value)
  }

  ghost predicate LandedBefore(steps: seq<Step>, i: nat, node: nat)
    requires i <= |steps|
  {
    exists j :: 0 <= j < i && LandsOn(steps[j]) == Some(node)
  }

  lemma TracedIsNoOrphan(steps: seq<Step>, i: nat)
    requires MergesAreTraced(steps)
    ensures !Orphan(steps, i)
  {
    if i < |steps| && IsMerge(steps[i]) {
      assert LandedBefore(steps, i, LandsOn(steps[i]).value);
    }
  }

  /** With traced merges there are no orphans, so recall is a fraction. */
  lemma TracedIsBounded(steps: seq<Step>)
    requires MergesAreTraced(steps)
    ensures OrphanSet(steps) == {}
    ensures |CreditedSet(steps, |steps|)| <= |OpportunitySet(steps, |steps|)|
  {
    forall i: nat
      ensures i !in OrphanSet(steps)
    {
      TracedIsNoOrphan(steps, i);
    }
    CreditIdentity(steps);
  }

  /** The stream on which recall would be 2: a write of class 2 has some unrelated
      outcome, its node is not recorded, and two writes of class 3 merge onto it; the
      second of them had an opportunity, the first none. */
  lemma UntracedExceeds()
    ensures var steps := [Step(1, false, Inserted(10)), Step(2, false, Unrecognised), Step(3, false, Merged(20)),
                          Step(3, false, Merged(20))];
      |CreditedSet(steps, 4)| == 2 && |OpportunitySet(steps, 4)| == 1
  {
    var steps := [Step(1, false, Inserted(10)), Step(2, false, Unrecognised), Step(3, false, Merged(20)),
                  Step(3, false, Merged(20))];
    assert Claims(steps, 2, 20);
    assert Credited(steps, 2) && Credited(steps, 3);
    assert CreditedSet(steps, 4) == {2, 3};
    assert steps[2].cls == steps[3].cls;
    assert Opportunity(steps, 3);
    assert OpportunitySet(steps, 4) == {3};
  }

  // ----------------------------------------------------------------------- scoring

  datatype Score = Score(within: nat, cross: nat, contradictions: nat, unattributed: nat, opportunities: nat,
                         precision: real, precisionAll: real, recall: real)

  /** The class that each landed-on node belongs to: that of its first variant. */
  ghost predicate Owned(steps: seq<Step>, n: nat, owner: map<nat, nat>) {
    && n <= |steps|
    && (forall i: nat :: i < n && LandsOn(steps[i]).Some? ==> LandsOn(steps[i]).value in owner)
    && forall node :: node in owner ==> exists k: nat :: k < n && Claims(steps, k, node) && steps[k].cls == owner[node]
  }

  lemma LandingsOf(steps: seq<Step>, n: nat)
    requires n < |steps|
    ensures Landings(steps[..n + 1]) ==
            Landings(steps[..n]) + if LandsOn(steps[n]).Some? then [Landing(n, LandsOn(steps[n]).value)] else []
    ensures Merges(steps[..n + 1]) ==
            Merges(steps[..n]) + if IsMerge(steps[n]) then [Merge(n, steps[n].cls, LandsOn(steps[n]).value)] else []
  {
    assert steps[..n + 1][..n] == steps[..n];
  }

  function Owners(steps: seq<Step>, landing: seq<Landing>): map<nat, nat>
    requires forall l :: l in landing ==> l.variant < |steps|
  {
    if landing == [] then map[] else
    var l, before := landing[|landing| - 1], Owners(steps, landing[..|landing| - 1]);
    if l.node in before then before else before[l.node := steps[l.variant].cls]
  }

  lemma {:induction false} LandingVariants(steps: seq<Step>, n: nat)
    requires n <= |steps|
    ensures forall l :: l in Landings(steps[..n]) ==> l.variant < n
  {
    if n > 0 {
      LandingVariants(steps, n - 1);
      LandingsOf(steps, n - 1);
    }
  }

  lemma OwnedStep(steps: seq<Step>, n: nat, owner: map<nat, nat>, next: map<nat, nat>)
    requires n < |steps| && Owned(steps, n, owner)
    requires next == if LandsOn(steps[n]).Some? && LandsOn(steps[n]).value !in owner
                     then owner[LandsOn(steps[n]).value := steps[n].cls] else owner
    ensures Owned(steps, n + 1, next)
  {
    forall node | node in next
      ensures exists k: nat :: k < n + 1 && Claims(steps, k, node) && steps[k].cls == next[node]
    {
      if node in owner {
        var k: nat :| k < n && Claims(steps, k, node) && steps[k].cls == owner[node];
      } else {
        assert Claims(steps, n, node);
      }
    }
  }

  lemma OwnersNext(steps: seq<Step>, n: nat)
    requires n < |steps|
    requires forall l :: l in Landings(steps[..n]) ==> l.variant < |steps|
    requires forall l :: l in Landings(steps[..n + 1]) ==> l.variant < |steps|
    ensures var owner := Owners(steps, Landings(steps[..n]));
      Owners(steps, Landings(steps[..n + 1])) ==
      if LandsOn(steps[n]).Some? && LandsOn(steps[n]).value !in owner
      then owner[LandsOn(steps[n]).value := steps[n].cls] else owner
  {
    LandingsOf(steps, n);
    var before, after := Landings(steps[..n]), Landings(steps[..n + 1]);
    if LandsOn(steps[n]).Some? {
      assert after[..|after| - 1] == before;
    } else {
      assert after == before;
    }
  }

  lemma {:induction false} OwnersOwned(steps: seq<Step>, n: nat)
    requires n <= |steps|
    ensures forall l :: l in Landings(steps[..n]) ==> l.variant < |steps|
    ensures Owned(steps, n, Owners(steps, Landings(steps[..n])))
  {
    LandingVariants(steps, n);
    if n > 0 {
      LandingVariants(steps, n - 1);
      OwnersOwned(steps, n - 1);
      OwnersNext(steps, n - 1);
      OwnedStep(steps, n - 1, Owners(steps, Landings(steps[..n - 1])), Owners(steps, Landings(steps[..n])));
    }
  }

  datatype Tally = Tally(within: nat, cross: nat, contradictions: nat, unattributed: nat)

  function CountOne(t: Tally, m: Merge, contradiction: bool, owner: map<nat, nat>): Tally {
    if contradiction then t.(contradictions := t.contradictions + 1)
    else if m.node !in owner then t.(unattributed := t.unattributed + 1)
    else if owner[m.node] != m.cls then t.(cross := t.cross + 1)
    else t.(within := t.within + 1)
  }

  function TallyOf(steps: seq<Step>, merges: seq<Merge>, owner: map<nat, nat>): Tally
    requires forall m :: m in merges ==> m.variant < |steps|
  {
    if merges == [] then Tally(0, 0, 0, 0) else
    var m := merges[|merges| - 1];
    CountOne(TallyOf(steps, merges[..|merges| - 1], owner), m, steps[m.variant].contradiction, owner)
  }

  lemma {:induction false} MergeVariants(steps: seq<Step>, n: nat)
    requires n <= |steps|
    ensures forall m :: m in Merges(steps[..n]) ==> m.variant < n
  {
    if n > 0 {
      MergeVariants(steps, n - 1);
      LandingsOf(steps, n - 1);
    }
  }

  ghost predicate Tallied(steps: seq<Step>, n: nat, t: Tally)
    requires n <= |steps|
  {
    && t.within == |CreditedSet(steps, n)|
    && t.cross == |CrossingSet(steps, n)|
    && t.unattributed == 0
    && t.within + t.cross + t.contradictions == |Merges(steps[..n])|
  }

  lemma OwnerDecides(steps: seq<Step>, i: nat, owner: map<nat, nat>)
    requires i < |steps| && Owned(steps, |steps|, owner) && IsMerge(steps[i])
    ensures LandsOn(steps[i]).value in owner
    ensures !steps[i].contradiction ==> (Credited(steps, i) <==> owner[LandsOn(steps[i]).value] == steps[i].cls)
    ensures !steps[i].contradiction ==> (Crossing(steps, i) <==> owner[LandsOn(steps[i]).value] != steps[i].cls)
  {
    var node := LandsOn(steps[i]).value;
    var k: nat :| k < |steps| && Claims(steps, k, node) && steps[k].cls == owner[node];
    forall j: nat | Claims(steps, j, node)
      ensures j == k
    {
    }
  }

  lemma OneMoreStep(steps: seq<Step>, n: nat)
    ensures CreditedSet(steps, n + 1) == CreditedSet(steps, n) + if Credited(steps, n) then {n} else {}
    ensures CrossingSet(steps, n + 1) == CrossingSet(steps, n) + if Crossing(steps, n) then {n} else {}
    ensures OpportunitySet(steps, n + 1) == OpportunitySet(steps, n) + if Opportunity(steps, n) then {n} else {}
  {
  }

  lemma TallyOneMore(steps: seq<Step>, n: nat, owner: map<nat, nat>)
    requires n < |steps|
    requires forall m :: m in Merges(steps[..n]) ==> m.variant < |steps|
    requires forall m :: m in Merges(steps[..n + 1]) ==> m.variant < |steps|
    ensures var t := TallyOf(steps, Merges(steps[..n]), owner);
      TallyOf(steps, Merges(steps[..n + 1]), owner) ==
      if IsMerge(steps[n])
      then CountOne(t, Merge(n, steps[n].cls, LandsOn(steps[n]).value), steps[n].contradiction, owner) else t
  {
    LandingsOf(steps, n);
    var before, after := Merges(steps[..n]), Merges(steps[..n + 1]);
    if IsMerge(steps[n]) {
      assert after[..|after| - 1] == before;
    } else {
      assert after == before;
    }
  }

  /** The tally counts what the definitions say, and no merge is ever unattributed: a
      merge has landed on its own target. */
  lemma {:induction false} TallyMeans(steps: seq<Step>, n: nat, owner: map<nat, nat>)
    requires n <= |steps| && Owned(steps, |steps|, owner)
    ensures forall m :: m in Merges(steps[..n]) ==> m.variant < |steps|
    ensures Tallied(steps, n, TallyOf(steps, Merges(steps[..n]), owner))
  {
    MergeVariants(steps, n);
    if n > 0 {
      TallyMeans(steps, n - 1, owner);
      TallyNext(steps, n - 1, owner, TallyOf(steps, Merges(steps[..n - 1]), owner));
      TallyOneMore(steps, n - 1, owner);
    }
  }

  lemma OneMoreCount(steps: seq<Step>, n: nat)
    ensures |CreditedSet(steps, n + 1)| == |CreditedSet(steps, n)| + if Credited(steps, n) then 1 else 0
    ensures |CrossingSet(steps, n + 1)| == |CrossingSet(steps, n)| + if Crossing(steps, n) then 1 else 0
  {
    OneMoreStep(steps, n);
    assert n !in CreditedSet(steps, n) && n !in CrossingSet(steps, n);
  }

  lemma TallyNext(steps: seq<Step>, n: nat, owner: map<nat, nat>, t: Tally)
    requires n < |steps| && Owned(steps, |steps|, owner) && Tallied(steps, n, t)
    ensures Tallied(steps, n + 1,
      if IsMerge(steps[n])
      then CountOne(t, Merge(n, steps[n].cls, LandsOn(steps[n]).value), steps[n].contradiction, owner) else t)
  {
    OneMoreCount(steps, n);
    LandingsOf(steps, n);
    if IsMerge(steps[n]) {
      OwnerDecides(steps, n, owner);
    }
  }

  method NodeClasses(steps: seq<Step>, landing: seq<Landing>) returns (owner: map<nat, nat>)
    requires landing == Landings(steps)
    ensures Owned(steps, |steps|, owner)
  {
    assert steps[..|steps|] == steps;
    OwnersOwned(steps, |steps|);
    owner := map[];
    for i := 0 to |landing|
      invariant owner == Owners(steps, landing[..i])
    {
      var l := landing[i];
      assert landing[..i + 1][..i] == landing[..i];
      if l.node !in owner {
        owner := owner[l.node := steps[l.variant].cls];
      }
    }
    assert landing[..|landing|] == landing;
  }

  method TallyLoop(steps: seq<Step>, merges: seq<Merge>, owner: map<nat, nat>) returns (t: Tally)
    requires forall m :: m in merges ==> m.variant < |steps|
    ensures t == TallyOf(steps, merges, owner)
  {
    t := Tally(0, 0, 0, 0);
    for i := 0 to |merges|
      invariant t == TallyOf(steps, merges[..i], owner)
    {
      var m := merges[i];
      assert merges[..i + 1][..i] == merges[..i];
      if steps[m.variant].contradiction {
        t := t.(contradictions := t.contradictions + 1);
      } else if m.node !in owner {
        t := t.(unattributed := t.unattributed + 1);
      } else if owner[m.node] != m.cls {
        t := t.(cross := t.cross + 1);
      } else {
        t := t.(within := t.within + 1);
      }
    }
    assert merges[..|merges|] == merges;
  }

  method TallyMerges(steps: seq<Step>, merges: seq<Merge>, owner: map<nat, nat>) returns (t: Tally)
    requires merges == Merges(steps) && Owned(steps, |steps|, owner)
    ensures Tallied(steps, |steps|, t)
  {
    assert steps[..|steps|] == steps;
    TallyMeans(steps, |steps|, owner);
    t := TallyLoop(steps, merges, owner);
  }

  ghost predicate Seen(steps: seq<Step>, n: nat, seen: set<nat>)
    requires n <= |steps|
  {
    forall c :: c in seen <==> exists j :: 0 <= j < n && steps[j].cls == c
  }

  lemma SeenOneMore(steps: seq<Step>, n: nat, seen: set<nat>)
    requires n < |steps| && Seen(steps, n, seen)
    ensures Follows(steps, n) <==> steps[n].cls in seen
    ensures Seen(steps, n + 1, seen + {steps[n].cls})
  {
    forall c
      ensures c in seen + {steps[n].cls} <==> exists j :: 0 <= j < n + 1 && steps[j].cls == c
    {
      if c in seen {
        var j :| 0 <= j < n && steps[j].cls == c;
      } else if c != steps[n].cls {
        assert forall j :: 0 <= j < n ==> steps[j].cls != c;
      }
    }
  }

  method CountOpportunities(steps: seq<Step>) returns (count: nat)
    ensures count == |OpportunitySet(steps, |steps|)|
  {
    var seen: set<nat> := {};
    count := 0;
    for i := 0 to |steps|
      invariant count == |OpportunitySet(steps, i)|
      invariant Seen(steps, i, seen)
    {
      OneMoreStep(steps, i);
      SeenOneMore(steps, i, seen);
      if steps[i].cls in seen && !steps[i].contradiction {
        count := count + 1;
      }
      seen := seen + {steps[i].cls};
    }
  }

  /** Recall would exceed one. */
  ghost predicate Exceeds(steps: seq<Step>) {
    |OpportunitySet(steps, |steps|)| > 0 && |OrphanSet(steps)| > |Missed(steps)|
  }

  ghost predicate Counted(steps: seq<Step>, t: Tally, opportunities: nat) {
    && t.within == |CreditedSet(steps, |steps|)| && t.cross == |CrossingSet(steps, |steps|)|
    && t.within + t.cross + t.contradictions == |Merges(steps)|
    && t.unattributed == 0 && opportunities == |OpportunitySet(steps, |steps|)|
  }

  method Counts(steps: seq<Step>, landing: seq<Landing>, merges: seq<Merge>) returns (t: Tally, opportunities: nat)
    requires landing == Landings(steps) && merges == Merges(steps)
    ensures Counted(steps, t, opportunities)
  {
    var owner := NodeClasses(steps, landing);
    t := TallyMerges(steps, merges, owner);
    opportunities := CountOpportunities(steps);
    assert steps[..|steps|] == steps;
  }

  lemma ExceedsExactlyWhen(steps: seq<Step>, t: Tally, opportunities: nat)
    requires Counted(steps, t, opportunities)
    ensures opportunities > 0 && t.within > opportunities <==> Exceeds(steps)
  {
    CreditIdentity(steps);
  }

  ghost predicate Proper(s: Score) {
    && IsShare(s.recall, s.within, s.opportunities)
    && IsShare(1.0 - s.precision, s.cross, s.within + s.cross)
    && IsShare(1.0 - s.precisionAll, s.cross + s.contradictions, s.within + s.cross + s.contradictions)
  }

  /** `r` is the part of the whole, in [0, 1]; of nothing, zero. */
  ghost predicate IsShare(r: real, part: nat, whole: nat) {
    if whole == 0 then r == 0.0 else 0.0 <= r <= 1.0 && r * whole as real == part as real
  }

  method Share(part: nat, whole: nat) returns (r: real)
    requires whole > 0 ==> part <= whole
    ensures IsShare(r, part, whole)
  {
    if whole > 0 {
      r := part as real / whole as real;
    } else {
      r := 0.0;
    }
  }

  method Rates(t: Tally, opportunities: nat) returns (s: Score)
    requires opportunities > 0 ==> t.within <= opportunities
    ensures Tally(s.within, s.cross, s.contradictions, s.unattributed) == t && s.opportunities == opportunities
    ensures Proper(s)
  {
    var recall := Share(t.within, opportunities);
    var crossing := Share(t.cross, t.within + t.cross);
    var destroyed := Share(t.cross + t.contradictions, t.within + t.cross + t.contradictions);
    s := Score(t.within, t.cross, t.contradictions, t.unattributed, opportunities,
               1.0 - crossing, 1.0 - destroyed, recall);
  }

  /** Scores an arm; `None` is the assertion that recall exceeds one. It is raised exactly
      when orphans outnumber missed opportunities. */
  method ScoreArm(steps: seq<Step>, landing: seq<Landing>, merges: seq<Merge>) returns (score: Option<Score>)
    requires landing == Landings(steps) && merges == Merges(steps)
    ensures score.None? <==> Exceeds(steps)
    ensures score.Some? ==> Scored(steps, score.value)
  {
    var t, opportunities := Counts(steps, landing, merges);
    ExceedsExactlyWhen(steps, t, opportunities);
    if opportunities > 0 && t.within > opportunities {
      return None;
    }
    var s := Rates(t, opportunities);
    return Some(s);
  }

  ghost predicate Scored(steps: seq<Step>, s: Score) {
    && Counted(steps, Tally(s.within, s.cross, s.contradictions, s.unattributed), s.opportunities)
    && Proper(s)
  }
}
