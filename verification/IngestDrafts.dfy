/** Writing the drafts of one haystack: every draft ends as a node or a counted error, and
    later drafts and edges refer only to what was written. */
module IngestDrafts {
  import opened Options
  import opened Counting

  datatype Draft = Draft(localId: string, title: string, supersedes: Option<string>)

  datatype Edge = Edge(src: string, dst: string)

  /** What the engine replies to a write, a supersede or a resolution. An empty candidate
      stands for one without an id. */
  datatype Reply =
    | Inserted(node: string)
    | Merged(canonical: string)
    | MergedLinked(node: string)
    | NeedsConfirmation(candidates: seq<string>)
    | Odd
    | Raised

  /** What the adjudicating model says: an error, or a resolution and its target. */
  datatype Verdict = LlmError | Says(merge: bool, into: string)

  /** One draft and what the engine and the model will say about it. */
  datatype Step = Step(draft: Draft, write: Reply, verdict: Verdict, resolve: Reply)

  datatype Policy = AlwaysDistinct | LLMAdjudicate

  datatype Decision = Distinct | MergeInto(target: string)

  // -------------------------------------------------------------------- adjudication

  class Adjudicator {
    var fallbacks: nat
    var decisions: seq<Decision>

    constructor ()
      ensures fallbacks == 0 && decisions == []
    {
      fallbacks, decisions := 0, [];
    }

    /** Fails closed: a merge is decided only into a candidate that was offered. Each call
        is either a decision or a counted fallback. */
    method Decide(candidates: seq<string>, verdict: Verdict) returns (d: Decision)
      modifies this
      ensures d.MergeInto? <==> verdict.Says? && verdict.merge && verdict.into != "" && verdict.into in candidates
      ensures d.MergeInto? ==> d.target == verdict.into
      ensures fallbacks + |decisions| == old(fallbacks) + |old(decisions)| + 1
      ensures decisions == old(decisions) || decisions == old(decisions) + [d]
      ensures fallbacks > old(fallbacks) <==> verdict.LlmError? || (verdict.merge && d.Distinct?)
    {
      var offered := set c | c in candidates && c != "";
      if verdict.LlmError? {
        fallbacks := fallbacks + 1;
        return Distinct;
      }
      if verdict.merge {
        if verdict.into !in offered {
          fallbacks := fallbacks + 1;
          return Distinct;
        }
        d := MergeInto(verdict.into);
      } else {
        d := Distinct;
      }
      decisions := decisions + [d];
    }
  }

  // --------------------------------------------------------------------------- fates

  datatype Fate =
    | AsInserted | AsMerged | AsMergedLinked
    | ResolvedToInsert | ResolvedToMerge | ResolvedToMergeLinked
    | WriteError | ResolveError | ResolveOdd

  function Fates(s: Step): Fate {
    match s.write
    case Inserted(_) => AsInserted
    case Merged(_) => AsMerged
    case MergedLinked(_) => AsMergedLinked
    case Odd => WriteError
    case Raised => WriteError
    case NeedsConfirmation(_) =>
      match s.resolve
      case Inserted(_) => ResolvedToInsert
      case Merged(_) => ResolvedToMerge
      case MergedLinked(_) => ResolvedToMergeLinked
      case Raised => ResolveError
      case _ => ResolveOdd
  }

  /** The node a draft ends up as, if any. */
  function NodeOf(s: Step): Option<string> {
    var last := if s.write.NeedsConfirmation? then s.resolve else s.write;
    match last
    case Inserted(n) => Some(n)
    case Merged(n) => Some(n)
    case MergedLinked(n) => Some(n)
    case _ => None
  }

  function Count(steps: seq<Step>, f: Fate): nat {
    if steps == [] then 0
    else Count(steps[..|steps| - 1], f) + if Fates(steps[|steps| - 1]) == f then 1 else 0
  }

  datatype Entry = Entry(draft: Draft, node: string)

  /** The drafts that became nodes, in order. */
  function Written(steps: seq<Step>): seq<Entry> {
    if steps == [] then [] else
    var s := steps[|steps| - 1];
    Written(steps[..|steps| - 1]) + if NodeOf(s).Some? then [Entry(s.draft, NodeOf(s).value)] else []
  }

  /** What was written, in the order it was. */
  lemma {:induction false} WrittenJoin(a: seq<Step>, b: seq<Step>)
    ensures Written(a + b) == Written(a) + Written(b)
  {
    if b == [] {
      assert a + b == a;
    } else {
      var last := |b| - 1;
      assert (a + b)[..|a + b| - 1] == a + b[..last];
      WrittenJoin(a, b[..last]);
    }
  }

  /** The counts of the fates that make a node. */
  function Nodes(steps: seq<Step>): nat {
    Count(steps, AsInserted) + Count(steps, AsMerged) + Count(steps, AsMergedLinked)
    + Count(steps, ResolvedToInsert) + Count(steps, ResolvedToMerge) + Count(steps, ResolvedToMergeLinked)
  }

  function Errors(steps: seq<Step>): nat {
    Count(steps, WriteError) + Count(steps, ResolveError) + Count(steps, ResolveOdd)
  }

  predicate IsError(f: Fate) {
    f == WriteError || f == ResolveError || f == ResolveOdd
  }

  lemma ErrorHasNoNode(s: Step)
    ensures NodeOf(s).None? <==> IsError(Fates(s))
  {
  }

  /** One more draft meets one fate. */
  lemma CountsNext(steps: seq<Step>)
    requires steps != []
    ensures var init, e := steps[..|steps| - 1], IsError(Fates(steps[|steps| - 1]));
      && Errors(steps) == Errors(init) + (if e then 1 else 0)
      && Nodes(steps) == Nodes(init) + (if e then 0 else 1)
  {
    var init, f := steps[..|steps| - 1], Fates(steps[|steps| - 1]);
    assert forall g :: Count(steps, g) == Count(init, g) + if f == g then 1 else 0;
  }

  /** A node, or an error, for every draft: the nine fates partition them. */
  lemma {:induction false} FatesPartition(steps: seq<Step>)
    ensures |steps| == |Written(steps)| + Count(steps, WriteError) + Count(steps, ResolveError) + Count(steps, ResolveOdd)
    ensures |Written(steps)| == Count(steps, AsInserted) + Count(steps, AsMerged) + Count(steps, AsMergedLinked)
      + Count(steps, ResolvedToInsert) + Count(steps, ResolvedToMerge) + Count(steps, ResolvedToMergeLinked)
  {
    if steps != [] {
      var init := steps[..|steps| - 1];
      FatesPartition(init);
      ErrorHasNoNode(steps[|steps| - 1]);
      CountsNext(steps);
      assert |init| == |Written(init)| + Errors(init) && |Written(init)| == Nodes(init);
    }
  }

  // ------------------------------------------------------------------------- handles

  function ByLocalId(written: seq<Entry>): map<string, string> {
    if written == [] then map[] else
    var e := written[|written| - 1];
    ByLocalId(written[..|written| - 1])[e.draft.localId := e.node]
  }

  function ByTitle(written: seq<Entry>): map<string, string> {
    if written == [] then map[] else
    var e := written[|written| - 1];
    ByTitle(written[..|written| - 1])[e.draft.title := e.node]
  }

  ghost predicate LastNamed(written: seq<Entry>, i: nat, name: string, byTitle: bool) {
    && i < |written| && Handle(written[i], byTitle) == name
    && forall j :: i < j < |written| ==> Handle(written[j], byTitle) != name
  }

  function Handle(e: Entry, byTitle: bool): string {
    if byTitle then e.draft.title else e.draft.localId
  }

  function Named(written: seq<Entry>, byTitle: bool): map<string, string> {
    if byTitle then ByTitle(written) else ByLocalId(written)
  }

  /** A handle leads to the last node written under it, and to nothing else. */
  lemma {:induction false} HandleMeans(written: seq<Entry>, name: string, byTitle: bool)
    ensures name in Named(written, byTitle) <==> exists i: nat :: LastNamed(written, i, name, byTitle)
    ensures forall i: nat :: LastNamed(written, i, name, byTitle) ==>
      name in Named(written, byTitle) && Named(written, byTitle)[name] == written[i].node
  {
    if written != [] {
      var last := |written| - 1;
      var init := written[..last];
      HandleMeans(init, name, byTitle);
      if Handle(written[last], byTitle) == name {
        assert LastNamed(written, last, name, byTitle);
      } else {
        forall i: nat
          ensures LastNamed(written, i, name, byTitle) <==> LastNamed(init, i, name, byTitle)
        {
        }
      }
    }
  }

  /** The node a supersede refers to: a local id, a title, or a literal node id. An empty
      node id is no hit. */
  function Target(draft: Draft, resolved: map<string, string>, byTitle: map<string, string>, isId: string -> bool)
    : Option<string>
  {
    if draft.supersedes.None? then None else
    var r := draft.supersedes.value;
    if r in resolved && resolved[r] != "" then Some(resolved[r])
    else if r in byTitle && byTitle[r] != "" then Some(byTitle[r])
    else if isId(r) then Some(r)
    else None
  }

  ghost predicate NodeWritten(written: seq<Entry>, node: string) {
    exists i :: 0 <= i < |written| && written[i].node == node
  }

  ghost predicate Refers(written: seq<Entry>, r: string) {
    exists i :: 0 <= i < |written| && (written[i].draft.localId == r || written[i].draft.title == r)
  }

  /** What a supersede points at was written earlier, or is a literal id given as such. */
  lemma TargetIsKnown(draft: Draft, written: seq<Entry>, isId: string -> bool)
    ensures var t := Target(draft, ByLocalId(written), ByTitle(written), isId);
      t.Some? ==> NodeWritten(written, t.value) || (Some(t.value) == draft.supersedes && isId(t.value))
  {
    if draft.supersedes.Some? {
      var r := draft.supersedes.value;
      HandleMeans(written, r, false);
      HandleMeans(written, r, true);
      assert Named(written, false) == ByLocalId(written) && Named(written, true) == ByTitle(written);
    }
  }

  ghost predicate Hit(written: seq<Entry>, r: string, byTitle: bool, node: string) {
    node != "" && exists i: nat :: LastNamed(written, i, r, byTitle) && written[i].node == node
  }

  /** A local id comes before a title, and both before a literal id. */
  lemma TargetIs(draft: Draft, written: seq<Entry>, isId: string -> bool, node: string)
    requires draft.supersedes.Some?
    ensures var t, r := Target(draft, ByLocalId(written), ByTitle(written), isId), draft.supersedes.value;
      t == Some(node) <==>
      || Hit(written, r, false, node)
      || (Hit(written, r, true, node) && forall n :: !Hit(written, r, false, n))
      || (isId(r) && node == r && forall n :: !Hit(written, r, false, n) && !Hit(written, r, true, n))
  {
    var r := draft.supersedes.value;
    HitExactlyWhen(written, r, false);
    HitExactlyWhen(written, r, true);
    assert Named(written, false) == ByLocalId(written) && Named(written, true) == ByTitle(written);
    assert r in ByLocalId(written) ==> (Hit(written, r, false, ByLocalId(written)[r]) <==> ByLocalId(written)[r] != "");
    assert r in ByTitle(written) ==> (Hit(written, r, true, ByTitle(written)[r]) <==> ByTitle(written)[r] != "");
  }

  lemma HitExactlyWhen(written: seq<Entry>, r: string, byTitle: bool)
    ensures var known := Named(written, byTitle);
      forall n :: Hit(written, r, byTitle, n) <==> r in known && known[r] == n && n != ""
  {
    HandleMeans(written, r, byTitle);
  }

  /** With real node ids it resolves exactly when it names something written, or is an id. */
  lemma ResolvesExactlyWhen(draft: Draft, written: seq<Entry>, isId: string -> bool)
    requires draft.supersedes.Some? && forall i :: 0 <= i < |written| ==> written[i].node != ""
    ensures Target(draft, ByLocalId(written), ByTitle(written), isId).Some? <==>
      isId(draft.supersedes.value) || Refers(written, draft.supersedes.value)
  {
    var r := draft.supersedes.value;
    HandleMeans(written, r, false);
    HandleMeans(written, r, true);
    assert Named(written, false) == ByLocalId(written) && Named(written, true) == ByTitle(written);
    forall i | 0 <= i < |written|
      ensures written[i].draft.localId == r ==> r in ByLocalId(written) && ByLocalId(written)[r] != ""
      ensures written[i].draft.title == r ==> r in ByTitle(written) && ByTitle(written)[r] != ""
    {
      if written[i].draft.localId == r {
        var k := FindLast(written, i, r, false);
      }
      if written[i].draft.title == r {
        var k := FindLast(written, i, r, true);
      }
    }
  }

  /** A draft that merged is found by its names like any other. */
  lemma MergedIsFound(d: Draft, node: string, later: Draft, isId: string -> bool)
    requires node != "" && (later.supersedes == Some(d.localId) || later.supersedes == Some(d.title))
    ensures var s := Step(d, Merged(node), LlmError, Odd);
      && Fates(s) == AsMerged
      && Target(later, ByLocalId(Written([s])), ByTitle(Written([s])), isId) == Some(node)
  {
    var s := Step(d, Merged(node), LlmError, Odd);
    assert [s][..0] == [] && Written([s]) == [Entry(d, node)];
    assert [Entry(d, node)][..0] == [];
  }

  lemma {:induction false} FindLast(written: seq<Entry>, i: nat, name: string, byTitle: bool) returns (k: nat)
    requires i < |written| && Handle(written[i], byTitle) == name
    ensures LastNamed(written, k, name, byTitle)
    decreases |written| - i
  {
    if j :| i < j < |written| && Handle(written[j], byTitle) == name {
      k := FindLast(written, j, name, byTitle);
    } else {
      k := i;
    }
  }

  // --------------------------------------------------------------------------- edges

  /** The edges whose two ends became different nodes. */
  function Linkable(edges: seq<Edge>, resolved: map<string, string>): seq<(string, string)> {
    if edges == [] then [] else
    var e := edges[|edges| - 1];
    Linkable(edges[..|edges| - 1], resolved)
    + if Ends(e, resolved) then [(resolved[e.src], resolved[e.dst])] else []
  }

  predicate Ends(e: Edge, resolved: map<string, string>) {
    && e.src in resolved && e.dst in resolved
    && resolved[e.src] != "" && resolved[e.dst] != "" && resolved[e.src] != resolved[e.dst]
  }

  /** Every edge sent joins two nodes that were written, and differ. */
  lemma {:induction false} EdgesJoinWritten(edges: seq<Edge>, written: seq<Entry>)
    ensures forall p :: p in Linkable(edges, ByLocalId(written)) ==>
      p.0 != p.1 && NodeWritten(written, p.0) && NodeWritten(written, p.1)
  {
    if edges != [] {
      var e := edges[|edges| - 1];
      EdgesJoinWritten(edges[..|edges| - 1], written);
      if Ends(e, ByLocalId(written)) {
        HandleMeans(written, e.src, false);
        HandleMeans(written, e.dst, false);
      }
    }
  }

  /** No edge is lost to order: whether it is sent depends on the whole haystack, so an edge
      to a draft written later is sent as well. */
  lemma {:induction false} ForwardEdgesKept(edges: seq<Edge>, written: seq<Entry>, k: nat, i: nat, j: nat)
    requires k < |edges|
    requires LastNamed(written, i, edges[k].src, false) && LastNamed(written, j, edges[k].dst, false)
    requires written[i].node != "" && written[j].node != "" && written[i].node != written[j].node
    ensures (written[i].node, written[j].node) in Linkable(edges, ByLocalId(written))
  {
    HandleMeans(written, edges[k].src, false);
    HandleMeans(written, edges[k].dst, false);
    if k < |edges| - 1 {
      ForwardEdgesKept(edges[..|edges| - 1], written, k, i, j);
    }
  }

  /** An edge joins two nodes: those last written under the local ids it names, when both
      have an id and they differ. */
  ghost predicate Joins(written: seq<Entry>, e: Edge, p: (string, string)) {
    exists i: nat, j: nat :: LastNamed(written, i, e.src, false) && LastNamed(written, j, e.dst, false)
      && p == (written[i].node, written[j].node) && p.0 != "" && p.1 != "" && p.0 != p.1
  }

  lemma JoinsExactlyWhen(written: seq<Entry>, e: Edge, p: (string, string))
    ensures var known := ByLocalId(written);
      Joins(written, e, p) <==> Ends(e, known) && p == (known[e.src], known[e.dst])
  {
    HandleMeans(written, e.src, false);
    HandleMeans(written, e.dst, false);
    assert Named(written, false) == ByLocalId(written);
  }

  /** What is picked are the values at `at`, in order, and there are no others. */
  ghost predicate Picked<T>(offered: seq<Option<T>>, picked: seq<T>, at: seq<nat>) {
    && |at| == |picked|
    && (forall k :: 0 <= k < |at| ==> at[k] < |offered| && offered[at[k]] == Some(picked[k]))
    && (forall j, k :: 0 <= j < k < |at| ==> at[j] < at[k])
    && forall i :: 0 <= i < |offered| && i !in at ==> offered[i].None?
  }

  lemma OneMorePicked<T>(offered: seq<Option<T>>, p: T, picked: seq<T>, at: seq<nat>)
    requires Picked(offered, picked, at)
    ensures Picked(offered + [Some(p)], picked + [p], at + [|offered|])
  {
    assert (at + [|offered|])[|at|] == |offered|;
    forall i | i !in at + [|offered|]
      ensures i !in at && i != |offered|
    {
      assert forall k :: 0 <= k < |at| ==> (at + [|offered|])[k] == at[k];
    }
  }

  /** The nodes that each edge joins, if it joins any. */
  ghost function Joined(edges: seq<Edge>, resolved: map<string, string>): seq<Option<(string, string)>> {
    seq(|edges|, i requires 0 <= i < |edges| =>
      var e := edges[i];
      if Ends(e, resolved) then Some((resolved[e.src], resolved[e.dst])) else None)
  }

  lemma {:induction false} LinkablePicks(edges: seq<Edge>, resolved: map<string, string>) returns (at: seq<nat>)
    ensures Picked(Joined(edges, resolved), Linkable(edges, resolved), at)
  {
    at := [];
    if edges != [] {
      var last := |edges| - 1;
      var e, before := edges[last], Joined(edges[..last], resolved);
      at := LinkablePicks(edges[..last], resolved);
      if Ends(e, resolved) {
        OneMorePicked(before, (resolved[e.src], resolved[e.dst]), Linkable(edges[..last], resolved), at);
        assert Joined(edges, resolved) == before + [Some((resolved[e.src], resolved[e.dst]))];
        at := at + [last];
      } else {
        assert Joined(edges, resolved) == before + [None];
      }
    }
  }

  /** The edges sent are those that join two nodes, each once and in the order given. */
  lemma LinksAre(edges: seq<Edge>, written: seq<Entry>) returns (joined: seq<Option<(string, string)>>, at: seq<nat>)
    ensures |joined| == |edges|
    ensures forall i, p :: 0 <= i < |edges| ==> (joined[i] == Some(p) <==> Joins(written, edges[i], p))
    ensures Picked(joined, Linkable(edges, ByLocalId(written)), at)
  {
    joined := Joined(edges, ByLocalId(written));
    at := LinkablePicks(edges, ByLocalId(written));
    forall i, p | 0 <= i < |edges|
      ensures joined[i] == Some(p) <==> Joins(written, edges[i], p)
    {
      JoinsExactlyWhen(written, edges[i], p);
    }
  }

  // -------------------------------------------------------------------- the counters

  datatype Stats = Stats(inserted: nat, merged: nat, mergedLinked: nat, needsConfirmation: nat,
                         resolvedDistinct: nat, resolvedMerge: nat, resolvedToInsert: nat, resolvedToMerge: nat,
                         resolvedToMergeLinked: nat, writeErrors: nat)

  const ZERO := Stats(0, 0, 0, 0, 0, 0, 0, 0, 0, 0)

  /** Whether the policy merges this draft if asked. */
  predicate Merges(policy: Policy, s: Step) {
    && policy == LLMAdjudicate && s.write.NeedsConfirmation? && s.verdict.Says? && s.verdict.merge
    && s.verdict.into != "" && s.verdict.into in s.write.candidates
  }

  /** The counters once a confirmation has been answered. */
  function Asked(t: Stats, merge: bool): Stats {
    if merge then t.(needsConfirmation := t.needsConfirmation + 1, resolvedMerge := t.resolvedMerge + 1)
    else t.(needsConfirmation := t.needsConfirmation + 1, resolvedDistinct := t.resolvedDistinct + 1)
  }

  /** The counters once a draft has met its fate. */
  function Met(t: Stats, f: Fate, merge: bool): Stats {
    var a := Asked(t, merge);
    match f
    case AsInserted => t.(inserted := t.inserted + 1)
    case AsMerged => t.(merged := t.merged + 1)
    case AsMergedLinked => t.(mergedLinked := t.mergedLinked + 1)
    case WriteError => t.(writeErrors := t.writeErrors + 1)
    case ResolveError => t.(needsConfirmation := t.needsConfirmation + 1, writeErrors := t.writeErrors + 1)
    case ResolvedToInsert => a.(resolvedToInsert := t.resolvedToInsert + 1)
    case ResolvedToMerge => a.(resolvedToMerge := t.resolvedToMerge + 1)
    case ResolvedToMergeLinked => a.(resolvedToMergeLinked := t.resolvedToMergeLinked + 1)
    case ResolveOdd => a.(writeErrors := t.writeErrors + 1)
  }

  function Add(t: Stats, s: Step, policy: Policy): Stats {
    Met(t, Fates(s), Merges(policy, s))
  }

  function TallyOf(steps: seq<Step>, policy: Policy): Stats {
    if steps == [] then ZERO
    else Add(TallyOf(steps[..|steps| - 1], policy), steps[|steps| - 1], policy)
  }

  /** Every draft is counted once at the first stage, every confirmation once at the second:
      nothing is dropped without a counter. */
  ghost predicate Conserved(t: Stats, drafts: nat, resolveErrors: nat, odd: nat, written: nat) {
    && drafts == t.inserted + t.merged + t.mergedLinked + t.needsConfirmation + (t.writeErrors - resolveErrors - odd)
    && t.needsConfirmation == t.resolvedDistinct + t.resolvedMerge + resolveErrors
    && t.resolvedDistinct + t.resolvedMerge == t.resolvedToInsert + t.resolvedToMerge + t.resolvedToMergeLinked + odd
    && drafts == written + t.writeErrors
  }

  lemma {:induction false} CountersConserve(steps: seq<Step>, policy: Policy)
    ensures Conserved(TallyOf(steps, policy), |steps|,
                      Count(steps, ResolveError), Count(steps, ResolveOdd), |Written(steps)|)
  {
    if steps != [] {
      var init, s := steps[..|steps| - 1], steps[|steps| - 1];
      CountersConserve(init, policy);
      ErrorHasNoNode(s);
      MetConserves(TallyOf(init, policy), Fates(s), Merges(policy, s), |init|,
                   Count(init, ResolveError), Count(init, ResolveOdd), |Written(init)|);
    }
  }

  lemma MetConserves(t: Stats, f: Fate, merge: bool, drafts: nat, resolveErrors: nat, odd: nat, written: nat)
    requires Conserved(t, drafts, resolveErrors, odd, written)
    ensures Conserved(Met(t, f, merge), drafts + 1,
      resolveErrors + (if f == ResolveError then 1 else 0), odd + (if f == ResolveOdd then 1 else 0),
      written + (if IsError(f) then 0 else 1))
  {
  }

  /** The counter kept for a fate, where it has one of its own. */
  function CounterOf(t: Stats, f: Fate): nat {
    match f
    case AsInserted => t.inserted
    case AsMerged => t.merged
    case AsMergedLinked => t.mergedLinked
    case ResolvedToInsert => t.resolvedToInsert
    case ResolvedToMerge => t.resolvedToMerge
    case ResolvedToMergeLinked => t.resolvedToMergeLinked
    case _ => t.writeErrors
  }

  lemma MetCounts(t: Stats, met: Fate, merge: bool, f: Fate)
    ensures CounterOf(Met(t, met, merge), f) == CounterOf(t, f) +
      if met == f || (IsError(met) && IsError(f)) then 1 else 0
  {
  }

  /** Each counter counts the drafts that met its fate, and one counts all errors. */
  lemma {:induction false} CountersCount(steps: seq<Step>, policy: Policy, f: Fate)
    ensures CounterOf(TallyOf(steps, policy), f) ==
      if IsError(f) then Count(steps, WriteError) + Count(steps, ResolveError) + Count(steps, ResolveOdd)
      else Count(steps, f)
  {
    if steps != [] {
      var init, s := steps[..|steps| - 1], steps[|steps| - 1];
      CountersCount(init, policy, f);
      CountsNext(steps);
      MetCounts(TallyOf(init, policy), Fates(s), Merges(policy, s), f);
      assert Errors(init) == Count(init, WriteError) + Count(init, ResolveError) + Count(init, ResolveOdd);
    }
  }

  // What each counter counts, by the replies themselves.

  datatype Event =
    | Inserts | MergesIn | MergesLinked | Asks | AnswersDistinct | AnswersMerge
    | ThenInserts | ThenMerges | ThenMergesLinked | Fails

  /** The model was asked and named a candidate it was offered. */
  ghost predicate NamesCandidate(policy: Policy, candidates: seq<string>, verdict: Verdict) {
    && policy == LLMAdjudicate && verdict.Says? && verdict.merge
    && verdict.into != "" && exists i :: 0 <= i < |candidates| && candidates[i] == verdict.into
  }

  ghost predicate Happens(policy: Policy, s: Step, e: Event) {
    var asked := s.write.NeedsConfirmation?;
    match e
    case Inserts => s.write.Inserted?
    case MergesIn => s.write.Merged?
    case MergesLinked => s.write.MergedLinked?
    case Asks => asked
    case AnswersDistinct => asked && !s.resolve.Raised? && !NamesCandidate(policy, s.write.candidates, s.verdict)
    case AnswersMerge => asked && !s.resolve.Raised? && NamesCandidate(policy, s.write.candidates, s.verdict)
    case ThenInserts => asked && s.resolve.Inserted?
    case ThenMerges => asked && s.resolve.Merged?
    case ThenMergesLinked => asked && s.resolve.MergedLinked?
    case Fails =>
      || s.write.Odd? || s.write.Raised?
      || (asked && (s.resolve.NeedsConfirmation? || s.resolve.Odd? || s.resolve.Raised?))
  }

  ghost function Happened(policy: Policy, steps: seq<Step>, e: Event): seq<bool> {
    seq(|steps|, i requires 0 <= i < |steps| => Happens(policy, steps[i], e))
  }

  ghost function Times(policy: Policy, steps: seq<Step>, e: Event): nat {
    |TrueAt(Happened(policy, steps, e))|
  }

  ghost function Once(policy: Policy, s: Step, e: Event): nat {
    if Happens(policy, s, e) then 1 else 0
  }

  /** Each counter is one greater exactly where its event happened. */
  ghost predicate Tallied(t: Stats, u: Stats, policy: Policy, s: Step) {
    && u.inserted == t.inserted + Once(policy, s, Inserts)
    && u.merged == t.merged + Once(policy, s, MergesIn)
    && u.mergedLinked == t.mergedLinked + Once(policy, s, MergesLinked)
    && u.needsConfirmation == t.needsConfirmation + Once(policy, s, Asks)
    && u.resolvedDistinct == t.resolvedDistinct + Once(policy, s, AnswersDistinct)
    && u.resolvedMerge == t.resolvedMerge + Once(policy, s, AnswersMerge)
    && u.resolvedToInsert == t.resolvedToInsert + Once(policy, s, ThenInserts)
    && u.resolvedToMerge == t.resolvedToMerge + Once(policy, s, ThenMerges)
    && u.resolvedToMergeLinked == t.resolvedToMergeLinked + Once(policy, s, ThenMergesLinked)
    && u.writeErrors == t.writeErrors + Once(policy, s, Fails)
  }

  /** Each counter is the number of drafts at which its event happened. */
  ghost predicate CountsReplies(t: Stats, policy: Policy, steps: seq<Step>) {
    && t.inserted == Times(policy, steps, Inserts)
    && t.merged == Times(policy, steps, MergesIn)
    && t.mergedLinked == Times(policy, steps, MergesLinked)
    && t.needsConfirmation == Times(policy, steps, Asks)
    && t.resolvedDistinct == Times(policy, steps, AnswersDistinct)
    && t.resolvedMerge == Times(policy, steps, AnswersMerge)
    && t.resolvedToInsert == Times(policy, steps, ThenInserts)
    && t.resolvedToMerge == Times(policy, steps, ThenMerges)
    && t.resolvedToMergeLinked == Times(policy, steps, ThenMergesLinked)
    && t.writeErrors == Times(policy, steps, Fails)
  }

  lemma TimesNext(policy: Policy, steps: seq<Step>, e: Event)
    requires steps != []
    ensures Times(policy, steps, e) ==
      Times(policy, steps[..|steps| - 1], e) + Once(policy, steps[|steps| - 1], e)
  {
    var last := |steps| - 1;
    TrueNext(Happened(policy, steps, e));
    assert Happened(policy, steps, e)[..last] == Happened(policy, steps[..last], e);
  }

  lemma MergesIs(s: Step, policy: Policy)
    requires s.write.NeedsConfirmation?
    ensures Merges(policy, s) <==> NamesCandidate(policy, s.write.candidates, s.verdict)
  {
  }

  lemma AddTallies(t: Stats, s: Step, policy: Policy)
    ensures Tallied(t, Add(t, s, policy), policy, s)
  {
    if s.write.NeedsConfirmation? {
      MergesIs(s, policy);
      assert Add(t, s, policy) == Met(t, Fates(s), NamesCandidate(policy, s.write.candidates, s.verdict));
    }
  }

  /** So the counters of an ingest are those of the replies it got. */
  lemma {:induction false} TallyCountsReplies(steps: seq<Step>, policy: Policy)
    ensures CountsReplies(TallyOf(steps, policy), policy, steps)
  {
    if steps == [] {
      forall e: Event
        ensures Times(policy, steps, e) == 0
      {
        assert TrueAt(Happened(policy, steps, e)) == {};
      }
    } else {
      var init, s := steps[..|steps| - 1], steps[|steps| - 1];
      TallyCountsReplies(init, policy);
      AddTallies(TallyOf(init, policy), s, policy);
      forall e: Event
        ensures Times(policy, steps, e) == Times(policy, init, e) + Once(policy, s, e)
      {
        TimesNext(policy, steps, e);
      }
    }
  }

  /** The deterministic policy never decides a merge. */
  lemma {:induction false} NeverMergesByDefault(steps: seq<Step>)
    ensures TallyOf(steps, AlwaysDistinct).resolvedMerge == 0
  {
    if steps != [] {
      NeverMergesByDefault(steps[..|steps| - 1]);
    }
  }

  // ------------------------------------------------------------------------ the pass

  /** One call of `supersede`: the draft and the node it was to replace. */
  datatype Replace = Replace(draft: Draft, target: string, before: nat)

  class Ingest {
    const policy: Policy
    const adjudicator: Adjudicator
    const isId: string -> bool
    var drafts: nat
    var stats: Stats
    var supersedeAttempted: nat
    var supersedeUnresolved: nat
    var edgesRequested: nat
    var resolved: map<string, string>
    var byTitle: map<string, string>
    var priorTitles: seq<string>
    /** The supersede calls made, each with the number of drafts written before it. */
    ghost var replaced: seq<Replace>

    constructor (policy: Policy, adjudicator: Adjudicator, isId: string -> bool)
      ensures this.policy == policy && this.adjudicator == adjudicator && this.isId == isId
      ensures Records([]) && edgesRequested == 0
    {
      this.policy, this.adjudicator, this.isId := policy, adjudicator, isId;
      drafts, stats, supersedeAttempted, supersedeUnresolved, edgesRequested := 0, ZERO, 0, 0, 0;
      resolved, byTitle, priorTitles, replaced := map[], map[], [], [];
    }

    ghost predicate Handled(steps: seq<Step>)
      reads this
    {
      && resolved == ByLocalId(Written(steps)) && byTitle == ByTitle(Written(steps))
      && priorTitles == Titles(Written(steps))
    }

    /** Every attempt either replaced something known or is counted as unresolved. */
    ghost predicate Superseded(steps: seq<Step>)
      reads this
    {
      && supersedeAttempted == |replaced| + supersedeUnresolved
      && AllKnown(steps, replaced, isId)
    }

    ghost predicate Records(steps: seq<Step>)
      reads this
    {
      && drafts == |steps| && stats == TallyOf(steps, policy)
      && Handled(steps) && Superseded(steps)
    }

    /** Answers a confirmation and tallies what came of it. */
    method Confirm(s: Step) returns (node: Option<string>)
      requires s.write.NeedsConfirmation?
      modifies this`stats, adjudicator
      ensures stats == Add(old(stats), s, policy) && node == NodeOf(s)
    {
      stats := stats.(needsConfirmation := stats.needsConfirmation + 1);
      var decision := Distinct;
      if policy == LLMAdjudicate {
        decision := adjudicator.Decide(s.write.candidates, s.verdict);
      }
      if s.resolve.Raised? {
        stats := stats.(writeErrors := stats.writeErrors + 1);
        return None;
      }
      if decision.Distinct? {
        stats := stats.(resolvedDistinct := stats.resolvedDistinct + 1);
      } else {
        stats := stats.(resolvedMerge := stats.resolvedMerge + 1);
      }
      if s.resolve.Inserted? {
        stats := stats.(resolvedToInsert := stats.resolvedToInsert + 1);
        return Some(s.resolve.node);
      }
      if s.resolve.Merged? {
        stats := stats.(resolvedToMerge := stats.resolvedToMerge + 1);
        return Some(s.resolve.canonical);
      }
      if s.resolve.MergedLinked? {
        stats := stats.(resolvedToMergeLinked := stats.resolvedToMergeLinked + 1);
        return Some(s.resolve.node);
      }
      stats := stats.(writeErrors := stats.writeErrors + 1);
      return None;
    }

    /** Tallies the engine's reply to a write. */
    method RecordOutcome(s: Step) returns (node: Option<string>)
      requires !s.write.Raised?
      modifies this`stats, adjudicator
      ensures stats == Add(old(stats), s, policy) && node == NodeOf(s)
      ensures Tallied(old(stats), stats, policy, s)
    {
      AddTallies(stats, s, policy);
      match s.write {
        case Inserted(n) =>
          stats := stats.(inserted := stats.inserted + 1);
          return Some(n);
        case Merged(n) =>
          stats := stats.(merged := stats.merged + 1);
          return Some(n);
        case MergedLinked(n) =>
          stats := stats.(mergedLinked := stats.mergedLinked + 1);
          return Some(n);
        case NeedsConfirmation(_) =>
          node := Confirm(s);
        case Odd =>
          stats := stats.(writeErrors := stats.writeErrors + 1);
          return None;
      }
    }

    /** Writes one draft, as a supersede if it names something that can be found. */
    method WriteDraft(s: Step, ghost steps: seq<Step>) returns (node: Option<string>)
      requires Records(steps)
      modifies this`drafts, this`stats, this`supersedeAttempted, this`supersedeUnresolved, this`replaced, adjudicator
      ensures drafts == |steps| + 1 && stats == Add(old(stats), s, policy) && node == NodeOf(s)
      ensures Superseded(steps + [s])
      ensures var t := Target(s.draft, resolved, byTitle, isId);
        replaced == old(replaced) + if t.Some? then [Replace(s.draft, t.value, |steps|)] else []
      ensures supersedeAttempted == old(supersedeAttempted) + if s.draft.supersedes.Some? then 1 else 0
    {
      drafts := drafts + 1;
      var target := Target(s.draft, resolved, byTitle, isId);
      KnownGrows(steps, s, replaced, isId);
      if s.draft.supersedes.Some? {
        supersedeAttempted := supersedeAttempted + 1;
        if target.None? {
          supersedeUnresolved := supersedeUnresolved + 1;
        } else {
          NewlyKnown(steps, s, target.value, isId);
          replaced := replaced + [Replace(s.draft, target.value, |steps|)];
        }
      }
      if s.write.Raised? {
        stats := stats.(writeErrors := stats.writeErrors + 1);
        return None;
      }
      node := RecordOutcome(s);
    }

    /** A draft, then the handles it may be referred to by. */
    method Take(s: Step, ghost steps: seq<Step>)
      requires Records(steps)
      modifies this`drafts, this`stats, this`supersedeAttempted, this`supersedeUnresolved, this`replaced,
        this`resolved, this`byTitle, this`priorTitles, adjudicator
      ensures Records(steps + [s])
    {
      var node := WriteDraft(s, steps);
      assert (steps + [s])[..|steps|] == steps;
      assert Written(steps + [s]) == Written(steps) + if node.Some? then [Entry(s.draft, node.value)] else [];
      if node.Some? {
        HandlesGrow(Written(steps), Entry(s.draft, node.value));
        resolved := resolved[s.draft.localId := node.value];
        byTitle := byTitle[s.draft.title := node.value];
        priorTitles := priorTitles + [s.draft.title];
      } else {
        assert Written(steps + [s]) == Written(steps);
      }
    }

    /** Drafts in order, then every edge of the haystack at once. */
    method Run(steps: seq<Step>, edges: seq<Edge>) returns (links: seq<(string, string)>)
      requires Records([])
      modifies this, adjudicator
      ensures Records(steps) && edgesRequested == old(edgesRequested) + |edges|
      ensures CountsReplies(stats, policy, steps)
      ensures links == Linkable(edges, ByLocalId(Written(steps)))
    {
      assert steps[..0] == [];
      for i := 0 to |steps|
        invariant Records(steps[..i])
        invariant edgesRequested == old(edgesRequested)
      {
        Take(steps[i], steps[..i]);
        assert steps[..i + 1] == steps[..i] + [steps[i]];
      }
      assert steps[..|steps|] == steps;
      TallyCountsReplies(steps, policy);
      links := AttachEdges(edges);
    }

    method AttachEdges(edges: seq<Edge>) returns (payload: seq<(string, string)>)
      modifies this`edgesRequested
      ensures payload == Linkable(edges, resolved)
      ensures edgesRequested == old(edgesRequested) + |edges|
    {
      payload := [];
      for i := 0 to |edges|
        invariant payload == Linkable(edges[..i], resolved)
      {
        var e := edges[i];
        assert edges[..i + 1][..i] == edges[..i];
        if Ends(e, resolved) {
          payload := payload + [(resolved[e.src], resolved[e.dst])];
        }
      }
      assert edges[..|edges|] == edges;
      edgesRequested := edgesRequested + |edges|;
    }
  }

  lemma HandlesGrow(written: seq<Entry>, e: Entry)
    ensures ByLocalId(written + [e]) == ByLocalId(written)[e.draft.localId := e.node]
    ensures ByTitle(written + [e]) == ByTitle(written)[e.draft.title := e.node]
    ensures Titles(written + [e]) == Titles(written) + [e.draft.title]
  {
    assert (written + [e])[..|written|] == written;
  }

  /** A supersede call whose target was written before the draft, or is a literal id. */
  ghost predicate Known(steps: seq<Step>, r: Replace, isId: string -> bool) {
    && r.before < |steps| && steps[r.before].draft == r.draft
    && (NodeWritten(Written(steps[..r.before]), r.target) || (r.draft.supersedes == Some(r.target) && isId(r.target)))
  }

  ghost predicate AllKnown(steps: seq<Step>, replaced: seq<Replace>, isId: string -> bool) {
    forall k :: 0 <= k < |replaced| ==> Known(steps, replaced[k], isId)
  }

  lemma NewlyKnown(steps: seq<Step>, s: Step, target: string, isId: string -> bool)
    requires Target(s.draft, ByLocalId(Written(steps)), ByTitle(Written(steps)), isId) == Some(target)
    ensures Known(steps + [s], Replace(s.draft, target, |steps|), isId)
  {
    TargetIsKnown(s.draft, Written(steps), isId);
    TakeBack(steps, s);
  }

  lemma TakeBack(steps: seq<Step>, s: Step)
    ensures (steps + [s])[..|steps|] == steps && (steps + [s])[|steps|] == s
  {
  }

  lemma KnownGrows(steps: seq<Step>, s: Step, replaced: seq<Replace>, isId: string -> bool)
    requires AllKnown(steps, replaced, isId)
    ensures AllKnown(steps + [s], replaced, isId)
  {
    forall k | 0 <= k < |replaced|
      ensures Known(steps + [s], replaced[k], isId)
    {
      var b := replaced[k].before;
      assert (steps + [s])[..b] == steps[..b];
    }
  }

  function Titles(written: seq<Entry>): seq<string> {
    if written == [] then [] else Titles(written[..|written| - 1]) + [written[|written| - 1].draft.title]
  }
}
