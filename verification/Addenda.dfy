/** The migration that promotes buried addenda to nodes of their own, and what its
    marker does and does not make idempotent. */
module Addenda {
  import opened Options
  import opened Jaccard

  type NodeId = nat

  datatype Addendum = Addendum(body: string, happenedAt: Option<string>, author: string, mergedAt: string,
                               promotedTo: Option<NodeId>)

  datatype Node = Node(kind: string, scope: string, title: string, body: string, happenedAt: Option<string>,
                       addenda: seq<Addendum>, active: bool, createdAt: string)

  datatype Edge = Edge(src: NodeId, dst: NodeId)

  datatype LogRow = LogRow(node: NodeId, candidate: NodeId, author: string)

  /** One space: its nodes, its `same_topic` edges in table order, the node types the
      pack allows such an edge between, and the promotion log. */
  datatype Graph = Graph(nodes: map<NodeId, Node>, edges: seq<Edge>, rules: set<string>, log: seq<LogRow>,
                         next: NodeId)

  // -------------------------------------------------------------------- the plan

  /** The bodies of a node's `same_topic` peers, in table order, whatever their status. */
  function PeerBodies(g: Graph, edges: seq<Edge>, id: NodeId): seq<string> {
    if edges == [] then [] else
    var e := edges[|edges| - 1];
    var other := if e.src == id then e.dst else e.src;
    PeerBodies(g, edges[..|edges| - 1], id) +
      (if (e.src == id || e.dst == id) && other in g.nodes then [g.nodes[other].body] else [])
  }

  function Bodies(addenda: seq<Addendum>): seq<string> {
    seq(|addenda|, i requires 0 <= i < |addenda| => addenda[i].body)
  }

  /** Which addenda to promote, given the words already in the cluster: the corpus
      grows with every addendum seen, whether promoted, marked or skipped. */
  function PlanFrom(fold: Folding, addenda: seq<Addendum>, i: nat, corpus: set<string>): seq<nat>
    requires i <= |addenda|
    decreases |addenda| - i
  {
    if i == |addenda| then [] else
    var words := Words(fold, addenda[i].body);
    var rest := PlanFrom(fold, addenda, i + 1, corpus + words);
    if addenda[i].promotedTo.Some? || !Novel(words, corpus) then rest else [i] + rest
  }

  function Cluster(fold: Folding, g: Graph, id: NodeId): set<string>
    requires id in g.nodes
  {
    AllWords(fold, [g.nodes[id].body] + PeerBodies(g, g.edges, id))
  }

  function Plan(fold: Folding, g: Graph, id: NodeId): seq<nat>
    requires id in g.nodes
  {
    PlanFrom(fold, g.nodes[id].addenda, 0, Cluster(fold, g, id))
  }

  /** What addendum `i` is compared with. */
  function Before(fold: Folding, addenda: seq<Addendum>, i: nat, cluster: set<string>): set<string>
    requires i <= |addenda|
  {
    cluster + AllWords(fold, Bodies(addenda[..i]))
  }

  /** Whether addendum `i` is promoted depends on its own words, the cluster, and the
      addenda before it, not on what became of those. */
  ghost predicate Promotable(fold: Folding, addenda: seq<Addendum>, i: nat, cluster: set<string>) {
    && i < |addenda| && addenda[i].promotedTo.None?
    && Novel(Words(fold, addenda[i].body), Before(fold, addenda, i, cluster))
  }

  ghost predicate Ascending(s: seq<nat>) {
    forall a, b :: 0 <= a < b < |s| ==> s[a] < s[b]
  }

  lemma BeforeNext(fold: Folding, addenda: seq<Addendum>, i: nat, cluster: set<string>)
    requires i < |addenda|
    ensures Before(fold, addenda, i + 1, cluster) == Before(fold, addenda, i, cluster) + Words(fold, addenda[i].body)
  {
    assert Bodies(addenda[..i + 1]) == Bodies(addenda[..i]) + [addenda[i].body];
    AllWordsJoin(fold, Bodies(addenda[..i]), [addenda[i].body]);
    assert AllWords(fold, [addenda[i].body][1..]) == {};
  }

  lemma {:induction false} PlanMembers(fold: Folding, addenda: seq<Addendum>, i: nat, cluster: set<string>, k: nat)
    requires i <= |addenda|
    ensures k in PlanFrom(fold, addenda, i, Before(fold, addenda, i, cluster)) <==>
      i <= k && Promotable(fold, addenda, k, cluster)
    decreases |addenda| - i
  {
    if i < |addenda| {
      BeforeNext(fold, addenda, i, cluster);
      PlanMembers(fold, addenda, i + 1, cluster, k);
    }
  }

  /** The peers of a node are the other ends of its edges, whichever way they point. */
  lemma {:induction false} PeersAre(g: Graph, edges: seq<Edge>, id: NodeId, body: string)
    ensures body in PeerBodies(g, edges, id) <==>
      exists x :: IsPeer(edges, id, x) && x in g.nodes && g.nodes[x].body == body
  {
    if edges != [] {
      var last := |edges| - 1;
      PeersAre(g, edges[..last], id, body);
      forall x
        ensures IsPeer(edges, id, x) <==>
          IsPeer(edges[..last], id, x) || edges[last] == Edge(id, x) || (edges[last] == Edge(x, id) && x != id)
      {
      }
    }
  }

  ghost predicate IsPeer(edges: seq<Edge>, id: NodeId, x: NodeId) {
    Edge(id, x) in edges || Edge(x, id) in edges
  }

  lemma {:induction false} PlanAscends(fold: Folding, addenda: seq<Addendum>, i: nat, corpus: set<string>)
    requires i <= |addenda|
    ensures Ascending(PlanFrom(fold, addenda, i, corpus))
    ensures forall k :: k in PlanFrom(fold, addenda, i, corpus) ==> i <= k
    decreases |addenda| - i
  {
    if i < |addenda| {
      var next := corpus + Words(fold, addenda[i].body);
      PlanAscends(fold, addenda, i + 1, next);
      AscendingFrom(i, PlanFrom(fold, addenda, i + 1, next));
    }
  }

  lemma AscendingFrom(i: nat, rest: seq<nat>)
    requires Ascending(rest) && forall k :: k in rest ==> i + 1 <= k
    ensures Ascending([i] + rest) && forall k :: k in [i] + rest ==> i <= k
  {
    assert forall k :: 0 <= k < |rest| ==> rest[k] in rest;
  }

  /** The plan, taken as a set of indices, depends on each addendum by itself. */
  lemma PlanPointwise(fold: Folding, addenda: seq<Addendum>, i: nat, cluster: set<string>)
    requires i <= |addenda|
    ensures var plan := PlanFrom(fold, addenda, i, Before(fold, addenda, i, cluster));
      && (forall k :: k in plan <==> i <= k && Promotable(fold, addenda, k, cluster))
      && Ascending(plan)
  {
    var plan := PlanFrom(fold, addenda, i, Before(fold, addenda, i, cluster));
    forall k: nat
      ensures k in plan <==> i <= k && Promotable(fold, addenda, k, cluster)
    {
      PlanMembers(fold, addenda, i, cluster, k);
    }
    PlanAscends(fold, addenda, i, Before(fold, addenda, i, cluster));
  }

  lemma PlanIs(fold: Folding, g: Graph, id: NodeId)
    requires id in g.nodes
    ensures forall k :: k in Plan(fold, g, id) <==> Promotable(fold, g.nodes[id].addenda, k, Cluster(fold, g, id))
    ensures Ascending(Plan(fold, g, id)) && InRange(Plan(fold, g, id), |g.nodes[id].addenda|)
  {
    var addenda, cluster := g.nodes[id].addenda, Cluster(fold, g, id);
    assert Bodies(addenda[..0]) == [] && Before(fold, addenda, 0, cluster) == cluster;
    PlanPointwise(fold, addenda, 0, cluster);
    assert forall k :: 0 <= k < |Plan(fold, g, id)| ==> Plan(fold, g, id)[k] in Plan(fold, g, id);
  }

  // ------------------------------------------------------------------- the title

  predicate IsSpace(c: char) {
    || '\t' <= c <= '\r' || '\U{1C}' <= c <= ' ' || '\U{2000}' <= c <= '\U{200A}'
    || c in {'\U{85}', '\U{A0}', '\U{1680}', '\U{2028}', '\U{2029}', '\U{202F}', '\U{205F}', '\U{3000}'}
  }

  function TrimLeft(s: string): string {
    if s != "" && IsSpace(s[0]) then TrimLeft(s[1..]) else s
  }

  function TrimRight(s: string): string {
    if s != "" && IsSpace(s[|s| - 1]) then TrimRight(s[..|s| - 1]) else s
  }

  /** Where the first sentence ends: before ". ", "? ", "! " or a newline. */
  function SentenceEnd(s: string): (n: nat)
    ensures n <= |s|
  {
    if s == "" || s[0] == '\n' || (|s| > 1 && s[0] in ".?!" && s[1] == ' ') then 0
    else 1 + SentenceEnd(s[1..])
  }

  /** The column accepts 3 to 200 characters; every body and canonical title yields a
      title within that. */
  function MemberTitle(body: string, canonicalTitle: string): (title: string)
    ensures 3 <= |title| <= 200
  {
    var sentence := TrimLeft(TrimRight(body[..SentenceEnd(body)]));
    var first := if |sentence| > 200 then sentence[..199] + "\U{2026}" else sentence;
    if |first| < 3
    then (if |canonicalTitle| > 188 then canonicalTitle[..188] else canonicalTitle) + " \U{2014} addendum"
    else first
  }

  // ------------------------------------------------------------------ the commit

  function Member(node: Node, a: Addendum): Node {
    Node(node.kind, node.scope, MemberTitle(a.body, node.title), a.body, a.happenedAt, [], true, a.mergedAt)
  }

  ghost predicate InRange(plan: seq<nat>, n: nat) {
    forall k :: 0 <= k < |plan| ==> plan[k] < n
  }

  function WithMember(t: Graph, id: NodeId, node: Node, a: Addendum): Graph {
    Graph(t.nodes[t.next := Member(node, a)],
          if node.kind in t.rules then t.edges + [Edge(t.next, id)] else t.edges,
          t.rules, t.log + [LogRow(t.next, id, a.author)], t.next + 1)
  }

  /** The graph after inserting the members of `plan`, before the node is updated. */
  function Inserted(g: Graph, id: NodeId, plan: seq<nat>): (t: Graph)
    requires id in g.nodes && InRange(plan, |g.nodes[id].addenda|)
    ensures t.next == g.next + |plan| && t.rules == g.rules
    ensures forall x :: x in g.nodes ==> x in t.nodes
  {
    if plan == [] then g else
    WithMember(Inserted(g, id, plan[..|plan| - 1]), id, g.nodes[id], g.nodes[id].addenda[plan[|plan| - 1]])
  }

  function Marked(addenda: seq<Addendum>, plan: seq<nat>, first: NodeId): (marked: seq<Addendum>)
    requires InRange(plan, |addenda|)
    ensures |marked| == |addenda|
  {
    if plan == [] then addenda else
    var i := plan[|plan| - 1];
    Marked(addenda, plan[..|plan| - 1], first)[i := addenda[i].(promotedTo := Some(first + |plan| - 1))]
  }

  /** One node's transaction: its members, and the markers that name them, together. */
  function Commit(g: Graph, id: NodeId, plan: seq<nat>): (t: Graph)
    requires id in g.nodes && InRange(plan, |g.nodes[id].addenda|)
    ensures forall x :: x in g.nodes ==> x in t.nodes
  {
    var t := Inserted(g, id, plan);
    t.(nodes := t.nodes[id := g.nodes[id].(addenda := Marked(g.nodes[id].addenda, plan, g.next))])
  }

  function PromoteOne(fold: Folding, g: Graph, id: NodeId): (t: Graph)
    requires id in g.nodes
    ensures forall x :: x in g.nodes ==> x in t.nodes
  {
    PlanIs(fold, g, id);
    if Plan(fold, g, id) == [] then g else Commit(g, id, Plan(fold, g, id))
  }

  /** Edges join existing nodes, and fresh ids are unused. */
  ghost predicate Sound(g: Graph) {
    && (forall id :: id in g.nodes ==> id < g.next)
    && (forall e :: e in g.edges ==> e.src in g.nodes && e.dst in g.nodes)
  }

  lemma {:induction false} InsertedNodes(g: Graph, id: NodeId, plan: seq<nat>)
    requires Sound(g) && id in g.nodes && InRange(plan, |g.nodes[id].addenda|)
    ensures var t := Inserted(g, id, plan);
      && (forall x :: x in g.nodes ==> x in t.nodes && t.nodes[x] == g.nodes[x])
      && (forall x :: x in t.nodes <==> x in g.nodes || g.next <= x < g.next + |plan|)
  {
    if plan != [] {
      InsertedNodes(g, id, plan[..|plan| - 1]);
    }
  }

  lemma {:induction false} InsertedMember(g: Graph, id: NodeId, plan: seq<nat>, k: nat)
    requires id in g.nodes && InRange(plan, |g.nodes[id].addenda|) && k < |plan|
    ensures g.next + k in Inserted(g, id, plan).nodes
    ensures Inserted(g, id, plan).nodes[g.next + k] == Member(g.nodes[id], g.nodes[id].addenda[plan[k]])
  {
    if k < |plan| - 1 {
      InsertedMember(g, id, plan[..|plan| - 1], k);
    }
  }

  lemma {:induction false} InsertedSound(g: Graph, id: NodeId, plan: seq<nat>)
    requires Sound(g) && id in g.nodes && InRange(plan, |g.nodes[id].addenda|)
    ensures Sound(Inserted(g, id, plan))
  {
    if plan != [] {
      InsertedSound(g, id, plan[..|plan| - 1]);
    }
  }

  lemma InsertedShape(g: Graph, id: NodeId, plan: seq<nat>)
    requires Sound(g) && id in g.nodes && InRange(plan, |g.nodes[id].addenda|)
    ensures var t := Inserted(g, id, plan);
      && Sound(t)
      && (forall x :: x in g.nodes ==> x in t.nodes && t.nodes[x] == g.nodes[x])
      && (forall x :: x in t.nodes <==> x in g.nodes || g.next <= x < g.next + |plan|)
      && (forall k :: 0 <= k < |plan| ==> t.nodes[g.next + k] == Member(g.nodes[id], g.nodes[id].addenda[plan[k]]))
  {
    InsertedNodes(g, id, plan);
    InsertedSound(g, id, plan);
    forall k | 0 <= k < |plan|
      ensures Inserted(g, id, plan).nodes[g.next + k] == Member(g.nodes[id], g.nodes[id].addenda[plan[k]])
    {
      InsertedMember(g, id, plan, k);
    }
  }

  lemma {:induction false} FreshAbove(g: Graph, id: NodeId, plan: seq<nat>)
    requires Sound(g) && id in g.nodes && InRange(plan, |g.nodes[id].addenda|)
    ensures forall x :: x in Inserted(g, id, plan).nodes ==> x < Inserted(g, id, plan).next
  {
    if plan != [] {
      FreshAbove(g, id, plan[..|plan| - 1]);
    }
  }

  lemma {:induction false} MarkedFields(addenda: seq<Addendum>, plan: seq<nat>, first: NodeId, i: nat)
    requires InRange(plan, |addenda|) && i < |addenda|
    ensures Marked(addenda, plan, first)[i].(promotedTo := None) == addenda[i].(promotedTo := None)
    ensures i !in plan ==> Marked(addenda, plan, first)[i] == addenda[i]
  {
    if plan != [] {
      var init := plan[..|plan| - 1];
      MarkedFields(addenda, init, first, i);
      assert plan == init + [plan[|plan| - 1]];
    }
  }

  lemma {:induction false} MarkedName(addenda: seq<Addendum>, plan: seq<nat>, first: NodeId, k: nat)
    requires InRange(plan, |addenda|) && k < |plan|
    ensures Marked(addenda, plan, first)[plan[k]].promotedTo.Some?
    ensures Ascending(plan) ==> Marked(addenda, plan, first)[plan[k]].promotedTo == Some(first + k)
  {
    if k < |plan| - 1 {
      MarkedName(addenda, plan[..|plan| - 1], first, k);
    }
  }

  lemma MarkedShape(addenda: seq<Addendum>, plan: seq<nat>, first: NodeId)
    requires InRange(plan, |addenda|)
    ensures forall i :: 0 <= i < |addenda| ==>
      && Marked(addenda, plan, first)[i].(promotedTo := None) == addenda[i].(promotedTo := None)
      && (i !in plan ==> Marked(addenda, plan, first)[i] == addenda[i])
    ensures forall k :: 0 <= k < |plan| ==> Marked(addenda, plan, first)[plan[k]].promotedTo.Some?
    ensures Ascending(plan) ==>
      forall k :: 0 <= k < |plan| ==> Marked(addenda, plan, first)[plan[k]].promotedTo == Some(first + k)
  {
    forall i | 0 <= i < |addenda|
      ensures Marked(addenda, plan, first)[i].(promotedTo := None) == addenda[i].(promotedTo := None)
      ensures i !in plan ==> Marked(addenda, plan, first)[i] == addenda[i]
    {
      MarkedFields(addenda, plan, first, i);
    }
    forall k | 0 <= k < |plan|
      ensures Marked(addenda, plan, first)[plan[k]].promotedTo.Some?
      ensures Ascending(plan) ==> Marked(addenda, plan, first)[plan[k]].promotedTo == Some(first + k)
    {
      MarkedName(addenda, plan, first, k);
    }
  }

  // ----------------------------------------------------- what one commit changes

  ghost predicate SameBodies(g: Graph, t: Graph) {
    forall x :: x in g.nodes ==> x in t.nodes && t.nodes[x].body == g.nodes[x].body
  }

  lemma {:induction false} PeersStable(g: Graph, t: Graph, edges: seq<Edge>, y: NodeId)
    requires SameBodies(g, t) && forall e :: e in edges ==> e.src in g.nodes && e.dst in g.nodes
    ensures PeerBodies(t, edges, y) == PeerBodies(g, edges, y)
  {
    if edges != [] {
      PeersStable(g, t, edges[..|edges| - 1], y);
    }
  }

  function Picked(addenda: seq<Addendum>, plan: seq<nat>): seq<string>
    requires InRange(plan, |addenda|)
  {
    if plan == [] then [] else Picked(addenda, plan[..|plan| - 1]) + [addenda[plan[|plan| - 1]].body]
  }

  lemma LastPeer(g: Graph, edges: seq<Edge>, e: Edge, y: NodeId)
    ensures var other := if e.src == y then e.dst else e.src;
      PeerBodies(g, edges + [e], y) == PeerBodies(g, edges, y) +
        (if (e.src == y || e.dst == y) && other in g.nodes then [g.nodes[other].body] else [])
  {
    assert (edges + [e])[..|edges|] == edges;
  }

  lemma Associate(a: seq<string>, b: seq<string>, c: seq<string>)
    ensures (a + b) + c == a + (b + c)
  {
  }

  lemma NextPeer(g: Graph, id: NodeId, plan: seq<nat>, t: Graph, y: NodeId)
    requires Sound(g) && id in g.nodes && y in g.nodes && InRange(plan, |g.nodes[id].addenda|) && plan != []
    requires SameBodies(Inserted(g, id, plan), t)
    ensures var last := |plan| - 1;
      PeerBodies(t, Inserted(g, id, plan).edges, y) == PeerBodies(t, Inserted(g, id, plan[..last]).edges, y) +
        (if y == id && g.nodes[id].kind in g.rules then [g.nodes[id].addenda[plan[last]].body] else [])
  {
    var before := Inserted(g, id, plan[..|plan| - 1]);
    if g.nodes[id].kind in g.rules {
      LastPeer(t, before.edges, Edge(before.next, id), y);
      if y == id {
        assert t.nodes[before.next].body == g.nodes[id].addenda[plan[|plan| - 1]].body;
      }
    }
  }

  lemma BodiesBefore(g: Graph, id: NodeId, plan: seq<nat>, t: Graph)
    requires Sound(g) && id in g.nodes && InRange(plan, |g.nodes[id].addenda|) && plan != []
    requires SameBodies(Inserted(g, id, plan), t)
    ensures SameBodies(Inserted(g, id, plan[..|plan| - 1]), t)
  {
    FreshAbove(g, id, plan[..|plan| - 1]);
    MemberAdded(Inserted(g, id, plan[..|plan| - 1]), id, g.nodes[id], g.nodes[id].addenda[plan[|plan| - 1]], t);
  }

  lemma MemberAdded(before: Graph, id: NodeId, node: Node, a: Addendum, t: Graph)
    requires forall x :: x in before.nodes ==> x < before.next
    requires SameBodies(WithMember(before, id, node, a), t)
    ensures SameBodies(before, t)
  {
  }

  /** The members join their canonical's peers, in plan order, when the pack has the
      rule; nobody else's peers change. */
  lemma {:induction false} PeersAfter(g: Graph, id: NodeId, plan: seq<nat>, t: Graph, y: NodeId)
    requires Sound(g) && id in g.nodes && y in g.nodes && InRange(plan, |g.nodes[id].addenda|)
    requires SameBodies(Inserted(g, id, plan), t)
    ensures PeerBodies(t, Inserted(g, id, plan).edges, y) == PeerBodies(g, g.edges, y) +
      (if y == id && g.nodes[id].kind in g.rules then Picked(g.nodes[id].addenda, plan) else [])
  {
    if plan == [] {
      PeersStable(g, t, g.edges, y);
    } else {
      var init := plan[..|plan| - 1];
      BodiesBefore(g, id, plan, t);
      PeersAfter(g, id, init, t, y);
      NextPeer(g, id, plan, t, y);
      Associate(PeerBodies(g, g.edges, y), Picked(g.nodes[id].addenda, init), [g.nodes[id].addenda[plan[|init|]].body]);
    }
  }

  lemma CommitCluster(fold: Folding, g: Graph, id: NodeId, plan: seq<nat>, y: NodeId)
    requires Sound(g) && id in g.nodes && y in g.nodes && InRange(plan, |g.nodes[id].addenda|)
    requires SameBodies(Inserted(g, id, plan), Commit(g, id, plan)) && SameBodies(g, Commit(g, id, plan))
    ensures Cluster(fold, Commit(g, id, plan), y) == Cluster(fold, g, y) +
      (if y == id && g.nodes[id].kind in g.rules then AllWords(fold, Picked(g.nodes[id].addenda, plan)) else {})
  {
    var t := Commit(g, id, plan);
    PeersAfter(g, id, plan, t, y);
    AllWordsJoin(fold, PeerBodies(g, g.edges, y), Picked(g.nodes[id].addenda, plan));
    ClusterSplit(fold, g, y);
    ClusterSplit(fold, t, y);
    assert PeerBodies(g, g.edges, y) + [] == PeerBodies(g, g.edges, y);
  }

  /** One transaction, seen from any node: only the promoted node's record and peers
      change. */
  lemma CommitEffect(fold: Folding, g: Graph, id: NodeId, plan: seq<nat>, y: NodeId)
    requires Sound(g) && id in g.nodes && y in g.nodes && InRange(plan, |g.nodes[id].addenda|)
    ensures var t := Commit(g, id, plan);
      && Sound(t) && t.rules == g.rules
      && t.nodes[y] == (if y == id then g.nodes[id].(addenda := Marked(g.nodes[id].addenda, plan, g.next))
                        else g.nodes[y])
      && Cluster(fold, t, y) == Cluster(fold, g, y) +
           (if y == id && g.nodes[id].kind in g.rules then AllWords(fold, Picked(g.nodes[id].addenda, plan)) else {})
  {
    InsertedShape(g, id, plan);
    assert SameBodies(Inserted(g, id, plan), Commit(g, id, plan)) && SameBodies(g, Commit(g, id, plan));
    CommitCluster(fold, g, id, plan, y);
  }

  function PlannedBodies(fold: Folding, g: Graph, id: NodeId): seq<string>
    requires id in g.nodes
  {
    PlanIs(fold, g, id);
    Picked(g.nodes[id].addenda, Plan(fold, g, id))
  }

  /** Node `y` looks the same to a promotion. */
  ghost predicate SameFor(fold: Folding, g: Graph, f: Graph, y: NodeId) {
    && y in g.nodes && y in f.nodes && f.nodes[y] == g.nodes[y] && f.rules == g.rules
    && Cluster(fold, f, y) == Cluster(fold, g, y)
  }

  /** Node `y` of `f` is node `y` of `g` promoted: same addenda, with markers on those
      that were marked or planned, and in its cluster the bodies promoted. */
  ghost predicate PromotedIn(fold: Folding, g: Graph, f: Graph, y: NodeId) {
    && y in g.nodes && y in f.nodes && f.rules == g.rules
    && f.nodes[y].(addenda := []) == g.nodes[y].(addenda := [])
    && Bodies(f.nodes[y].addenda) == Bodies(g.nodes[y].addenda)
    && (forall i :: 0 <= i < |g.nodes[y].addenda| ==>
          (f.nodes[y].addenda[i].promotedTo.Some? <==>
             g.nodes[y].addenda[i].promotedTo.Some? || i in Plan(fold, g, y)))
    && Cluster(fold, f, y) == Cluster(fold, g, y) +
         (if g.nodes[y].kind in g.rules then AllWords(fold, PlannedBodies(fold, g, y)) else {})
  }

  lemma ClusterSplit(fold: Folding, g: Graph, y: NodeId)
    requires y in g.nodes
    ensures Cluster(fold, g, y) == Words(fold, g.nodes[y].body) + AllWords(fold, PeerBodies(g, g.edges, y))
  {
    AllWordsJoin(fold, [g.nodes[y].body], PeerBodies(g, g.edges, y));
    assert AllWords(fold, [g.nodes[y].body][1..]) == {};
  }

  lemma PromoteOneSound(fold: Folding, g: Graph, id: NodeId)
    requires Sound(g) && id in g.nodes
    ensures Sound(PromoteOne(fold, g, id)) && PromoteOne(fold, g, id).rules == g.rules
  {
    PlanIs(fold, g, id);
    CommitEffect(fold, g, id, Plan(fold, g, id), id);
  }

  lemma OthersUntouched(fold: Folding, g: Graph, id: NodeId, y: NodeId)
    requires Sound(g) && id in g.nodes && y in g.nodes && y != id
    ensures SameFor(fold, g, PromoteOne(fold, g, id), y)
  {
    PlanIs(fold, g, id);
    CommitEffect(fold, g, id, Plan(fold, g, id), y);
  }

  lemma SelfPromoted(fold: Folding, g: Graph, id: NodeId)
    requires Sound(g) && id in g.nodes
    ensures PromotedIn(fold, g, PromoteOne(fold, g, id), id)
  {
    var plan, addenda := Plan(fold, g, id), g.nodes[id].addenda;
    PlanIs(fold, g, id);
    CommitEffect(fold, g, id, plan, id);
    MarkersExactly(addenda, plan, g.next);
    assert plan == [] ==> AllWords(fold, PlannedBodies(fold, g, id)) == {};
  }

  lemma MarkersExactly(addenda: seq<Addendum>, plan: seq<nat>, first: NodeId)
    requires InRange(plan, |addenda|)
    ensures Bodies(Marked(addenda, plan, first)) == Bodies(addenda)
    ensures forall i :: 0 <= i < |addenda| ==>
      (Marked(addenda, plan, first)[i].promotedTo.Some? <==> addenda[i].promotedTo.Some? || i in plan)
  {
    var marked := Marked(addenda, plan, first);
    MarkedShape(addenda, plan, first);
    forall i | 0 <= i < |addenda|
      ensures marked[i].body == addenda[i].body
      ensures marked[i].promotedTo.Some? <==> addenda[i].promotedTo.Some? || i in plan
    {
      assert marked[i].(promotedTo := None) == addenda[i].(promotedTo := None);
      if i in plan {
        var k :| 0 <= k < |plan| && plan[k] == i;
      }
    }
  }

  /** `t` is `g` with one member for each planned addendum of node `id`, each named by
      exactly the marker of the addendum it was made from. */
  ghost predicate MarkersNameMembers(g: Graph, id: NodeId, plan: seq<nat>, t: Graph)
    requires id in g.nodes && InRange(plan, |g.nodes[id].addenda|)
  {
    && (forall x :: x in t.nodes <==> x in g.nodes || g.next <= x < g.next + |plan|)
    && |t.nodes[id].addenda| == |g.nodes[id].addenda|
    && (forall k :: 0 <= k < |plan| ==>
          && t.nodes[id].addenda[plan[k]] == g.nodes[id].addenda[plan[k]].(promotedTo := Some(g.next + k))
          && g.next + k in t.nodes && t.nodes[g.next + k] == Member(g.nodes[id], g.nodes[id].addenda[plan[k]]))
    && (forall i :: 0 <= i < |g.nodes[id].addenda| && i !in plan ==>
          t.nodes[id].addenda[i] == g.nodes[id].addenda[i])
  }

  /** A promotion keeps the addenda, in length, order and every field but the marker. */
  lemma PromotionMarks(fold: Folding, g: Graph, id: NodeId)
    requires Sound(g) && id in g.nodes
    ensures InRange(Plan(fold, g, id), |g.nodes[id].addenda|)
    ensures MarkersNameMembers(g, id, Plan(fold, g, id), PromoteOne(fold, g, id))
    ensures Inserts(g, id, Plan(fold, g, id), PromoteOne(fold, g, id))
  {
    PlanIs(fold, g, id);
    CommitMarks(g, id, Plan(fold, g, id));
    CommitInserts(g, id, Plan(fold, g, id));
  }

  lemma MarkerOf(addenda: seq<Addendum>, plan: seq<nat>, first: NodeId, k: nat)
    requires InRange(plan, |addenda|) && Ascending(plan) && k < |plan|
    ensures Marked(addenda, plan, first)[plan[k]] == addenda[plan[k]].(promotedTo := Some(first + k))
  {
    MarkedFields(addenda, plan, first, plan[k]);
    MarkedName(addenda, plan, first, k);
    var m, a := Marked(addenda, plan, first)[plan[k]], addenda[plan[k]];
    assert m.(promotedTo := None) == a.(promotedTo := None);
  }

  lemma MemberOf(g: Graph, id: NodeId, plan: seq<nat>, k: nat)
    requires Sound(g) && id in g.nodes && InRange(plan, |g.nodes[id].addenda|) && k < |plan|
    ensures var t := Commit(g, id, plan);
      g.next + k in t.nodes && t.nodes[g.next + k] == Member(g.nodes[id], g.nodes[id].addenda[plan[k]])
  {
    InsertedNodes(g, id, plan);
    InsertedMember(g, id, plan, k);
  }

  lemma CommitMarks(g: Graph, id: NodeId, plan: seq<nat>)
    requires Sound(g) && id in g.nodes && InRange(plan, |g.nodes[id].addenda|) && Ascending(plan)
    ensures MarkersNameMembers(g, id, plan, Commit(g, id, plan))
  {
    var addenda := g.nodes[id].addenda;
    InsertedNodes(g, id, plan);
    forall k | 0 <= k < |plan|
      ensures Marked(addenda, plan, g.next)[plan[k]] == addenda[plan[k]].(promotedTo := Some(g.next + k))
    {
      MarkerOf(addenda, plan, g.next, k);
    }
    forall k | 0 <= k < |plan|
      ensures var t := Commit(g, id, plan);
        g.next + k in t.nodes && t.nodes[g.next + k] == Member(g.nodes[id], addenda[plan[k]])
    {
      MemberOf(g, id, plan, k);
    }
    forall i | 0 <= i < |addenda| && i !in plan
      ensures Marked(addenda, plan, g.next)[i] == addenda[i]
    {
      MarkedFields(addenda, plan, g.next, i);
    }
  }

  // ---------------------------------------------------- a member, field by field

  ghost predicate Terminates(s: string, k: nat) {
    && k < |s|
    && (s[k] == '\n' || (k + 1 < |s| && (s[k] == '.' || s[k] == '?' || s[k] == '!') && s[k + 1] == ' '))
  }

  /** The first terminator of `s` is at `n`, or there is none and `n` is its end. */
  ghost predicate FirstEnd(s: string, n: nat) {
    && n <= |s| && (n == |s| || Terminates(s, n))
    && forall k: nat :: k < n ==> !Terminates(s, k)
  }

  /** `t` is `s` without the white space at its two ends. */
  ghost predicate Stripped(s: string, t: string) {
    && (exists i: nat, j: nat :: i <= j <= |s| && OnlySpace(s[..i]) && OnlySpace(s[j..]) && t == s[i..j])
    && (t != "" ==> !White(t[0]) && !White(t[|t| - 1]))
  }

  ghost predicate OnlySpace(s: string) {
    forall i :: 0 <= i < |s| ==> White(s[i])
  }

  /** The characters that `strip` takes off, by number. */
  ghost predicate White(c: char) {
    c as int in {
      0x9, 0xA, 0xB, 0xC, 0xD, 0x1C, 0x1D, 0x1E, 0x1F, 0x20, 0x85, 0xA0, 0x1680, 0x2000, 0x2001, 0x2002, 0x2003, 0x2004,
      0x2005, 0x2006, 0x2007, 0x2008, 0x2009, 0x200A, 0x2028, 0x2029, 0x202F, 0x205F, 0x3000}
  }

  lemma SpaceIsWhite(c: char)
    ensures IsSpace(c) <==> White(c)
  {
  }

  /** The title is the first sentence, cut to 199 characters and an ellipsis if it is longer
      than the column, and if it is too short a reference to the canonical. */
  ghost predicate TitledFrom(title: string, body: string, canonical: string) {
    exists n: nat, first :: FirstEnd(body, n) && Stripped(body[..n], first) && TitledBy(title, first, canonical)
  }

  ghost predicate TitledBy(title: string, first: string, canonical: string) {
    && (|first| > 200 ==> title == first[..199] + "\U{2026}")
    && (3 <= |first| <= 200 ==> title == first)
    && (|first| < 3 && |canonical| <= 188 ==> title == canonical + " \U{2014} addendum")
    && (|first| < 3 && |canonical| > 188 ==> title == canonical[..188] + " \U{2014} addendum")
  }

  lemma {:induction false} EndIsFirst(s: string)
    ensures FirstEnd(s, SentenceEnd(s))
  {
    if SentenceEnd(s) > 0 {
      EndIsFirst(s[1..]);
      forall k: nat | k < SentenceEnd(s)
        ensures !Terminates(s, k)
      {
        assert k > 0 ==> !Terminates(s[1..], k - 1);
      }
      assert SentenceEnd(s[1..]) < |s[1..]| ==> Terminates(s[1..], SentenceEnd(s[1..]));
    }
  }

  lemma {:induction false} TrimLeftShape(s: string) returns (i: nat)
    ensures i <= |s| && OnlySpace(s[..i]) && TrimLeft(s) == s[i..]
    ensures TrimLeft(s) != "" ==> !White(TrimLeft(s)[0])
  {
    if s != "" {
      SpaceIsWhite(s[0]);
    }
    if s != "" && IsSpace(s[0]) {
      i := TrimLeftShape(s[1..]);
      i := i + 1;
      assert s[..i] == [s[0]] + s[1..][..i - 1] && s[1..][i - 1..] == s[i..];
    } else {
      i := 0;
    }
  }

  lemma {:induction false} TrimRightShape(s: string) returns (j: nat)
    ensures j <= |s| && OnlySpace(s[j..]) && TrimRight(s) == s[..j]
    ensures TrimRight(s) != "" ==> !White(TrimRight(s)[|TrimRight(s)| - 1])
  {
    if s != "" {
      SpaceIsWhite(s[|s| - 1]);
    }
    if s != "" && IsSpace(s[|s| - 1]) {
      var last := |s| - 1;
      j := TrimRightShape(s[..last]);
      assert s[j..] == s[..last][j..] + [s[last]] && s[..last][..j] == s[..j];
    } else {
      j := |s|;
    }
  }

  lemma TrimStrips(s: string)
    ensures Stripped(s, TrimLeft(TrimRight(s)))
  {
    var j := TrimRightShape(s);
    var i := TrimLeftShape(s[..j]);
    assert s[..j][i..] == s[i..j] && s[..j][..i] == s[..i];
  }

  lemma TitleIs(body: string, canonical: string)
    ensures TitledFrom(MemberTitle(body, canonical), body, canonical)
  {
    var n := SentenceEnd(body);
    EndIsFirst(body);
    TrimStrips(body[..n]);
    assert TitledBy(MemberTitle(body, canonical), TrimLeft(TrimRight(body[..n])), canonical);
  }

  /** `node` is a member of the type and scope of `canonical`, with the words, the date and the
      time of the addendum it was made from. */
  ghost predicate MadeFrom(node: Node, canonical: Node, a: Addendum) {
    && node.kind == canonical.kind && node.scope == canonical.scope
    && node.body == a.body && node.happenedAt == a.happenedAt && node.createdAt == a.mergedAt
    && node.active && node.addenda == []
    && TitledFrom(node.title, a.body, canonical.title)
  }

  /** What one transaction inserts: for each planned addendum a member made from it, an edge
      from the member to its canonical where the pack has the rule, and a log row that names
      the member, the canonical and the author of the addendum. */
  ghost predicate Inserts(g: Graph, id: NodeId, plan: seq<nat>, t: Graph)
    requires id in g.nodes && InRange(plan, |g.nodes[id].addenda|)
  {
    && t.next == g.next + |plan| && t.rules == g.rules
    && InsertsMembers(g, id, plan, t) && InsertsRows(g, id, plan, t) && InsertsEdges(g, id, plan, t)
  }

  ghost predicate InsertsMembers(g: Graph, id: NodeId, plan: seq<nat>, t: Graph)
    requires id in g.nodes && InRange(plan, |g.nodes[id].addenda|)
  {
    forall k :: 0 <= k < |plan| ==> MemberAt(t, g.next + k, g.nodes[id], g.nodes[id].addenda[plan[k]])
  }

  ghost predicate MemberAt(t: Graph, x: NodeId, canonical: Node, a: Addendum) {
    x in t.nodes && MadeFrom(t.nodes[x], canonical, a)
  }

  ghost predicate InsertsRows(g: Graph, id: NodeId, plan: seq<nat>, t: Graph)
    requires id in g.nodes && InRange(plan, |g.nodes[id].addenda|)
  {
    && g.log <= t.log && |t.log| == |g.log| + |plan|
    && forall i :: |g.log| <= i < |t.log| ==>
         var k := i - |g.log|; t.log[i] == LogRow(g.next + k, id, g.nodes[id].addenda[plan[k]].author)
  }

  ghost predicate InsertsEdges(g: Graph, id: NodeId, plan: seq<nat>, t: Graph)
    requires id in g.nodes
  {
    && g.edges <= t.edges
    && |t.edges| == |g.edges| + (if g.nodes[id].kind in g.rules then |plan| else 0)
    && forall i :: |g.edges| <= i < |t.edges| ==> t.edges[i] == Edge(g.next + (i - |g.edges|), id)
  }

  lemma {:induction false} InsertedRows(g: Graph, id: NodeId, plan: seq<nat>)
    requires id in g.nodes && InRange(plan, |g.nodes[id].addenda|)
    ensures InsertsRows(g, id, plan, Inserted(g, id, plan))
  {
    if plan != [] {
      InsertedRows(g, id, plan[..|plan| - 1]);
    }
  }

  lemma {:induction false} InsertedEdges(g: Graph, id: NodeId, plan: seq<nat>)
    requires id in g.nodes && InRange(plan, |g.nodes[id].addenda|)
    ensures InsertsEdges(g, id, plan, Inserted(g, id, plan))
  {
    if plan != [] {
      InsertedEdges(g, id, plan[..|plan| - 1]);
    }
  }

  lemma CommitMembers(g: Graph, id: NodeId, plan: seq<nat>)
    requires (forall x :: x in g.nodes ==> x < g.next) && id in g.nodes && InRange(plan, |g.nodes[id].addenda|)
    ensures InsertsMembers(g, id, plan, Commit(g, id, plan))
  {
    var canonical, t := g.nodes[id], Commit(g, id, plan);
    forall k | 0 <= k < |plan|
      ensures MemberAt(t, g.next + k, canonical, canonical.addenda[plan[k]])
    {
      InsertedMember(g, id, plan, k);
      assert t.nodes[g.next + k] == Member(canonical, canonical.addenda[plan[k]]);
      MemberMade(canonical, canonical.addenda[plan[k]]);
    }
  }

  lemma CommitInserts(g: Graph, id: NodeId, plan: seq<nat>)
    requires (forall x :: x in g.nodes ==> x < g.next) && id in g.nodes && InRange(plan, |g.nodes[id].addenda|)
    ensures Inserts(g, id, plan, Commit(g, id, plan))
  {
    InsertedRows(g, id, plan);
    InsertedEdges(g, id, plan);
    CommitMembers(g, id, plan);
  }

  lemma MemberMade(canonical: Node, a: Addendum)
    ensures MadeFrom(Member(canonical, a), canonical, a)
  {
    TitleIs(a.body, canonical.title);
  }

  // ------------------------------------------------------------------- a whole run

  ghost predicate Known(g: Graph, ids: seq<NodeId>) {
    forall k :: 0 <= k < |ids| ==> ids[k] in g.nodes
  }

  function RunAll(fold: Folding, g: Graph, ids: seq<NodeId>): (t: Graph)
    requires Known(g, ids)
    ensures forall x :: x in g.nodes ==> x in t.nodes
    decreases |ids|
  {
    if ids == [] then g else RunAll(fold, PromoteOne(fold, g, ids[0]), ids[1..])
  }

  ghost predicate Distinct(ids: seq<NodeId>) {
    forall i, j :: 0 <= i < j < |ids| ==> ids[i] != ids[j]
  }

  lemma {:induction false} RunAppend(fold: Folding, g: Graph, a: seq<NodeId>, b: seq<NodeId>)
    requires Sound(g) && Known(g, a + b) && Known(g, a) && Known(g, b)
    ensures Sound(RunAll(fold, g, a)) && RunAll(fold, g, a).rules == g.rules
    ensures RunAll(fold, g, a + b) == RunAll(fold, RunAll(fold, g, a), b)
    decreases |a|
  {
    if a == [] {
      assert a + b == b;
    } else {
      assert (a + b)[1..] == a[1..] + b && (a + b)[0] == a[0];
      PromoteOneSound(fold, g, a[0]);
      RunAppend(fold, PromoteOne(fold, g, a[0]), a[1..], b);
    }
  }

  /** A run over other nodes leaves a node, its cluster and so its plan alone. */
  lemma {:induction false} RunFrame(fold: Folding, g: Graph, ids: seq<NodeId>, y: NodeId)
    requires Sound(g) && Known(g, ids) && y in g.nodes && y !in ids
    ensures SameFor(fold, g, RunAll(fold, g, ids), y)
    decreases |ids|
  {
    if ids != [] {
      OthersUntouched(fold, g, ids[0], y);
      PromoteOneSound(fold, g, ids[0]);
      RunFrame(fold, PromoteOne(fold, g, ids[0]), ids[1..], y);
    }
  }

  /** Node `x` of `f` is a member made from an addendum that `id` was planned to promote. */
  ghost predicate MemberOfPlan(fold: Folding, g: Graph, f: Graph, x: NodeId, id: NodeId) {
    && id in g.nodes && x in f.nodes
    && exists i :: i in Plan(fold, g, id) && i < |g.nodes[id].addenda|
                   && MadeFrom(f.nodes[x], g.nodes[id], g.nodes[id].addenda[i])
  }

  lemma OneMakes(fold: Folding, g: Graph, id: NodeId, x: NodeId)
    requires Sound(g) && id in g.nodes && x in PromoteOne(fold, g, id).nodes && x !in g.nodes
    ensures MemberOfPlan(fold, g, PromoteOne(fold, g, id), x, id)
  {
    var plan, t := Plan(fold, g, id), PromoteOne(fold, g, id);
    PlanIs(fold, g, id);
    InsertedNodes(g, id, plan);
    CommitMembers(g, id, plan);
    var k := x - g.next;
    assert plan[k] in plan && MemberAt(t, g.next + k, g.nodes[id], g.nodes[id].addenda[plan[k]]);
  }

  /** Every node a run adds is a member of one of its nodes. */
  lemma {:induction false} RunMakes(fold: Folding, g: Graph, ids: seq<NodeId>, x: NodeId) returns (id: NodeId)
    requires Sound(g) && Known(g, ids) && Distinct(ids) && x in RunAll(fold, g, ids).nodes && x !in g.nodes
    ensures id in ids && MemberOfPlan(fold, g, RunAll(fold, g, ids), x, id)
    decreases |ids|
  {
    var t, f := PromoteOne(fold, g, ids[0]), RunAll(fold, g, ids);
    PromoteOneSound(fold, g, ids[0]);
    if x in t.nodes {
      id := ids[0];
      MadeFirst(fold, g, ids, x);
    } else {
      id := RunMakes(fold, t, ids[1..], x);
      OthersUntouched(fold, g, ids[0], id);
      SameMember(fold, g, t, f, x, id);
    }
  }

  lemma MadeFirst(fold: Folding, g: Graph, ids: seq<NodeId>, x: NodeId)
    requires Sound(g) && ids != [] && Known(g, ids) && x in PromoteOne(fold, g, ids[0]).nodes && x !in g.nodes
    ensures MemberOfPlan(fold, g, RunAll(fold, g, ids), x, ids[0])
  {
    var t := PromoteOne(fold, g, ids[0]);
    PromoteOneSound(fold, g, ids[0]);
    OneMakes(fold, g, ids[0], x);
    RunFrame(fold, t, ids[1..], x);
    KeptMember(fold, g, t, RunAll(fold, g, ids), x, ids[0]);
  }

  lemma KeptMember(fold: Folding, g: Graph, t: Graph, f: Graph, x: NodeId, id: NodeId)
    requires MemberOfPlan(fold, g, t, x, id) && x in f.nodes && f.nodes[x] == t.nodes[x]
    ensures MemberOfPlan(fold, g, f, x, id)
  {
  }

  lemma SameMember(fold: Folding, g: Graph, t: Graph, f: Graph, x: NodeId, id: NodeId)
    requires MemberOfPlan(fold, t, f, x, id) && SameFor(fold, g, t, id)
    ensures MemberOfPlan(fold, g, f, x, id)
  {
  }

  lemma PromotedThenSame(fold: Folding, g: Graph, t: Graph, f: Graph, y: NodeId)
    requires PromotedIn(fold, g, t, y) && SameFor(fold, t, f, y)
    ensures PromotedIn(fold, g, f, y)
  {
  }

  lemma SameThenPromoted(fold: Folding, g: Graph, t: Graph, f: Graph, y: NodeId)
    requires SameFor(fold, g, t, y) && PromotedIn(fold, t, f, y)
    ensures PromotedIn(fold, g, f, y)
  {
  }

  /** A run promotes each of its nodes by the plan the node had when the run began. */
  lemma {:induction false} RunSettles(fold: Folding, g: Graph, ids: seq<NodeId>, y: NodeId)
    requires Sound(g) && Known(g, ids) && Distinct(ids) && y in ids
    ensures PromotedIn(fold, g, RunAll(fold, g, ids), y)
    decreases |ids|
  {
    var t, f := PromoteOne(fold, g, ids[0]), RunAll(fold, g, ids);
    PromoteOneSound(fold, g, ids[0]);
    if y == ids[0] {
      SelfPromoted(fold, g, y);
      RunFrame(fold, t, ids[1..], y);
      PromotedThenSame(fold, g, t, f, y);
    } else {
      OthersUntouched(fold, g, ids[0], y);
      RunSettles(fold, t, ids[1..], y);
      SameThenPromoted(fold, g, t, f, y);
    }
  }

  /** Re-running over nodes with nothing left to promote changes nothing. */
  lemma {:induction false} NothingToPromote(fold: Folding, g: Graph, ids: seq<NodeId>)
    requires Known(g, ids) && forall k :: 0 <= k < |ids| ==> Plan(fold, g, ids[k]) == []
    ensures RunAll(fold, g, ids) == g
  {
    if ids != [] {
      NothingToPromote(fold, g, ids[1..]);
    }
  }

  // --------------------------------------------------------- re-runs and recovery

  /** Every addendum the plan skips as not novel keeps enough overlap once the promoted
      bodies join the corpus: the words they add outside it stay within its slack. A
      pack without the rule adds no peers, so nothing can change. */
  ghost predicate Quiet(fold: Folding, g: Graph, id: NodeId)
    requires id in g.nodes
  {
    var addenda := g.nodes[id].addenda;
    g.nodes[id].kind in g.rules ==>
    forall i :: 0 <= i < |addenda| && addenda[i].promotedTo.None? && i !in Plan(fold, g, id) ==>
      WithinSlack(fold, g, id, i)
  }

  ghost predicate WithinSlack(fold: Folding, g: Graph, id: NodeId, i: nat)
    requires id in g.nodes && i < |g.nodes[id].addenda|
  {
    var addenda, promoted := g.nodes[id].addenda, AllWords(fold, PlannedBodies(fold, g, id));
    var words, corpus := Words(fold, addenda[i].body), Before(fold, addenda, i, Cluster(fold, g, id));
    4 * |promoted - corpus - words| <=
      5 * (|words * corpus| + |(promoted - corpus) * words|) - 4 * |words + corpus|
  }

  ghost function Joined(fold: Folding, g: Graph, id: NodeId): set<string>
    requires id in g.nodes
  {
    if g.nodes[id].kind in g.rules then AllWords(fold, PlannedBodies(fold, g, id)) else {}
  }

  /** Addendum `i` was passed over, and stays within its slack. */
  ghost predicate StaysSkipped(fold: Folding, g: Graph, id: NodeId, i: nat)
    requires id in g.nodes && i < |g.nodes[id].addenda|
  {
    var addenda := g.nodes[id].addenda;
    !Novel(Words(fold, addenda[i].body), Before(fold, addenda, i, Cluster(fold, g, id)) + Joined(fold, g, id))
  }

  /** What a promoted node would still promote: what was passed over and does not stay so. */
  lemma PromotableAfter(fold: Folding, g: Graph, f: Graph, id: NodeId, i: nat)
    requires PromotedIn(fold, g, f, id) && i < |g.nodes[id].addenda|
    ensures Promotable(fold, f.nodes[id].addenda, i, Cluster(fold, f, id)) <==>
      && g.nodes[id].addenda[i].promotedTo.None? && i !in Plan(fold, g, id)
      && !StaysSkipped(fold, g, id, i)
  {
    SameBefore(fold, g, f, id, i, Joined(fold, g, id));
  }

  /** Staying skipped, in the words of `Quiet`; without peers nothing changes. */
  lemma SlackExactlyWhen(fold: Folding, g: Graph, id: NodeId, i: nat)
    requires id in g.nodes && i < |g.nodes[id].addenda|
    ensures g.nodes[id].kind in g.rules ==> (StaysSkipped(fold, g, id, i) <==> WithinSlack(fold, g, id, i))
    ensures g.nodes[id].kind !in g.rules && g.nodes[id].addenda[i].promotedTo.None? && i !in Plan(fold, g, id)
      ==> StaysSkipped(fold, g, id, i)
  {
    var addenda := g.nodes[id].addenda;
    var words, corpus := Words(fold, addenda[i].body), Before(fold, addenda, i, Cluster(fold, g, id));
    GrownCorpus(words, corpus, AllWords(fold, PlannedBodies(fold, g, id)));
    PlanIs(fold, g, id);
    assert corpus + {} == corpus;
  }

  lemma EmptyPlan(fold: Folding, f: Graph, id: NodeId)
    requires id in f.nodes
    ensures Plan(fold, f, id) == [] <==>
      forall i :: 0 <= i < |f.nodes[id].addenda| ==> !Promotable(fold, f.nodes[id].addenda, i, Cluster(fold, f, id))
  {
    PlanIs(fold, f, id);
    var plan := Plan(fold, f, id);
    if plan != [] {
      assert plan[0] in plan;
    }
  }

  /** A promoted node has nothing more to promote exactly when it was quiet. */
  lemma QuietExactlyWhen(fold: Folding, g: Graph, f: Graph, id: NodeId)
    requires Sound(g) && PromotedIn(fold, g, f, id)
    ensures Plan(fold, f, id) == [] <==> Quiet(fold, g, id)
  {
    EmptyPlan(fold, f, id);
    assert |Bodies(f.nodes[id].addenda)| == |f.nodes[id].addenda|;
    assert |Bodies(g.nodes[id].addenda)| == |g.nodes[id].addenda|;
    forall i | 0 <= i < |g.nodes[id].addenda|
      ensures Promotable(fold, f.nodes[id].addenda, i, Cluster(fold, f, id)) <==>
        && g.nodes[id].kind in g.rules
        && g.nodes[id].addenda[i].promotedTo.None? && i !in Plan(fold, g, id) && !WithinSlack(fold, g, id, i)
    {
      PromotableAfter(fold, g, f, id, i);
      SlackExactlyWhen(fold, g, id, i);
    }
  }

  lemma SameBefore(fold: Folding, g: Graph, f: Graph, id: NodeId, i: nat, more: set<string>)
    requires id in g.nodes && id in f.nodes && i < |g.nodes[id].addenda|
    requires Bodies(f.nodes[id].addenda) == Bodies(g.nodes[id].addenda)
    requires Cluster(fold, f, id) == Cluster(fold, g, id) + more
    ensures |f.nodes[id].addenda| == |g.nodes[id].addenda|
    ensures f.nodes[id].addenda[i].body == g.nodes[id].addenda[i].body
    ensures Before(fold, f.nodes[id].addenda, i, Cluster(fold, f, id)) ==
      Before(fold, g.nodes[id].addenda, i, Cluster(fold, g, id)) + more
  {
    assert |Bodies(f.nodes[id].addenda)| == |f.nodes[id].addenda|;
    assert Bodies(f.nodes[id].addenda)[i] == f.nodes[id].addenda[i].body;
    assert Bodies(g.nodes[id].addenda)[i] == g.nodes[id].addenda[i].body;
    assert Bodies(f.nodes[id].addenda[..i]) == Bodies(f.nodes[id].addenda)[..i];
    assert Bodies(g.nodes[id].addenda[..i]) == Bodies(g.nodes[id].addenda)[..i];
  }

  lemma PlansAfterRun(fold: Folding, g: Graph, head: seq<NodeId>, j: nat)
    requires Sound(g) && Known(g, head) && Distinct(head) && j < |head|
    ensures Plan(fold, RunAll(fold, g, head), head[j]) == [] <==> Quiet(fold, g, head[j])
    ensures PromotedIn(fold, g, RunAll(fold, g, head), head[j])
  {
    RunSettles(fold, g, head, head[j]);
    QuietExactlyWhen(fold, g, RunAll(fold, g, head), head[j]);
  }

  /** Recovery. A run that died after the nodes of `head`, then a whole run again: the
      result is that of one uninterrupted run exactly when each of those nodes was
      quiet to begin with. */
  lemma ResumeExactlyWhen(fold: Folding, g: Graph, head: seq<NodeId>, tail: seq<NodeId>)
    requires Sound(g) && Known(g, head) && Known(g, tail) && Known(g, head + tail) && Distinct(head + tail)
    ensures RunAll(fold, RunAll(fold, g, head), head + tail) == RunAll(fold, g, head + tail) <==>
      forall id :: id in head ==> Quiet(fold, g, id)
  {
    RunAppend(fold, g, head, tail);
    RunAppend(fold, RunAll(fold, g, head), head, tail);
    DistinctHead(head, tail);
    if id :| id in head && !Quiet(fold, g, id) {
      UnquietHead(fold, g, RunAll(fold, g, head), head, head + tail, id);
    } else {
      QuietHeadIsDone(fold, g, head);
    }
  }

  lemma DistinctHead(head: seq<NodeId>, tail: seq<NodeId>)
    requires Distinct(head + tail)
    ensures Distinct(head)
  {
    assert forall i :: 0 <= i < |head| ==> (head + tail)[i] == head[i];
  }

  lemma UnquietHead(fold: Folding, g: Graph, s: Graph, head: seq<NodeId>, ids: seq<NodeId>, id: NodeId)
    requires Sound(g) && Known(g, head) && Distinct(head) && s == RunAll(fold, g, head)
    requires Sound(s) && Known(g, ids) && Known(s, ids) && Distinct(ids)
    requires id in head && id in ids && !Quiet(fold, g, id)
    ensures RunAll(fold, s, ids) != RunAll(fold, g, ids)
  {
    var j :| 0 <= j < |head| && head[j] == id;
    PlansAfterRun(fold, g, head, j);
    MoreIsMarked(fold, g, s, ids, id);
  }

  lemma QuietHeadIsDone(fold: Folding, g: Graph, head: seq<NodeId>)
    requires Sound(g) && Known(g, head) && Distinct(head) && forall id :: id in head ==> Quiet(fold, g, id)
    ensures RunAll(fold, RunAll(fold, g, head), head) == RunAll(fold, g, head)
  {
    forall j | 0 <= j < |head|
      ensures Plan(fold, RunAll(fold, g, head), head[j]) == []
    {
      assert head[j] in head;
      PlansAfterRun(fold, g, head, j);
    }
    NothingToPromote(fold, RunAll(fold, g, head), head);
  }

  /** The documented claim that a full re-run is a no-op holds exactly on graphs whose
      nodes are all quiet. */
  lemma RerunIsNoOpExactlyWhen(fold: Folding, g: Graph, ids: seq<NodeId>)
    requires Sound(g) && Known(g, ids) && Distinct(ids)
    ensures RunAll(fold, RunAll(fold, g, ids), ids) == RunAll(fold, g, ids) <==>
      forall id :: id in ids ==> Quiet(fold, g, id)
  {
    assert ids + [] == ids;
    ResumeExactlyWhen(fold, g, ids, []);
  }

  /** Without the rule, or when nothing is skipped before something promoted, every
      node is quiet. */
  lemma QuietWhenNothingFollowsASkip(fold: Folding, g: Graph, id: NodeId)
    requires Sound(g) && id in g.nodes
    requires var addenda, plan := g.nodes[id].addenda, Plan(fold, g, id);
      || g.nodes[id].kind !in g.rules
      || forall i, k :: 0 <= i < |addenda| && addenda[i].promotedTo.None? && i !in plan && k in plan ==> k < i
    ensures Quiet(fold, g, id)
  {
    var addenda, plan := g.nodes[id].addenda, Plan(fold, g, id);
    if g.nodes[id].kind in g.rules {
      forall i | 0 <= i < |addenda| && addenda[i].promotedTo.None? && i !in plan
        ensures WithinSlack(fold, g, id, i)
      {
        StaysWithin(fold, g, id, i);
      }
    }
  }

  /** An addendum skipped after all that is promoted has those in its corpus already. */
  lemma StaysWithin(fold: Folding, g: Graph, id: NodeId, i: nat)
    requires id in g.nodes && i < |g.nodes[id].addenda| && g.nodes[id].addenda[i].promotedTo.None?
    requires i !in Plan(fold, g, id) && forall k :: k in Plan(fold, g, id) ==> k < i
    ensures WithinSlack(fold, g, id, i)
  {
    var addenda, plan := g.nodes[id].addenda, Plan(fold, g, id);
    var words, corpus := Words(fold, addenda[i].body), Before(fold, addenda, i, Cluster(fold, g, id));
    PlanIs(fold, g, id);
    assert forall k :: 0 <= k < |plan| ==> plan[k] in plan;
    PickedBefore(fold, addenda, plan, i);
    assert corpus + AllWords(fold, PlannedBodies(fold, g, id)) == corpus;
    assert !Promotable(fold, addenda, i, Cluster(fold, g, id));
    GrownCorpus(words, corpus, AllWords(fold, PlannedBodies(fold, g, id)));
  }

  lemma {:induction false} PickedBefore(fold: Folding, addenda: seq<Addendum>, plan: seq<nat>, i: nat)
    requires i <= |addenda| && InRange(plan, i) && InRange(plan, |addenda|)
    ensures AllWords(fold, Picked(addenda, plan)) <= AllWords(fold, Bodies(addenda[..i]))
  {
    if plan != [] {
      var last := plan[|plan| - 1];
      PickedBefore(fold, addenda, plan[..|plan| - 1], i);
      AllWordsJoin(fold, Picked(addenda, plan[..|plan| - 1]), [addenda[last].body]);
      assert AllWords(fold, [addenda[last].body][1..]) == {};
      forall word | word in Words(fold, addenda[last].body)
        ensures word in AllWords(fold, Bodies(addenda[..i]))
      {
        assert Bodies(addenda[..i])[last] == addenda[last].body;
        WordsOfAPart(fold, Bodies(addenda[..i]), word);
      }
    }
  }

  /** Where a second run promotes something, it leaves a marker that one run does not. */
  lemma MoreIsMarked(fold: Folding, g: Graph, s: Graph, ids: seq<NodeId>, id: NodeId)
    requires Sound(g) && Sound(s) && Known(g, ids) && Known(s, ids) && Distinct(ids) && id in ids
    requires PromotedIn(fold, g, s, id) && Plan(fold, s, id) != []
    ensures RunAll(fold, s, ids) != RunAll(fold, g, ids)
  {
    RunSettles(fold, g, ids, id);
    RunSettles(fold, s, ids, id);
    PlanIs(fold, s, id);
    var i := Plan(fold, s, id)[0];
    assert i in Plan(fold, s, id);
    assert |Bodies(s.nodes[id].addenda)| == |s.nodes[id].addenda|;
    assert |Bodies(g.nodes[id].addenda)| == |g.nodes[id].addenda|;
  }

  // ------------------------------------------------------------- repeated re-runs

  function Reruns(fold: Folding, g: Graph, ids: seq<NodeId>, n: nat): (t: Graph)
    requires Known(g, ids)
    ensures forall x :: x in g.nodes ==> x in t.nodes
  {
    if n == 0 then g else RunAll(fold, Reruns(fold, g, ids, n - 1), ids)
  }

  /** The addenda with no marker, by node and position. */
  ghost function Unmarked(g: Graph, ids: seq<NodeId>): set<(NodeId, nat)>
    requires Known(g, ids)
  {
    set id, i: nat | id in ids && i < |g.nodes[id].addenda| && g.nodes[id].addenda[i].promotedTo.None? :: (id, i)
  }

  lemma RunSound(fold: Folding, g: Graph, ids: seq<NodeId>)
    requires Sound(g) && Known(g, ids)
    ensures Sound(RunAll(fold, g, ids))
  {
    assert ids + [] == ids;
    RunAppend(fold, g, ids, []);
  }

  lemma RunOnlyMarks(fold: Folding, g: Graph, ids: seq<NodeId>)
    requires Sound(g) && Known(g, ids) && Distinct(ids)
    ensures Unmarked(RunAll(fold, g, ids), ids) <= Unmarked(g, ids)
  {
    var f := RunAll(fold, g, ids);
    forall id, i: nat | id in ids && i < |f.nodes[id].addenda| && f.nodes[id].addenda[i].promotedTo.None?
      ensures i < |g.nodes[id].addenda| && g.nodes[id].addenda[i].promotedTo.None?
    {
      RunSettles(fold, g, ids, id);
      assert |Bodies(f.nodes[id].addenda)| == |f.nodes[id].addenda|;
      assert |Bodies(g.nodes[id].addenda)| == |g.nodes[id].addenda|;
    }
  }

  /** A run that changes anything marks an addendum. */
  lemma ChangeMarks(fold: Folding, g: Graph, ids: seq<NodeId>)
    requires Sound(g) && Known(g, ids) && Distinct(ids) && RunAll(fold, g, ids) != g
    ensures |Unmarked(RunAll(fold, g, ids), ids)| < |Unmarked(g, ids)|
  {
    var f := RunAll(fold, g, ids);
    if forall k :: 0 <= k < |ids| ==> Plan(fold, g, ids[k]) == [] {
      NothingToPromote(fold, g, ids);
    } else {
      var k :| 0 <= k < |ids| && Plan(fold, g, ids[k]) != [];
      var id := ids[k];
      var i := Plan(fold, g, id)[0];
      PlanIs(fold, g, id);
      assert i in Plan(fold, g, id);
      RunSettles(fold, g, ids, id);
      assert |Bodies(f.nodes[id].addenda)| == |f.nodes[id].addenda|;
      assert |Bodies(g.nodes[id].addenda)| == |g.nodes[id].addenda|;
      RunOnlyMarks(fold, g, ids);
      assert (id, i) in Unmarked(g, ids) && (id, i) !in Unmarked(f, ids);
      FewerPairs(Unmarked(f, ids), Unmarked(g, ids));
    }
  }

  lemma FewerPairs(a: set<(NodeId, nat)>, b: set<(NodeId, nat)>)
    requires a < b
    ensures |a| < |b|
  {
    assert b == a + (b - a);
  }

  ghost predicate Settled(fold: Folding, g: Graph, ids: seq<NodeId>)
    requires Known(g, ids)
  {
    RunAll(fold, g, ids) == g
  }

  lemma OneRerun(fold: Folding, s: Graph, ids: seq<NodeId>)
    requires Sound(s) && Known(s, ids) && Distinct(ids)
    ensures Sound(RunAll(fold, s, ids))
    ensures Settled(fold, s, ids) || |Unmarked(RunAll(fold, s, ids), ids)| < |Unmarked(s, ids)|
  {
    RunSound(fold, s, ids);
    if !Settled(fold, s, ids) {
      ChangeMarks(fold, s, ids);
    }
  }

  lemma {:induction false} RerunsMark(fold: Folding, g: Graph, ids: seq<NodeId>, n: nat)
    requires Sound(g) && Known(g, ids) && Distinct(ids)
    ensures var t := Reruns(fold, g, ids, n);
      Sound(t) && (Settled(fold, t, ids) || |Unmarked(t, ids)| + n <= |Unmarked(g, ids)|)
  {
    if n > 0 {
      RerunsMark(fold, g, ids, n - 1);
      OneRerun(fold, Reruns(fold, g, ids, n - 1), ids);
    }
  }

  /** What a documented re-run does not do at once, repeated re-runs do: after at most as many
      as there are unmarked addenda, one more changes nothing. */
  lemma RerunsSettle(fold: Folding, g: Graph, ids: seq<NodeId>, n: nat)
    requires Sound(g) && Known(g, ids) && Distinct(ids) && n >= |Unmarked(g, ids)|
    ensures Settled(fold, Reruns(fold, g, ids, n), ids)
    ensures forall id :: id in ids ==> Plan(fold, Reruns(fold, g, ids, n), id) == []
  {
    var t := Reruns(fold, g, ids, n);
    RerunsMark(fold, g, ids, n);
    OneRerun(fold, t, ids);
    forall id | id in ids
      ensures Plan(fold, t, id) == []
    {
      SettledPlan(fold, t, ids, id);
    }
  }

  /** A settled node has nothing left to promote. */
  lemma SettledPlan(fold: Folding, t: Graph, ids: seq<NodeId>, id: NodeId)
    requires Sound(t) && Known(t, ids) && Distinct(ids) && id in ids && Settled(fold, t, ids)
    ensures Plan(fold, t, id) == []
  {
    RunSettles(fold, t, ids, id);
    PlanIs(fold, t, id);
    EmptyPlan(fold, t, id);
  }

  const REPEATED := Addendum("a", None, "p", "t", None)
  const DISTINCT := Addendum("b", None, "p", "t", None)
  const CANONICAL := Node("note", "s", "title", "a", None, [REPEATED, DISTINCT], true, "t")
  const EXAMPLE := Graph(map[0 := CANONICAL], [], {"note"}, [], 1)

  lemma ExamplePlan(fold: Folding)
    requires fold('a') == Some('a') && fold('b') == Some('b')
    ensures Plan(fold, EXAMPLE, 0) == [1] && Cluster(fold, EXAMPLE, 0) == {"a"}
    ensures Before(fold, CANONICAL.addenda, 0, {"a"}) == {"a"}
  {
    OneWord(fold, 'a');
    OneWord(fold, 'b');
    ClusterSplit(fold, EXAMPLE, 0);
    assert Bodies(CANONICAL.addenda[..0]) == [];
    BeforeNext(fold, CANONICAL.addenda, 0, {"a"});
    assert {"a"} * {"a"} == {"a"} && {"a"} + {"a"} == {"a"} && {"b"} * {"a"} == {};
    PlanIs(fold, EXAMPLE, 0);
    OnlySecond(Plan(fold, EXAMPLE, 0));
  }

  lemma ExampleIsNotQuiet(fold: Folding)
    requires fold('a') == Some('a') && fold('b') == Some('b')
    ensures !Quiet(fold, EXAMPLE, 0)
  {
    ExamplePlan(fold);
    OneWord(fold, 'a');
    OneWord(fold, 'b');
    assert [1][..0] == [] && Picked(CANONICAL.addenda, [1][..0]) == [];
    assert PlannedBodies(fold, EXAMPLE, 0) == ["b"];
    assert AllWords(fold, ["b"][1..]) == {} && AllWords(fold, ["b"]) == {"b"};
    assert {"b"} - {"a"} - {"a"} == {"b"} && ({"b"} - {"a"}) * {"a"} == {};
    assert {"a"} * {"a"} == {"a"} && {"a"} + {"a"} == {"a"};
    assert CANONICAL.addenda[0].promotedTo.None? && 0 !in Plan(fold, EXAMPLE, 0);
  }

  /** The claim fails on a node with two addenda: the first repeats the canonical and
      is skipped, the second is new and is promoted; once it is a peer, the first
      shares one word of two with the corpus and a re-run promotes it. */
  lemma RerunCounterexample(fold: Folding)
    requires fold('a') == Some('a') && fold('b') == Some('b')
    ensures RunAll(fold, RunAll(fold, EXAMPLE, [0]), [0]) != RunAll(fold, EXAMPLE, [0])
  {
    ExampleIsNotQuiet(fold);
    RerunIsNoOpExactlyWhen(fold, EXAMPLE, [0]);
  }

  lemma OneWord(fold: Folding, c: char)
    requires fold(c) == Some(c)
    ensures Words(fold, [c]) == {[c]}
  {
    assert [c][1..] == "" && "" + [c] == [c];
    assert Scan(fold, "", "" + [c]) == {[c]};
  }

  lemma OnlySecond(plan: seq<nat>)
    requires Ascending(plan) && forall k :: k in plan <==> k == 1
    ensures plan == [1]
  {
    assert 1 in plan;
    forall i | 0 <= i < |plan|
      ensures plan[i] == 1
    {
      assert plan[i] in plan;
    }
    assert plan[..1] == [1] && plan[|plan| - 1] == 1;
    assert plan[0] < plan[|plan| - 1] || |plan| == 1;
  }

  // ------------------------------------------------------------------ what is selected

  /** The nodes a run selects: active, in scope, with addenda. */
  predicate Eligible(node: Node, scope: Option<string>) {
    node.active && (scope.None? || node.scope == scope.value) && node.addenda != []
  }

  /** `ids` is the selection, ordered by id. */
  ghost predicate Selection(g: Graph, scope: Option<string>, ids: seq<NodeId>) {
    && Ascending(ids)
    && forall id :: id in ids <==> id in g.nodes && Eligible(g.nodes[id], scope)
  }

  /** A promotion leaves the selection alone: members carry no addenda, and a promoted
      node keeps its own. */
  lemma SelectionStable(fold: Folding, g: Graph, scope: Option<string>, id: NodeId)
    requires Sound(g) && id in g.nodes
    ensures forall x :: x in PromoteOne(fold, g, id).nodes && Eligible(PromoteOne(fold, g, id).nodes[x], scope) <==>
      x in g.nodes && Eligible(g.nodes[x], scope)
  {
    var plan, t := Plan(fold, g, id), PromoteOne(fold, g, id);
    PlanIs(fold, g, id);
    InsertedShape(g, id, plan);
    assert Marked(g.nodes[id].addenda, plan, g.next) == [] <==> g.nodes[id].addenda == [];
    forall x | x in t.nodes && x !in g.nodes
      ensures t.nodes[x].addenda == []
    {
      assert t.nodes[g.next + (x - g.next)] == Member(g.nodes[id], g.nodes[id].addenda[plan[x - g.next]]);
    }
  }

  lemma {:induction false} RunSelectsTheSame(fold: Folding, g: Graph, scope: Option<string>,
                                             done: seq<NodeId>, ids: seq<NodeId>)
    requires Sound(g) && Known(g, done) && Selection(g, scope, ids)
    ensures Selection(RunAll(fold, g, done), scope, ids)
    decreases |done|
  {
    if done != [] {
      SelectionStable(fold, g, scope, done[0]);
      PromoteOneSound(fold, g, done[0]);
      RunSelectsTheSame(fold, PromoteOne(fold, g, done[0]), scope, done[1..], ids);
    }
  }

  /** A run over the selection promotes the plan of every active node in scope, and leaves
      inactive nodes, those of other scopes and those without addenda as they were. */
  lemma SelectionDecides(fold: Folding, g: Graph, scope: Option<string>, ids: seq<NodeId>, x: NodeId)
    requires Sound(g) && Selection(g, scope, ids) && x in g.nodes
    ensures Known(g, ids)
    ensures !g.nodes[x].active || g.nodes[x].addenda == [] || (scope.Some? && g.nodes[x].scope != scope.value) ==>
      x in RunAll(fold, g, ids).nodes && RunAll(fold, g, ids).nodes[x] == g.nodes[x]
    ensures g.nodes[x].active && g.nodes[x].addenda != [] && (scope.None? || g.nodes[x].scope == scope.value) ==>
      PromotedIn(fold, g, RunAll(fold, g, ids), x)
  {
    assert forall k :: 0 <= k < |ids| ==> ids[k] in ids;
    if x in ids {
      RunSettles(fold, g, ids, x);
    } else {
      RunFrame(fold, g, ids, x);
    }
  }

  // -------------------------------------------------------------------- accounting

  datatype Summary = Summary(scanned: nat, seen: nat, promoted: nat, nonNovel: nat, alreadyMarked: nat,
                             edgesSkipped: nat)

  const NOTHING := Summary(0, 0, 0, 0, 0, 0)

  function CountMarked(addenda: seq<Addendum>): nat {
    if addenda == [] then 0
    else CountMarked(addenda[..|addenda| - 1]) + (if addenda[|addenda| - 1].promotedTo.Some? then 1 else 0)
  }

  /** Addenda neither marked nor planned. */
  function CountSkipped(addenda: seq<Addendum>, plan: seq<nat>): nat {
    if addenda == [] then 0 else
    var last := |addenda| - 1;
    CountSkipped(addenda[..last], plan) + (if addenda[last].promotedTo.None? && last !in plan then 1 else 0)
  }

  lemma {:induction false} Partition(addenda: seq<Addendum>, plan: seq<nat>)
    requires Ascending(plan) && InRange(plan, |addenda|)
    requires forall k :: 0 <= k < |plan| ==> addenda[plan[k]].promotedTo.None?
    ensures |addenda| == CountMarked(addenda) + |plan| + CountSkipped(addenda, plan)
  {
    if addenda != [] {
      var last := |addenda| - 1;
      if plan != [] && plan[|plan| - 1] == last {
        var init := plan[..|plan| - 1];
        assert plan == init + [last];
        assert forall i :: 0 <= i < |init| ==> init[i] < last;
        Partition(addenda[..last], init);
        SkippedSame(addenda[..last], init, plan);
      } else {
        forall i | 0 <= i < |plan|
          ensures plan[i] < last
        {
          assert plan[i] <= plan[|plan| - 1];
        }
        Partition(addenda[..last], plan);
      }
    }
  }

  lemma {:induction false} SkippedSame(addenda: seq<Addendum>, a: seq<nat>, b: seq<nat>)
    requires forall i: nat :: i < |addenda| ==> (i in a <==> i in b)
    ensures CountSkipped(addenda, a) == CountSkipped(addenda, b)
  {
    if addenda != [] {
      SkippedSame(addenda[..|addenda| - 1], a, b);
    }
  }

  /** One node's share of the counts. */
  function Tally(fold: Folding, g: Graph, id: NodeId, s: Summary): Summary
    requires id in g.nodes
  {
    var addenda, plan := g.nodes[id].addenda, Plan(fold, g, id);
    Summary(s.scanned + 1, s.seen + |addenda|, s.promoted + |plan|, s.nonNovel + CountSkipped(addenda, plan),
            s.alreadyMarked + CountMarked(addenda),
            s.edgesSkipped + (if g.nodes[id].kind in g.rules then 0 else |plan|))
  }

  /** The counts of a run over `ids`, all read off the graph as it was. */
  function Total(fold: Folding, g: Graph, ids: seq<NodeId>): Summary
    requires Known(g, ids)
  {
    if ids == [] then NOTHING
    else Tally(fold, g, ids[|ids| - 1], Total(fold, g, ids[..|ids| - 1]))
  }

  // What each counter counts, by the addenda themselves.

  datatype Counted = Seen | Carried | Promoted | PassedOver | Edgeless

  ghost predicate Counts(fold: Folding, g: Graph, id: NodeId, i: nat, what: Counted)
    requires id in g.nodes && i < |g.nodes[id].addenda|
  {
    var marked, planned := g.nodes[id].addenda[i].promotedTo.Some?, i in Plan(fold, g, id);
    match what
    case Seen => true
    case Carried => marked
    case Promoted => planned
    case PassedOver => !marked && !planned
    case Edgeless => planned && g.nodes[id].kind !in g.rules
  }

  ghost function AddendaOf(fold: Folding, g: Graph, id: NodeId, what: Counted): set<nat>
    requires id in g.nodes
  {
    set i: nat | i < |g.nodes[id].addenda| && Counts(fold, g, id, i, what)
  }

  ghost function HowMany(fold: Folding, g: Graph, ids: seq<NodeId>, what: Counted): nat
    requires Known(g, ids)
  {
    if ids == [] then 0
    else HowMany(fold, g, ids[..|ids| - 1], what) + |AddendaOf(fold, g, ids[|ids| - 1], what)|
  }

  ghost function MarkedAt(addenda: seq<Addendum>): set<nat> {
    set i: nat | i < |addenda| && addenda[i].promotedTo.Some?
  }

  ghost function SkippedAt(addenda: seq<Addendum>, plan: seq<nat>): set<nat> {
    set i: nat | i < |addenda| && addenda[i].promotedTo.None? && i !in plan
  }

  lemma {:induction false} MarkedIs(addenda: seq<Addendum>)
    ensures CountMarked(addenda) == |MarkedAt(addenda)|
  {
    if addenda != [] {
      var last := |addenda| - 1;
      MarkedIs(addenda[..last]);
      assert MarkedAt(addenda) == MarkedAt(addenda[..last]) + if addenda[last].promotedTo.Some? then {last} else {};
    }
  }

  lemma {:induction false} SkippedIs(addenda: seq<Addendum>, plan: seq<nat>)
    ensures CountSkipped(addenda, plan) == |SkippedAt(addenda, plan)|
  {
    if addenda != [] {
      var last := |addenda| - 1;
      SkippedIs(addenda[..last], plan);
      assert SkippedAt(addenda, plan) ==
        SkippedAt(addenda[..last], plan) + if addenda[last].promotedTo.None? && last !in plan then {last} else {};
    }
  }

  ghost function PlannedAt(plan: seq<nat>, n: nat): set<nat> {
    set i: nat | i < n && i in plan
  }

  lemma {:induction false} PlannedIs(plan: seq<nat>, n: nat)
    requires Ascending(plan) && InRange(plan, n)
    ensures |plan| == |PlannedAt(plan, n)|
  {
    if plan == [] {
      assert PlannedAt(plan, n) == {};
    } else {
      var init, last := plan[..|plan| - 1], plan[|plan| - 1];
      PlannedIs(init, n);
      assert PlannedAt(plan, n) == PlannedAt(init, n) + {last};
    }
  }

  ghost function Below(n: nat): (s: set<nat>)
    ensures |s| == n && forall i: nat :: i in s <==> i < n
  {
    if n == 0 then {} else Below(n - 1) + {n - 1}
  }

  lemma SeenAndCarried(fold: Folding, g: Graph, id: NodeId)
    requires id in g.nodes
    ensures |AddendaOf(fold, g, id, Seen)| == |g.nodes[id].addenda|
    ensures |AddendaOf(fold, g, id, Carried)| == CountMarked(g.nodes[id].addenda)
  {
    MarkedIs(g.nodes[id].addenda);
    assert AddendaOf(fold, g, id, Seen) == Below(|g.nodes[id].addenda|);
    assert AddendaOf(fold, g, id, Carried) == MarkedAt(g.nodes[id].addenda);
  }

  lemma PassedOverIs(fold: Folding, g: Graph, id: NodeId)
    requires id in g.nodes
    ensures |AddendaOf(fold, g, id, PassedOver)| == CountSkipped(g.nodes[id].addenda, Plan(fold, g, id))
  {
    SkippedIs(g.nodes[id].addenda, Plan(fold, g, id));
    assert AddendaOf(fold, g, id, PassedOver) == SkippedAt(g.nodes[id].addenda, Plan(fold, g, id));
  }

  lemma PromotedIs(fold: Folding, g: Graph, id: NodeId)
    requires id in g.nodes
    ensures |AddendaOf(fold, g, id, Promoted)| == |Plan(fold, g, id)|
    ensures |AddendaOf(fold, g, id, Edgeless)| == if g.nodes[id].kind in g.rules then 0 else |Plan(fold, g, id)|
  {
    PlanIs(fold, g, id);
    PlannedIs(Plan(fold, g, id), |g.nodes[id].addenda|);
    assert AddendaOf(fold, g, id, Promoted) == PlannedAt(Plan(fold, g, id), |g.nodes[id].addenda|);
    EdgelessIs(fold, g, id);
  }

  lemma EdgelessIs(fold: Folding, g: Graph, id: NodeId)
    requires id in g.nodes
    ensures AddendaOf(fold, g, id, Edgeless) ==
      if g.nodes[id].kind in g.rules then {} else AddendaOf(fold, g, id, Promoted)
  {
  }

  /** The six counters of a run, by the nodes and addenda each of them counts. */
  lemma {:induction false} TotalMeans(fold: Folding, g: Graph, ids: seq<NodeId>)
    requires Known(g, ids)
    ensures var s := Total(fold, g, ids);
      && s.scanned == |ids| && s.seen == HowMany(fold, g, ids, Seen)
      && s.alreadyMarked == HowMany(fold, g, ids, Carried) && s.promoted == HowMany(fold, g, ids, Promoted)
      && s.nonNovel == HowMany(fold, g, ids, PassedOver) && s.edgesSkipped == HowMany(fold, g, ids, Edgeless)
  {
    if ids != [] {
      TotalMeans(fold, g, ids[..|ids| - 1]);
      SeenAndCarried(fold, g, ids[|ids| - 1]);
      PromotedIs(fold, g, ids[|ids| - 1]);
      PassedOverIs(fold, g, ids[|ids| - 1]);
    }
  }

  /** Every addendum seen is promoted, skipped as not novel, or skipped as marked. */
  lemma {:induction false} CountsAddUp(fold: Folding, g: Graph, ids: seq<NodeId>)
    requires Known(g, ids)
    ensures var s := Total(fold, g, ids); s.seen == s.promoted + s.nonNovel + s.alreadyMarked && s.scanned == |ids|
  {
    if ids != [] {
      var id := ids[|ids| - 1];
      CountsAddUp(fold, g, ids[..|ids| - 1]);
      PlanIs(fold, g, id);
      PlanUnmarked(fold, g, id);
      Partition(g.nodes[id].addenda, Plan(fold, g, id));
    }
  }

  lemma PlanUnmarked(fold: Folding, g: Graph, id: NodeId)
    requires id in g.nodes
    ensures InRange(Plan(fold, g, id), |g.nodes[id].addenda|)
    ensures forall k :: 0 <= k < |Plan(fold, g, id)| ==> g.nodes[id].addenda[Plan(fold, g, id)[k]].promotedTo.None?
  {
    PlanIs(fold, g, id);
    assert forall k :: 0 <= k < |Plan(fold, g, id)| ==> Plan(fold, g, id)[k] in Plan(fold, g, id);
  }

  // ------------------------------------------------------------------ the migration

  lemma {:induction false} TotalOverSnapshot(fold: Folding, g: Graph, h: Graph, id: NodeId, s: Summary)
    requires SameFor(fold, g, h, id)
    ensures Tally(fold, h, id, s) == Tally(fold, g, id, s) && Plan(fold, h, id) == Plan(fold, g, id)
  {
  }

  /** One turn of the planning loop. */
  lemma PlanPrefix(plan: seq<nat>, k: nat, n: nat)
    requires k < |plan| && InRange(plan, n)
    ensures plan[..k + 1] == plan[..k] + [plan[k]]
    ensures InRange(plan[..k], n) && InRange(plan[..k] + [plan[k]], n) && plan[k] < n
  {
  }

  lemma PlanNext(fold: Folding, addenda: seq<Addendum>, i: nat, parts: seq<string>, plan: seq<nat>)
    requires i < |addenda|
    ensures var promote := addenda[i].promotedTo.None? && Novel(Words(fold, addenda[i].body), AllWords(fold, parts));
      plan + PlanFrom(fold, addenda, i, AllWords(fold, parts)) ==
      (if promote then plan + [i] else plan) + PlanFrom(fold, addenda, i + 1, AllWords(fold, parts + [addenda[i].body]))
  {
    AllWordsJoin(fold, parts, [addenda[i].body]);
    assert AllWords(fold, [addenda[i].body][1..]) == {};
    var rest := PlanFrom(fold, addenda, i + 1, AllWords(fold, parts + [addenda[i].body]));
    assert plan + ([i] + rest) == (plan + [i]) + rest;
  }

  /** The novelty verdict against a corpus given in parts. */
  method NovelAgainst(fold: Folding, body: string, parts: seq<string>) returns (novel: bool)
    ensures novel == Novel(Words(fold, body), AllWords(fold, parts))
  {
    JoinedWords(fold, parts);
    novel := IsNovel(fold, body, Join(parts));
  }

  class Database {
    var nodes: map<NodeId, Node>
    var edges: seq<Edge>
    var log: seq<LogRow>
    var next: NodeId
    const rules: set<string>

    function View(): Graph
      reads this
    {
      Graph(nodes, edges, rules, log, next)
    }

    /** The read phase: a running corpus, grown with every addendum seen. */
    method PlanNode(fold: Folding, id: NodeId) returns (plan: seq<nat>)
      requires id in nodes
      ensures plan == Plan(fold, View(), id)
    {
      var addenda := nodes[id].addenda;
      var parts := [nodes[id].body] + PeerBodies(View(), edges, id);
      plan := [];
      for i := 0 to |addenda|
        invariant plan + PlanFrom(fold, addenda, i, AllWords(fold, parts)) == Plan(fold, View(), id)
      {
        var novel := NovelAgainst(fold, addenda[i].body, parts);
        PlanNext(fold, addenda, i, parts, plan);
        if addenda[i].promotedTo.None? && novel {
          plan := plan + [i];
        }
        parts := parts + [addenda[i].body];
      }
    }

    /** One member and the marker that names it. */
    method PlaceMember(id: NodeId, node: Node, i: nat, before: seq<Addendum>, ghost g: Graph, ghost placed: seq<nat>)
      returns (updated: seq<Addendum>)
      requires id in g.nodes && node == g.nodes[id] && i < |node.addenda|
      requires InRange(placed, |node.addenda|) && InRange(placed + [i], |node.addenda|)
      requires View() == Inserted(g, id, placed) && before == Marked(node.addenda, placed, g.next)
      modifies this
      ensures View() == Inserted(g, id, placed + [i]) && updated == Marked(node.addenda, placed + [i], g.next)
    {
      assert i < |node.addenda|;
      assert Marked(node.addenda, placed + [i], g.next) ==
        Marked(node.addenda, placed, g.next)[i := node.addenda[i].(promotedTo := Some(g.next + |placed|))];
      var a := node.addenda[i];
      updated := before[i := a.(promotedTo := Some(next))];
      InsertMember(id, node, a);
    }

    /** One node's transaction. */
    method CommitNode(id: NodeId, plan: seq<nat>)
      requires id in nodes && InRange(plan, |nodes[id].addenda|)
      requires forall x :: x in nodes ==> x < next
      modifies this
      ensures View() == Commit(old(View()), id, plan) && Inserts(old(View()), id, plan, View())
    {
      var node := nodes[id];
      var updated := node.addenda;
      ghost var g := View();
      for k := 0 to |plan|
        invariant View() == Inserted(g, id, plan[..k])
        invariant updated == Marked(node.addenda, plan[..k], g.next)
      {
        PlanPrefix(plan, k, |node.addenda|);
        updated := PlaceMember(id, node, plan[k], updated, g, plan[..k]);
      }
      assert plan[..|plan|] == plan;
      nodes := nodes[id := node.(addenda := updated)];
      CommitInserts(g, id, plan);
    }

    /** A member row, its edge if the pack has the rule, and its log row. */
    method InsertMember(id: NodeId, node: Node, a: Addendum)
      modifies this
      ensures View() == WithMember(old(View()), id, node, a)
    {
      nodes := nodes[next := Member(node, a)];
      if node.kind in rules {
        edges := edges + [Edge(next, id)];
      }
      log := log + [LogRow(next, id, a.author)];
      next := next + 1;
    }

    /** The counts of one node, from the numbers of its marked and planned addenda. */
    static lemma Tallied(fold: Folding, g: Graph, id: NodeId, s: Summary, marked: nat, planned: nat)
      requires id in g.nodes && marked == CountMarked(g.nodes[id].addenda) && planned == |Plan(fold, g, id)|
      ensures |g.nodes[id].addenda| >= marked + planned
      ensures Tally(fold, g, id, s) ==
        Summary(s.scanned + 1, s.seen + |g.nodes[id].addenda|, s.promoted + planned,
                s.nonNovel + (|g.nodes[id].addenda| - marked - planned), s.alreadyMarked + marked,
                s.edgesSkipped + (if g.nodes[id].kind in g.rules then 0 else planned))
    {
      PlanUnmarked(fold, g, id);
      PlanIs(fold, g, id);
      Partition(g.nodes[id].addenda, Plan(fold, g, id));
    }

    /** One selected node: plan, count, and commit unless this is a dry run. */
    method PromoteNode(fold: Folding, id: NodeId, snapshot: Node, dryRun: bool, before: Summary, mayDie: bool)
      returns (summary: Summary, crashed: bool)
      requires Sound(View()) && id in nodes && nodes[id] == snapshot
      modifies this
      ensures View() == if dryRun || crashed then old(View()) else PromoteOne(fold, old(View()), id)
      ensures if crashed then mayDie && !dryRun else summary == Tally(fold, old(View()), id, before)
    {
      crashed := false;
      var addenda := snapshot.addenda;
      var plan := PlanNode(fold, id);
      var marked := CountMarked(addenda);
      PlanIs(fold, View(), id);
      Tallied(fold, View(), id, before, marked, |plan|);
      summary := before.(scanned := before.scanned + 1, seen := before.seen + |addenda|,
        alreadyMarked := before.alreadyMarked + marked,
        nonNovel := before.nonNovel + (|addenda| - marked - |plan|));
      if plan != [] {
        if !dryRun {
          var dies: bool := *;
          if mayDie && dies {
            crashed := true;
            return;
          }
          CommitNode(id, plan);
        }
        summary := summary.(promoted := before.promoted + |plan|,
          edgesSkipped := before.edgesSkipped + (if snapshot.kind in rules then 0 else |plan|));
      }
    }

    /** Promotes the selected nodes one transaction at a time; it may die between two
        of them. A dry run writes nothing and reports the same counts. */
    method Promote(fold: Folding, ids: seq<NodeId>, dryRun: bool, mayDie: bool)
      returns (summary: Summary, crashed: bool, ghost done: nat)
      requires Sound(View()) && Known(View(), ids) && Distinct(ids)
      modifies this
      ensures done <= |ids| && Known(old(View()), ids[..done]) && (!crashed ==> done == |ids|)
      ensures View() == if dryRun then old(View()) else RunAll(fold, old(View()), ids[..done])
      ensures forall x :: x in nodes && x !in old(nodes) ==>
        exists id :: id in ids[..done] && MemberOfPlan(fold, old(View()), View(), x, id)
      ensures if crashed then mayDie && !dryRun else summary == Total(fold, old(View()), ids)
    {
      summary, crashed, done := NOTHING, false, 0;
      ghost var g := View();
      var snapshot := nodes;
      assert ids[..0] == [];
      for i := 0 to |ids|
        invariant done == i && Known(g, ids[..i]) && !crashed
        invariant View() == if dryRun then g else RunAll(fold, g, ids[..i])
        invariant Sound(View()) && Known(View(), ids)
        invariant summary == Total(fold, g, ids[..i])
      {
        OneMore(fold, g, View(), ids, i, dryRun);
        summary, crashed := PromoteNode(fold, ids[i], snapshot[ids[i]], dryRun, summary, mayDie);
        if crashed {
          break;
        }
        done := i + 1;
      }
      assert ids[..|ids|] == ids;
      if !dryRun {
        RunAdds(fold, g, ids, done);
      }
    }
  }

  lemma RunAdds(fold: Folding, g: Graph, ids: seq<NodeId>, n: nat)
    requires Sound(g) && Known(g, ids) && Distinct(ids) && n <= |ids| && Known(g, ids[..n])
    ensures forall x :: x in RunAll(fold, g, ids[..n]).nodes && x !in g.nodes ==>
      exists id :: id in ids[..n] && MemberOfPlan(fold, g, RunAll(fold, g, ids[..n]), x, id)
  {
    forall x | x in RunAll(fold, g, ids[..n]).nodes && x !in g.nodes
      ensures exists id :: id in ids[..n] && MemberOfPlan(fold, g, RunAll(fold, g, ids[..n]), x, id)
    {
      var id := RunMakes(fold, g, ids[..n], x);
    }
  }

  /** One more node of a run. */
  lemma RunNext(fold: Folding, g: Graph, ids: seq<NodeId>, i: nat)
    requires Sound(g) && Known(g, ids) && i < |ids|
    ensures Known(g, ids[..i]) && Known(g, ids[..i + 1])
    ensures ids[i] in RunAll(fold, g, ids[..i]).nodes
    ensures RunAll(fold, g, ids[..i + 1]) == PromoteOne(fold, RunAll(fold, g, ids[..i]), ids[i])
  {
    var h, one := RunAll(fold, g, ids[..i]), [ids[i]];
    assert ids[..i + 1] == ids[..i] + one;
    RunAppend(fold, g, ids[..i], one);
    assert one[1..] == [];
    assert RunAll(fold, h, one) == RunAll(fold, PromoteOne(fold, h, ids[i]), []);
  }

  /** The next node of a run is as it was when the run began. */
  lemma SameSoFar(fold: Folding, g: Graph, h: Graph, ids: seq<NodeId>, i: nat, dryRun: bool)
    requires Sound(g) && Known(g, ids) && Distinct(ids) && i < |ids| && Known(g, ids[..i]) && Known(h, ids)
    requires h == if dryRun then g else RunAll(fold, g, ids[..i])
    ensures SameFor(fold, g, h, ids[i])
  {
    if !dryRun {
      RunFrame(fold, g, ids[..i], ids[i]);
    }
  }

  lemma OneMoreTotal(fold: Folding, g: Graph, h: Graph, ids: seq<NodeId>, i: nat)
    requires i < |ids| && Known(g, ids[..i]) && SameFor(fold, g, h, ids[i])
    ensures Known(g, ids[..i + 1])
    ensures Total(fold, g, ids[..i + 1]) == Tally(fold, h, ids[i], Total(fold, g, ids[..i]))
  {
    assert ids[..i + 1][..i] == ids[..i];
    TotalOverSnapshot(fold, g, h, ids[i], Total(fold, g, ids[..i]));
  }

  lemma OneMore(fold: Folding, g: Graph, h: Graph, ids: seq<NodeId>, i: nat, dryRun: bool)
    requires Sound(g) && Sound(h) && Known(g, ids) && Distinct(ids) && i < |ids| && Known(g, ids[..i]) && Known(h, ids)
    requires h == if dryRun then g else RunAll(fold, g, ids[..i])
    ensures Known(g, ids[..i + 1]) && SameFor(fold, g, h, ids[i])
    ensures Total(fold, g, ids[..i + 1]) == Tally(fold, h, ids[i], Total(fold, g, ids[..i]))
    ensures !dryRun ==> RunAll(fold, g, ids[..i + 1]) == PromoteOne(fold, h, ids[i])
    ensures Sound(PromoteOne(fold, h, ids[i])) && Known(PromoteOne(fold, h, ids[i]), ids)
  {
    SameSoFar(fold, g, h, ids, i, dryRun);
    OneMoreTotal(fold, g, h, ids, i);
    if !dryRun {
      RunNext(fold, g, ids, i);
    }
    PromoteOneSound(fold, h, ids[i]);
  }
}
