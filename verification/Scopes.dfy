/** The tables an ingest writes, cut up by scope: what one scope holds, what clearing it
    removes, and what one engine write inside it adds. */
module Scopes {
  import opened Options
  import opened Space

  type NodeId = nat

  datatype Row = Row(place: Place, body: nat)

  datatype Edge = Edge(space: Option<string>, src: NodeId, dst: NodeId)

  datatype LogRow = LogRow(space: Option<string>, number: nat, node: NodeId, candidate: Option<NodeId>)

  datatype Pending = Pending(number: nat, place: Place)

  /** A completion marker: the triple, and how many nodes its ingest created. */
  datatype Marker = Marker(triple: Triple, nodesWritten: nat)

  /** The tables an ingest writes and the marker file, as a value. */
  datatype Db = Db(nodes: map<NodeId, Row>, edges: set<Edge>, log: set<LogRow>, pending: set<Pending>,
                   markers: seq<Marker>)

  // ------------------------------------------------------------- what a scope holds

  function NodesAt(nodes: map<NodeId, Row>, p: Place): set<NodeId> {
    set id | id in nodes && nodes[id].place == p
  }

  function RowsAt(nodes: map<NodeId, Row>, p: Place): map<NodeId, nat> {
    map id | id in nodes && nodes[id].place == p :: nodes[id].body
  }

  predicate TouchesEdge(e: Edge, ids: set<NodeId>) {
    e.src in ids || e.dst in ids
  }

  predicate TouchesLog(r: LogRow, ids: set<NodeId>) {
    r.node in ids || (r.candidate.Some? && r.candidate.value in ids)
  }

  /** Everything one scope holds, in all four tables. */
  datatype Content = Content(nodes: map<NodeId, nat>, edges: set<Edge>, log: set<LogRow>, pending: set<Pending>)

  const NOTHING := Content(map[], {}, {}, {})

  function EdgesAt(db: Db, p: Place): set<Edge> {
    set e | e in db.edges && TouchesEdge(e, NodesAt(db.nodes, p))
  }

  function LogAt(db: Db, p: Place): set<LogRow> {
    set r | r in db.log && TouchesLog(r, NodesAt(db.nodes, p))
  }

  function PendingAt(db: Db, p: Place): set<Pending> {
    set w | w in db.pending && w.place == p
  }

  function ContentAt(db: Db, p: Place): Content {
    Content(RowsAt(db.nodes, p), EdgesAt(db, p), LogAt(db, p), PendingAt(db, p))
  }

  /** Rows hang off existing nodes of their own scope: writes are scope-filtered, and
      a dependent row never outlives its node. */
  ghost predicate Tidy(db: Db) {
    && (forall e :: e in db.edges ==>
          && e.src in db.nodes && e.dst in db.nodes
          && db.nodes[e.src].place == db.nodes[e.dst].place && e.space == db.nodes[e.src].place.space)
    && (forall r :: r in db.log ==>
          && r.node in db.nodes && r.space == db.nodes[r.node].place.space
          && (r.candidate.Some? ==>
                r.candidate.value in db.nodes && db.nodes[r.candidate.value].place == db.nodes[r.node].place))
  }

  /** Nothing outside scope `p` differs between `d` and `e`. */
  ghost predicate OnlyAt(p: Place, d: Db, e: Db) {
    forall q :: q != p ==> ContentAt(e, q) == ContentAt(d, q)
  }

  lemma SameAt(d: Db, e: Db, q: Place)
    requires RowsAt(e.nodes, q) == RowsAt(d.nodes, q) && EdgesAt(e, q) == EdgesAt(d, q)
    requires LogAt(e, q) == LogAt(d, q) && PendingAt(e, q) == PendingAt(d, q)
    ensures ContentAt(e, q) == ContentAt(d, q)
  {
  }

  // ----------------------------------------------------------------- clearing a scope

  /** `_clear_scope`'s four statements. */
  function DropPending(db: Db, p: Place): Db {
    db.(pending := set w | w in db.pending && w.place != p)
  }

  function DropEdges(db: Db, p: Place, ids: set<NodeId>): Db {
    db.(edges := set e | e in db.edges && !(e.space == p.space && TouchesEdge(e, ids)))
  }

  function DropLog(db: Db, p: Place, ids: set<NodeId>): Db {
    db.(log := set r | r in db.log && !(r.space == p.space && TouchesLog(r, ids)))
  }

  function DropNodes(db: Db, p: Place): Db {
    db.(nodes := map id | id in db.nodes && db.nodes[id].place != p :: db.nodes[id])
  }

  /** What they leave together, run in that order. */
  function Cleared(db: Db, p: Place): Db {
    var ids := NodesAt(db.nodes, p);
    DropNodes(DropLog(DropEdges(DropPending(db, p), p, ids), p, ids), p)
  }

  lemma DropPendingAt(db: Db, p: Place)
    requires Tidy(db)
    ensures Tidy(DropPending(db, p)) && OnlyAt(p, db, DropPending(db, p))
    ensures ContentAt(DropPending(db, p), p) == ContentAt(db, p).(pending := {})
  {
    var e := DropPending(db, p);
    assert PendingAt(e, p) == {};
    forall q | q != p
      ensures ContentAt(e, q) == ContentAt(db, q)
    {
      assert PendingAt(e, q) == PendingAt(db, q);
    }
  }

  lemma DropEdgesAt(db: Db, p: Place)
    requires Tidy(db)
    ensures var e := DropEdges(db, p, NodesAt(db.nodes, p));
      Tidy(e) && OnlyAt(p, db, e) && ContentAt(e, p) == ContentAt(db, p).(edges := {})
  {
    var e := DropEdges(db, p, NodesAt(db.nodes, p));
    assert EdgesAt(e, p) == {};
    forall q | q != p
      ensures ContentAt(e, q) == ContentAt(db, q)
    {
      assert EdgesAt(e, q) == EdgesAt(db, q);
    }
  }

  lemma DropLogAt(db: Db, p: Place)
    requires Tidy(db)
    ensures var e := DropLog(db, p, NodesAt(db.nodes, p));
      Tidy(e) && OnlyAt(p, db, e) && ContentAt(e, p) == ContentAt(db, p).(log := {})
  {
    var e := DropLog(db, p, NodesAt(db.nodes, p));
    assert LogAt(e, p) == {};
    forall q | q != p
      ensures ContentAt(e, q) == ContentAt(db, q)
    {
      assert LogAt(e, q) == LogAt(db, q);
    }
  }

  /** The nodes go last: by then nothing hangs off them. */
  lemma DropNodesAt(db: Db, p: Place)
    requires Tidy(db) && EdgesAt(db, p) == {} && LogAt(db, p) == {}
    ensures Tidy(DropNodes(db, p)) && OnlyAt(p, db, DropNodes(db, p))
    ensures ContentAt(DropNodes(db, p), p) == Content(map[], {}, {}, PendingAt(db, p))
  {
    var e := DropNodes(db, p);
    forall x | x in db.edges
      ensures x.src !in NodesAt(db.nodes, p) && x.dst !in NodesAt(db.nodes, p)
    {
      assert x !in EdgesAt(db, p);
    }
    forall r | r in db.log
      ensures !TouchesLog(r, NodesAt(db.nodes, p))
    {
      assert r !in LogAt(db, p);
    }
    assert RowsAt(e.nodes, p) == map[] && NodesAt(e.nodes, p) == {};
    forall q | q != p
      ensures ContentAt(e, q) == ContentAt(db, q)
    {
      assert NodesAt(e.nodes, q) == NodesAt(db.nodes, q);
      assert RowsAt(e.nodes, q) == RowsAt(db.nodes, q);
      SameAt(db, e, q);
    }
  }

  /** Clearing a scope empties it in all four tables and leaves every other scope as it
      was. */
  lemma ClearedExactly(db: Db, p: Place)
    requires Tidy(db)
    ensures Tidy(Cleared(db, p)) && OnlyAt(p, db, Cleared(db, p))
    ensures ContentAt(Cleared(db, p), p) == NOTHING
  {
    var a := DropPending(db, p);
    DropPendingAt(db, p);
    var b := DropEdges(a, p, NodesAt(a.nodes, p));
    DropEdgesAt(a, p);
    var c := DropLog(b, p, NodesAt(b.nodes, p));
    DropLogAt(b, p);
    DropNodesAt(c, p);
  }

  /** Row by row: what goes are the nodes and pending writes of the scope, and the edges and
      log rows of its space that name one of those nodes at either place. */
  lemma WhatGoes(db: Db, p: Place)
    ensures var c, gone := Cleared(db, p), set id | id in db.nodes && db.nodes[id].place == p;
      && (forall id :: id in c.nodes <==> id in db.nodes && id !in gone)
      && (forall id :: id in c.nodes ==> c.nodes[id] == db.nodes[id])
      && (forall w :: w in c.pending <==> w in db.pending && w.place != p)
      && (forall e :: e in c.edges <==>
            e in db.edges && (e.space != p.space || (e.src !in gone && e.dst !in gone)))
      && (forall r :: r in c.log <==>
            && r in db.log
            && (r.space != p.space || (r.node !in gone && forall id :: id in gone ==> r.candidate != Some(id))))
      && c.markers == db.markers
  {
  }

  /** A scope without nodes holds at most pending writes, so the first statement is
      enough. */
  lemma NothingElseToClear(db: Db, p: Place)
    requires Tidy(db) && NodesAt(db.nodes, p) == {}
    ensures Tidy(DropPending(db, p)) && OnlyAt(p, db, DropPending(db, p))
    ensures ContentAt(DropPending(db, p), p) == NOTHING
  {
    DropPendingAt(db, p);
    assert forall id :: id in db.nodes ==> id !in NodesAt(db.nodes, p);
    assert RowsAt(db.nodes, p) == map[];
  }

  // ------------------------------------------------------------------ engine writes

  /** One engine write: perhaps a new node, new text for nodes, and rows beside them. */
  datatype Write = Write(made: Option<NodeId>, rows: map<NodeId, nat>, edges: set<Edge>, log: set<LogRow>,
                         resolved: set<Pending>, parked: set<Pending>)

  function MadeIds(w: Write): set<NodeId> {
    if w.made.Some? then {w.made.value} else {}
  }

  /** A write into scope `p`, holding `c`, stays inside it, and a new node has an id that
      was never used below `next`. */
  predicate Legal(c: Content, w: Write, p: Place, next: NodeId) {
    && MadeIds(w) <= w.rows.Keys && w.rows.Keys <= c.nodes.Keys + MadeIds(w)
    && (w.made.Some? ==> next <= w.made.value && w.made.value !in c.nodes)
    && (forall e :: e in w.edges ==>
          e.space == p.space && e.src in c.nodes.Keys + MadeIds(w) && e.dst in c.nodes.Keys + MadeIds(w))
    && (forall r :: r in w.log ==>
          && r.space == p.space && r.node in c.nodes.Keys + MadeIds(w)
          && (r.candidate.Some? ==> r.candidate.value in c.nodes.Keys + MadeIds(w)))
    && forall x :: x in w.resolved + w.parked ==> x.place == p
  }

  /** The scope's content after a write. */
  function Apply(c: Content, w: Write): Content {
    Content(c.nodes + w.rows, c.edges + w.edges, c.log + w.log, (c.pending - w.resolved) + w.parked)
  }

  /** The tables after it. */
  function Written(db: Db, w: Write, p: Place): Db {
    db.(nodes := db.nodes + (map id | id in w.rows :: Row(p, w.rows[id])),
        edges := db.edges + w.edges, log := db.log + w.log, pending := (db.pending - w.resolved) + w.parked)
  }

  lemma RowKeys(db: Db, p: Place)
    ensures RowsAt(db.nodes, p).Keys == NodesAt(db.nodes, p)
  {
  }

  ghost predicate WritesAt(db: Db, w: Write, p: Place, next: NodeId) {
    && Tidy(db) && Legal(ContentAt(db, p), w, p, next)
    && forall id :: id in db.nodes ==> id < next
  }

  /** A write touches rows of its own scope, and one fresh id. */
  lemma TouchedRows(db: Db, w: Write, p: Place, next: NodeId)
    requires WritesAt(db, w, p, next)
    ensures w.made.Some? ==> w.made.value !in db.nodes
    ensures forall id :: id in w.rows ==> id in MadeIds(w) || id in NodesAt(db.nodes, p)
    ensures forall id :: id in w.rows && id in db.nodes ==> db.nodes[id].place == p
    ensures forall id :: id in MadeIds(w) ==> id in w.rows
  {
    RowKeys(db, p);
  }

  lemma NodeAfter(db: Db, w: Write, p: Place, id: NodeId)
    ensures var e := Written(db, w, p);
      && (id in e.nodes <==> id in db.nodes || id in w.rows)
      && (id in e.nodes ==> e.nodes[id] == if id in w.rows then Row(p, w.rows[id]) else db.nodes[id])
  {
  }

  lemma WrittenIds(db: Db, w: Write, p: Place, next: NodeId)
    requires WritesAt(db, w, p, next)
    ensures NodesAt(Written(db, w, p).nodes, p) == NodesAt(db.nodes, p) + MadeIds(w)
  {
    var e := Written(db, w, p);
    TouchedRows(db, w, p, next);
    forall id
      ensures id in NodesAt(e.nodes, p) <==> id in NodesAt(db.nodes, p) || id in MadeIds(w)
    {
      NodeAfter(db, w, p, id);
    }
  }

  /** Rows written belong to `p`, over whatever was there. */
  lemma RowsAfter(db: Db, w: Write, p: Place)
    ensures RowsAt(Written(db, w, p).nodes, p) == RowsAt(db.nodes, p) + w.rows
  {
    var e := Written(db, w, p);
    forall id
      ensures id in RowsAt(e.nodes, p) <==> id in RowsAt(db.nodes, p) || id in w.rows
      ensures id in RowsAt(e.nodes, p) ==> RowsAt(e.nodes, p)[id] == (RowsAt(db.nodes, p) + w.rows)[id]
    {
      NodeAfter(db, w, p, id);
    }
  }

  /** Which nodes each scope has after a write. */
  lemma WrittenNodes(db: Db, w: Write, p: Place, next: NodeId)
    requires WritesAt(db, w, p, next)
    ensures RowsAt(Written(db, w, p).nodes, p) == RowsAt(db.nodes, p) + w.rows
    ensures NodesAt(Written(db, w, p).nodes, p) == NodesAt(db.nodes, p) + MadeIds(w)
  {
    WrittenIds(db, w, p, next);
    RowsAfter(db, w, p);
  }

  lemma WrittenNodesBeside(db: Db, w: Write, p: Place, next: NodeId, q: Place)
    requires WritesAt(db, w, p, next) && q != p
    ensures RowsAt(Written(db, w, p).nodes, q) == RowsAt(db.nodes, q)
    ensures NodesAt(Written(db, w, p).nodes, q) == NodesAt(db.nodes, q)
  {
    var e := Written(db, w, p);
    TouchedRows(db, w, p, next);
    forall id
      ensures id in NodesAt(e.nodes, q) <==> id in NodesAt(db.nodes, q)
      ensures id in NodesAt(db.nodes, q) ==> e.nodes[id] == db.nodes[id]
    {
      NodeAfter(db, w, p, id);
    }
  }

  lemma WrittenTidy(db: Db, w: Write, p: Place, next: NodeId)
    requires WritesAt(db, w, p, next)
    ensures Tidy(Written(db, w, p))
  {
    var e := Written(db, w, p);
    TouchedRows(db, w, p, next);
    RowKeys(db, p);
    forall id | id in db.nodes
      ensures id in e.nodes && e.nodes[id].place == db.nodes[id].place
    {
      NodeAfter(db, w, p, id);
    }
    forall id | id in NodesAt(db.nodes, p) || id in MadeIds(w)
      ensures id in e.nodes && e.nodes[id].place == p
    {
      NodeAfter(db, w, p, id);
    }
  }

  lemma WrittenBeside(db: Db, w: Write, p: Place, next: NodeId, q: Place)
    requires WritesAt(db, w, p, next) && q != p
    ensures ContentAt(Written(db, w, p), q) == ContentAt(db, q)
  {
    var e := Written(db, w, p);
    WrittenNodesBeside(db, w, p, next, q);
    RowKeys(db, p);
    assert NodesAt(db.nodes, q) !! NodesAt(db.nodes, p) + MadeIds(w);
    assert EdgesAt(e, q) == EdgesAt(db, q);
    assert LogAt(e, q) == LogAt(db, q);
    assert PendingAt(e, q) == PendingAt(db, q);
    SameAt(db, e, q);
  }

  lemma WrittenEdges(db: Db, w: Write, p: Place, next: NodeId)
    requires WritesAt(db, w, p, next)
    ensures EdgesAt(Written(db, w, p), p) == EdgesAt(db, p) + w.edges
  {
    TouchedRows(db, w, p, next);
    WrittenNodes(db, w, p, next);
    RowKeys(db, p);
    EdgesTouched(db, w, NodesAt(db.nodes, p), MadeIds(w));
  }

  /** Old edges touch no new node, and new edges touch only the scope's own. */
  lemma EdgesTouched(db: Db, w: Write, ids: set<NodeId>, made: set<NodeId>)
    requires forall e :: e in db.edges ==> e.src !in made && e.dst !in made
    requires forall e :: e in w.edges ==> e.src in ids + made && e.dst in ids + made
    ensures (set e | e in db.edges + w.edges && TouchesEdge(e, ids + made)) ==
      (set e | e in db.edges && TouchesEdge(e, ids)) + w.edges
  {
  }

  lemma WrittenLog(db: Db, w: Write, p: Place, next: NodeId)
    requires WritesAt(db, w, p, next)
    ensures LogAt(Written(db, w, p), p) == LogAt(db, p) + w.log
  {
    TouchedRows(db, w, p, next);
    WrittenNodes(db, w, p, next);
    RowKeys(db, p);
    LogTouched(db, w, NodesAt(db.nodes, p), MadeIds(w));
  }

  lemma LogTouched(db: Db, w: Write, ids: set<NodeId>, made: set<NodeId>)
    requires forall r :: r in db.log ==> !TouchesLog(r, made)
    requires forall r :: r in w.log ==> r.node in ids + made
    ensures (set r | r in db.log + w.log && TouchesLog(r, ids + made)) ==
      (set r | r in db.log && TouchesLog(r, ids)) + w.log
  {
  }

  lemma WrittenHere(db: Db, w: Write, p: Place, next: NodeId)
    requires WritesAt(db, w, p, next)
    ensures ContentAt(Written(db, w, p), p) == Apply(ContentAt(db, p), w)
  {
    WrittenNodes(db, w, p, next);
    WrittenEdges(db, w, p, next);
    WrittenLog(db, w, p, next);
    assert PendingAt(Written(db, w, p), p) == (PendingAt(db, p) - w.resolved) + w.parked;
  }

  lemma WrittenOnlyHere(db: Db, w: Write, p: Place, next: NodeId)
    requires WritesAt(db, w, p, next)
    ensures OnlyAt(p, db, Written(db, w, p))
  {
    forall q | q != p
      ensures ContentAt(Written(db, w, p), q) == ContentAt(db, q)
    {
      WrittenBeside(db, w, p, next, q);
    }
  }

  // ------------------------------------------------------------------- one ingest

  /** What a sequence of writes builds from an empty scope. */
  function Built(ws: seq<Write>): Content {
    if ws == [] then NOTHING else Apply(Built(ws[..|ws| - 1]), ws[|ws| - 1])
  }

  function Created(ws: seq<Write>): nat {
    if ws == [] then 0 else Created(ws[..|ws| - 1]) + if ws[|ws| - 1].made.Some? then 1 else 0
  }

  /** The writes of one ingest of scope `p`, started on an empty scope when ids below
      `start` had been used. */
  datatype Ingest = Ingest(start: NodeId, writes: seq<Write>)

  ghost predicate OneIngest(i: Ingest, p: Place) {
    forall k :: 0 <= k < |i.writes| ==> Legal(Built(i.writes[..k]), i.writes[k], p, i.start)
  }

  lemma OneMoreWrite(i: Ingest, w: Write, p: Place, next: NodeId)
    requires OneIngest(i, p) && Legal(Built(i.writes), w, p, next) && i.start <= next
    ensures OneIngest(i.(writes := i.writes + [w]), p)
    ensures Built(i.writes + [w]) == Apply(Built(i.writes), w)
    ensures Created(i.writes + [w]) == Created(i.writes) + if w.made.Some? then 1 else 0
  {
    var more := i.writes + [w];
    assert more[..|i.writes|] == i.writes;
    forall k | 0 <= k < |more|
      ensures Legal(Built(more[..k]), more[k], p, i.start)
    {
      if k < |i.writes| {
        assert more[..k] == i.writes[..k] && more[k] == i.writes[k];
      }
    }
  }

  lemma Shorter(i: Ingest, p: Place)
    requires OneIngest(i, p) && i.writes != []
    ensures OneIngest(i.(writes := i.writes[..|i.writes| - 1]), p)
  {
    var less := i.writes[..|i.writes| - 1];
    forall k | 0 <= k < |less|
      ensures Legal(Built(less[..k]), less[k], p, i.start)
    {
      assert less[..k] == i.writes[..k] && less[k] == i.writes[k];
    }
  }

  ghost predicate WithinScope(c: Content, p: Place, start: NodeId) {
    && (forall id :: id in c.nodes ==> start <= id)
    && (forall e :: e in c.edges ==> e.src in c.nodes && e.dst in c.nodes)
    && (forall r :: r in c.log ==> r.node in c.nodes)
    && (forall x :: x in c.pending ==> x.place == p)
  }

  lemma ApplyWithin(c: Content, w: Write, p: Place, start: NodeId)
    requires WithinScope(c, p, start) && Legal(c, w, p, start)
    ensures WithinScope(Apply(c, w), p, start)
    ensures |Apply(c, w).nodes| == |c.nodes| + if w.made.Some? then 1 else 0
  {
    assert (c.nodes + w.rows).Keys == c.nodes.Keys + MadeIds(w);
  }

  /** One ingest holds as many nodes as it created, none of them older than its start,
      and nothing but rows of its own scope beside them. */
  lemma {:induction false} OneIngestHolds(i: Ingest, p: Place)
    requires OneIngest(i, p)
    ensures |Built(i.writes).nodes| == Created(i.writes)
    ensures WithinScope(Built(i.writes), p, i.start)
    decreases |i.writes|
  {
    if i.writes != [] {
      var less, w := i.(writes := i.writes[..|i.writes| - 1]), i.writes[|i.writes| - 1];
      Shorter(i, p);
      OneIngestHolds(less, p);
      assert Legal(Built(less.writes), w, p, i.start);
      ApplyWithin(Built(less.writes), w, p, i.start);
    }
  }

}
