/** The ingest phase and its recovery: a scope with rows but no completion marker is
    half an ingest from a run that died, and is cleared before it is ingested again. */
module IngestPhase {
  import opened Options
  import opened Space
  import opened Scopes

  // ------------------------------------------------------------ the phase, step by step

  /** What the one process of the phase is in the middle of. A clear has read the scope's
      node ids and run its first `done` statements. */
  datatype Process =
    | Idle
    | Clearing(triple: Triple, ids: set<NodeId>, done: nat)
    | Writing(triple: Triple, ingest: Ingest)

  /** The tables, the next unused id, the process, and for each marker the ingest that
      completed it. The last is history: nothing reads it. */
  datatype State = State(db: Db, next: NodeId, process: Process, completed: map<Triple, Ingest>)

  const EMPTY := Db(map[], {}, {}, {}, [])

  const START := State(EMPTY, 0, Idle, map[])

  /** One statement or append, or a death between two of them. */
  datatype Step = Take(triple: Triple) | Clear | Engine(write: Write) | Mark | Die

  ghost predicate Marked(db: Db, t: Triple) {
    exists m :: m in db.markers && m.triple == t
  }

  ghost predicate Enabled(run: string, all: set<Triple>, s: State, a: Step) {
    match a
    case Take(t) => s.process.Idle? && t in all && !Marked(s.db, t)
    case Clear => s.process.Clearing?
    case Engine(w) =>
      && s.process.Writing?
      && Legal(ContentAt(s.db, PlaceOf(run, s.process.triple)), w, PlaceOf(run, s.process.triple), s.next)
    case Mark => s.process.Writing?
    case Die => true
  }

  /** A clear stops after its first statement where it found no nodes. */
  function ClearStep(run: string, s: State): State
    requires s.process.Clearing?
  {
    var Clearing(t, ids, done) := s.process;
    var p := PlaceOf(run, t);
    if done == 0 then
      s.(db := DropPending(s.db, p),
         process := if ids == {} then Writing(t, Ingest(s.next, [])) else Clearing(t, ids, 1))
    else if done == 1 then s.(db := DropEdges(s.db, p, ids), process := Clearing(t, ids, 2))
    else if done == 2 then s.(db := DropLog(s.db, p, ids), process := Clearing(t, ids, 3))
    else s.(db := DropNodes(s.db, p), process := Writing(t, Ingest(s.next, [])))
  }

  function EngineStep(run: string, s: State, w: Write): State
    requires s.process.Writing?
  {
    var i := s.process.ingest;
    s.(db := Written(s.db, w, PlaceOf(run, s.process.triple)),
       next := if w.made.Some? && w.made.value >= s.next then w.made.value + 1 else s.next,
       process := s.process.(ingest := i.(writes := i.writes + [w])))
  }

  function MarkStep(s: State): State
    requires s.process.Writing?
  {
    var Writing(t, i) := s.process;
    s.(db := s.db.(markers := s.db.markers + [Marker(t, Created(i.writes))]), process := Idle,
       completed := s.completed[t := i])
  }

  function Next(run: string, s: State, a: Step): State {
    match a
    case Take(t) => s.(process := Clearing(t, NodesAt(s.db.nodes, PlaceOf(run, t)), 0))
    case Clear => if s.process.Clearing? then ClearStep(run, s) else s
    case Engine(w) => if s.process.Writing? then EngineStep(run, s, w) else s
    case Mark => if s.process.Writing? then MarkStep(s) else s
    case Die => s.(process := Idle)
  }

  /** Where a schedule of steps leads from an empty store. */
  function After(run: string, steps: seq<Step>): State {
    if steps == [] then START else Next(run, After(run, steps[..|steps| - 1]), steps[|steps| - 1])
  }

  /** A schedule that can happen: statements in program order, deaths and restarts anywhere. */
  ghost predicate Possible(run: string, all: set<Triple>, steps: seq<Step>) {
    steps == [] ||
    (&& Possible(run, all, steps[..|steps| - 1])
     && Enabled(run, all, After(run, steps[..|steps| - 1]), steps[|steps| - 1]))
  }

  lemma OneMoreStep(run: string, all: set<Triple>, steps: seq<Step>, a: Step)
    ensures After(run, steps + [a]) == Next(run, After(run, steps), a)
    ensures Possible(run, all, steps + [a]) <==> Possible(run, all, steps) && Enabled(run, all, After(run, steps), a)
  {
    assert (steps + [a])[..|steps|] == steps;
  }

  // -------------------------------------------------------------------- what is kept

  /** Distinct triples have distinct places; what `Space.ArmIsolation` establishes. */
  ghost predicate Isolated(run: string, all: set<Triple>) {
    forall a, b :: a in all && b in all && a != b ==> PlaceOf(run, a) != PlaceOf(run, b)
  }

  /** The scope of `t` holds, in all four tables, exactly what the one ingest recorded
      for it built from an empty scope, and the marker counts its nodes. */
  ghost predicate Holds(run: string, s: State, m: Marker) {
    && m.triple in s.completed
    && OneIngest(s.completed[m.triple], PlaceOf(run, m.triple))
    && ContentAt(s.db, PlaceOf(run, m.triple)) == Built(s.completed[m.triple].writes)
    && m.nodesWritten == Created(s.completed[m.triple].writes)
  }

  ghost predicate AllHold(run: string, s: State) {
    forall m :: m in s.db.markers ==> Holds(run, s, m)
  }

  ghost predicate MarkersOnce(all: set<Triple>, markers: seq<Marker>) {
    && (forall i, j :: 0 <= i < j < |markers| ==> markers[i].triple != markers[j].triple)
    && forall m :: m in markers ==> m.triple in all
  }

  /** A clear has emptied the tables whose statements it has run, and an ingest has put
      in its scope what its writes so far build, and nothing else. */
  ghost predicate Working(run: string, all: set<Triple>, s: State) {
    match s.process
    case Idle => true
    case Clearing(t, ids, done) =>
      var p := PlaceOf(run, t);
      && t in all && !Marked(s.db, t) && ids == NodesAt(s.db.nodes, p) && done <= 3
      && (done >= 1 ==> PendingAt(s.db, p) == {})
      && (done >= 2 ==> EdgesAt(s.db, p) == {})
      && (done >= 3 ==> LogAt(s.db, p) == {})
    case Writing(t, i) =>
      && t in all && !Marked(s.db, t) && OneIngest(i, PlaceOf(run, t)) && i.start <= s.next
      && ContentAt(s.db, PlaceOf(run, t)) == Built(i.writes)
  }

  ghost predicate Sound(run: string, all: set<Triple>, s: State) {
    && Tidy(s.db) && (forall id :: id in s.db.nodes ==> id < s.next)
    && MarkersOnce(all, s.db.markers) && AllHold(run, s)
    && Working(run, all, s)
  }

  /** From `s` to `t` no marker goes, none changes what it stands for, and no marked
      scope changes. */
  ghost predicate Keeps(run: string, s: State, t: State) {
    && s.db.markers <= t.db.markers
    && forall m :: m in s.db.markers ==>
      && m.triple in s.completed && m.triple in t.completed && t.completed[m.triple] == s.completed[m.triple]
      && ContentAt(t.db, PlaceOf(run, m.triple)) == ContentAt(s.db, PlaceOf(run, m.triple))
  }

  /** Work confined to an unmarked triple's scope touches no marked one. */
  lemma UnmarkedOnly(run: string, all: set<Triple>, s: State, t: State, triple: Triple)
    requires Sound(run, all, s) && Isolated(run, all) && triple in all && !Marked(s.db, triple)
    requires OnlyAt(PlaceOf(run, triple), s.db, t.db)
    requires t.db.markers == s.db.markers && t.completed == s.completed
    ensures AllHold(run, t) && Keeps(run, s, t)
  {
    forall m | m in s.db.markers
      ensures ContentAt(t.db, PlaceOf(run, m.triple)) == ContentAt(s.db, PlaceOf(run, m.triple))
      ensures Holds(run, t, m)
    {
      assert m.triple != triple;
      assert Holds(run, s, m);
    }
  }

  lemma ClearKeeps(run: string, all: set<Triple>, s: State)
    requires Sound(run, all, s) && Isolated(run, all) && s.process.Clearing?
    ensures Sound(run, all, ClearStep(run, s)) && Keeps(run, s, ClearStep(run, s))
  {
    var t, p := ClearStep(run, s), PlaceOf(run, s.process.triple);
    if s.process.done == 0 {
      DropPendingAt(s.db, p);
      if s.process.ids == {} {
        NothingElseToClear(s.db, p);
      }
    } else if s.process.done == 1 {
      DropEdgesAt(s.db, p);
    } else if s.process.done == 2 {
      DropLogAt(s.db, p);
    } else {
      DropNodesAt(s.db, p);
    }
    UnmarkedOnly(run, all, s, t, s.process.triple);
    assert t.db.markers == s.db.markers;
  }

  /** Every id in use stays below the next one. */
  lemma EngineIds(run: string, all: set<Triple>, s: State, w: Write)
    requires Sound(run, all, s) && Enabled(run, all, s, Engine(w))
    ensures forall id :: id in EngineStep(run, s, w).db.nodes ==> id < EngineStep(run, s, w).next
  {
    var t, p := EngineStep(run, s, w), PlaceOf(run, s.process.triple);
    TouchedRows(s.db, w, p, s.next);
    RowKeys(s.db, p);
    forall id | id in t.db.nodes
      ensures id < t.next
    {
      NodeAfter(s.db, w, p, id);
      assert id in s.db.nodes || id in MadeIds(w);
    }
  }

  lemma EngineWrites(run: string, all: set<Triple>, s: State, w: Write)
    requires Sound(run, all, s) && Enabled(run, all, s, Engine(w))
    ensures var t, p := EngineStep(run, s, w), PlaceOf(run, s.process.triple);
      && Tidy(t.db) && OnlyAt(p, s.db, t.db) && ContentAt(t.db, p) == Apply(ContentAt(s.db, p), w)
      && forall id :: id in t.db.nodes ==> id < t.next
  {
    var p := PlaceOf(run, s.process.triple);
    WrittenTidy(s.db, w, p, s.next);
    WrittenHere(s.db, w, p, s.next);
    WrittenOnlyHere(s.db, w, p, s.next);
    EngineIds(run, all, s, w);
  }

  lemma EngineKeeps(run: string, all: set<Triple>, s: State, w: Write)
    requires Sound(run, all, s) && Isolated(run, all) && Enabled(run, all, s, Engine(w))
    ensures Sound(run, all, EngineStep(run, s, w)) && Keeps(run, s, EngineStep(run, s, w))
  {
    var t, p := EngineStep(run, s, w), PlaceOf(run, s.process.triple);
    EngineWrites(run, all, s, w);
    OneMoreWrite(s.process.ingest, w, p, s.next);
    UnmarkedOnly(run, all, s, t, s.process.triple);
  }

  lemma OtherMarkers(s: State)
    requires s.process.Writing? && !Marked(s.db, s.process.triple)
    ensures forall m :: m in s.db.markers ==> m.triple != s.process.triple
    ensures forall k :: 0 <= k < |s.db.markers| ==> s.db.markers[k].triple != s.process.triple
  {
    forall k | 0 <= k < |s.db.markers|
      ensures s.db.markers[k].triple != s.process.triple
    {
      assert s.db.markers[k] in s.db.markers;
    }
  }

  /** A marker says nothing of the tables. */
  lemma MarkLeaves(s: State, q: Place)
    requires s.process.Writing?
    ensures ContentAt(MarkStep(s).db, q) == ContentAt(s.db, q)
  {
    SameAt(s.db, MarkStep(s).db, q);
  }

  lemma MarkHolds(run: string, all: set<Triple>, s: State)
    requires Sound(run, all, s) && s.process.Writing?
    ensures AllHold(run, MarkStep(s)) && Keeps(run, s, MarkStep(s))
  {
    var t := MarkStep(s);
    OtherMarkers(s);
    forall m | m in t.db.markers
      ensures Holds(run, t, m)
      ensures m in s.db.markers ==> ContentAt(t.db, PlaceOf(run, m.triple)) == ContentAt(s.db, PlaceOf(run, m.triple))
    {
      MarkLeaves(s, PlaceOf(run, m.triple));
      if m in s.db.markers {
        assert Holds(run, s, m);
      }
    }
  }

  lemma MarkedOnce(all: set<Triple>, markers: seq<Marker>, m: Marker)
    requires MarkersOnce(all, markers) && m.triple in all
    requires forall k :: 0 <= k < |markers| ==> markers[k].triple != m.triple
    ensures MarkersOnce(all, markers + [m])
  {
  }

  lemma MarkKeeps(run: string, all: set<Triple>, s: State)
    requires Sound(run, all, s) && s.process.Writing?
    ensures Sound(run, all, MarkStep(s)) && Keeps(run, s, MarkStep(s))
  {
    OtherMarkers(s);
    MarkHolds(run, all, s);
    MarkedOnce(all, s.db.markers, Marker(s.process.triple, Created(s.process.ingest.writes)));
  }

  /** Every step of the phase, a death among them, keeps the store sound. */
  lemma StepKeeps(run: string, all: set<Triple>, s: State, a: Step)
    requires Sound(run, all, s) && Isolated(run, all) && Enabled(run, all, s, a)
    ensures Sound(run, all, Next(run, s, a)) && Keeps(run, s, Next(run, s, a))
  {
    match a
    case Clear => ClearKeeps(run, all, s);
    case Engine(w) => EngineKeeps(run, all, s, w);
    case Mark => MarkKeeps(run, all, s);
    case _ =>
      assert Next(run, s, a).db == s.db;
      assert forall m :: m in s.db.markers ==> Holds(run, s, m) && Holds(run, Next(run, s, a), m);
  }

  // -------------------------------------------------------------- over whole runs

  /** Every schedule of statements, deaths and restarts leaves the store sound. */
  lemma {:induction false} WholeIngest(run: string, all: set<Triple>, steps: seq<Step>)
    requires Isolated(run, all) && Possible(run, all, steps)
    ensures Sound(run, all, After(run, steps))
  {
    if steps != [] {
      var last := |steps| - 1;
      WholeIngest(run, all, steps[..last]);
      StepKeeps(run, all, After(run, steps[..last]), steps[last]);
    }
  }

  /** So a completion marker stands for one ingest, built from an empty scope by engine
      writes alone, and its scope holds exactly that in all four tables: as many nodes as
      the marker counts, all of them made since the clear, and only rows of its own. */
  lemma MarkedScope(run: string, all: set<Triple>, steps: seq<Step>, m: Marker)
    requires Isolated(run, all) && Possible(run, all, steps) && m in After(run, steps).db.markers
    ensures var s, p := After(run, steps), PlaceOf(run, m.triple);
      && m.triple in s.completed && OneIngest(s.completed[m.triple], p)
      && ContentAt(s.db, p) == Built(s.completed[m.triple].writes)
      && |RowsAt(s.db.nodes, p)| == m.nodesWritten
      && WithinScope(ContentAt(s.db, p), p, s.completed[m.triple].start)
  {
    WholeIngest(run, all, steps);
    var s := After(run, steps);
    assert Holds(run, s, m);
    OneIngestHolds(s.completed[m.triple], PlaceOf(run, m.triple));
  }

  /** And it never changes again, whatever happens later. */
  lemma {:induction false} MarkedForGood(run: string, all: set<Triple>, steps: seq<Step>, k: nat)
    requires Isolated(run, all) && Possible(run, all, steps) && k <= |steps|
    ensures Possible(run, all, steps[..k]) && Keeps(run, After(run, steps[..k]), After(run, steps))
    decreases |steps|
  {
    var s := After(run, steps[..k]);
    if k == |steps| {
      assert steps[..k] == steps;
      WholeIngest(run, all, steps);
      assert forall m :: m in s.db.markers ==> Holds(run, s, m);
    } else {
      var init := steps[..|steps| - 1];
      assert init[..k] == steps[..k];
      MarkedForGood(run, all, init, k);
      WholeIngest(run, all, init);
      StepKeeps(run, all, After(run, init), steps[|steps| - 1]);
      KeepsOn(run, s, After(run, init), After(run, steps));
    }
  }

  lemma KeepsOn(run: string, a: State, b: State, c: State)
    requires Keeps(run, a, b) && Keeps(run, b, c)
    ensures Keeps(run, a, c)
  {
    assert forall m :: m in a.db.markers ==> m in b.db.markers;
  }

  /** Provisioning is what makes the recovery safe: packs provisioned without a
      collision, in spaces that differ, give the isolation the phase relies on. */
  lemma IsolatedByProvisioning(run: string, all: set<Triple>, keys: map<string, seq<string>>)
    requires forall t :: t in all ==> ':' !in t.extractor && t.pack in keys
    requires forall pack :: pack in keys ==> Separates(keys[pack]) && Provisions(keys[pack], all, pack)
    requires forall p, q :: p in keys && q in keys && p != q ==> SpaceIdFor(run + "-" + p) != SpaceIdFor(run + "-" + q)
    ensures Isolated(run, all)
  {
    forall a, b | a in all && b in all && a != b
      ensures PlaceOf(run, a) != PlaceOf(run, b)
    {
      ArmIsolation(run, all, keys, a, b);
    }
  }

  /** One node, then a marker; then another triple of the same place is taken and cleared. */
  const ONE_NODE := Write(Some(0), map[0 := 0], {}, {}, {}, {})

  /** `a` is taken, and its empty scope cleared. */
  lemma OneTaken(run: string, all: set<Triple>, a: Triple) returns (steps: seq<Step>)
    requires a in all
    ensures Possible(run, all, steps) && After(run, steps) == State(EMPTY, 0, Writing(a, Ingest(0, [])), map[])
  {
    var p, none: seq<Step> := PlaceOf(run, a), [];
    EmptyPlace(p);
    OneMoreStep(run, all, none, Take(a));
    steps := none + [Take(a)];
    assert After(run, steps) == State(EMPTY, 0, Clearing(a, {}, 0), map[]);
    OneMoreStep(run, all, steps, Clear);
    steps := steps + [Clear];
  }

  lemma EmptyPlace(p: Place)
    ensures NodesAt(EMPTY.nodes, p) == {} && DropPending(EMPTY, p) == EMPTY
  {
  }

  function OneMarked(run: string, a: Triple): State {
    State(Db(map[0 := Row(PlaceOf(run, a), 0)], {}, {}, {}, [Marker(a, 1)]), 1, Idle, map[a := Ingest(0, [ONE_NODE])])
  }

  lemma OneNodeWritten(p: Place)
    ensures Written(EMPTY, ONE_NODE, p) == Db(map[0 := Row(p, 0)], {}, {}, {}, [])
    ensures Legal(ContentAt(EMPTY, p), ONE_NODE, p, 0)
    ensures Created([ONE_NODE]) == 1
  {
    assert [ONE_NODE][..0] == [];
  }

  /** The first half of that schedule: `a` is ingested and marked. */
  lemma OneIngested(run: string, all: set<Triple>, a: Triple) returns (steps: seq<Step>)
    requires a in all
    ensures Possible(run, all, steps) && After(run, steps) == OneMarked(run, a)
  {
    var taken := OneTaken(run, all, a);
    OneNodeWritten(PlaceOf(run, a));
    OneMoreStep(run, all, taken, Engine(ONE_NODE));
    assert [] + [ONE_NODE] == [ONE_NODE];
    OneMoreStep(run, all, taken + [Engine(ONE_NODE)], Mark);
    steps := taken + [Engine(ONE_NODE)] + [Mark];
  }

  /** Taking `b`, whose place is the same, finds the row. */
  lemma OtherTaken(run: string, all: set<Triple>, steps: seq<Step>, a: Triple, b: Triple) returns (more: seq<Step>)
    requires Possible(run, all, steps) && After(run, steps) == OneMarked(run, a)
    requires a != b && b in all && PlaceOf(run, a) == PlaceOf(run, b)
    ensures Possible(run, all, more) && more == steps + [Take(b)]
    ensures After(run, more) == OneMarked(run, a).(process := Clearing(b, {0}, 0))
  {
    var s := OneMarked(run, a);
    assert !Marked(s.db, b) && NodesAt(s.db.nodes, PlaceOf(run, b)) == {0};
    OneMoreStep(run, all, steps, Take(b));
    more := steps + [Take(b)];
  }

  /** Where a clear of the row stands after `k` of its statements. */
  ghost predicate ClearedTo(run: string, a: Triple, b: Triple, s: State, k: nat) {
    && s.db.markers == [Marker(a, 1)] && s.completed == map[a := Ingest(0, [ONE_NODE])]
    && if k < 4 then s.process == Clearing(b, {0}, k) else RowsAt(s.db.nodes, PlaceOf(run, b)) == map[]
  }

  lemma ClearsOn(run: string, a: Triple, b: Triple, s: State, k: nat)
    requires ClearedTo(run, a, b, s, k) && k < 4
    ensures ClearedTo(run, a, b, ClearStep(run, s), k + 1)
  {
  }

  /** The second half: `b` is cleared, and the clear takes the row of `a`. */
  lemma OneLost(run: string, all: set<Triple>, steps: seq<Step>, a: Triple, b: Triple) returns (more: seq<Step>)
    requires Possible(run, all, steps) && After(run, steps) == OneMarked(run, a)
    requires a != b && b in all && PlaceOf(run, a) == PlaceOf(run, b)
    ensures Possible(run, all, steps + more) && !AllHold(run, After(run, steps + more))
    ensures more != [] && forall step :: step in more ==> step == Take(b) || step == Clear
  {
    var lost := OtherTaken(run, all, steps, a, b);
    more := [Take(b)];
    for k := 0 to 4
      invariant lost == steps + more && more != [] && forall step :: step in more ==> step == Take(b) || step == Clear
      invariant Possible(run, all, lost) && ClearedTo(run, a, b, After(run, lost), k)
    {
      OneMoreStep(run, all, lost, Clear);
      ClearsOn(run, a, b, After(run, lost), k);
      lost, more := lost + [Clear], more + [Clear];
    }
    NothingHeld(run, a, b, After(run, lost));
  }

  lemma NothingHeld(run: string, a: Triple, b: Triple, s: State)
    requires ClearedTo(run, a, b, s, 4) && PlaceOf(run, a) == PlaceOf(run, b)
    ensures !AllHold(run, s)
  {
    assert Marker(a, 1) in s.db.markers;
    assert [ONE_NODE][..0] == [] && Built([ONE_NODE]).nodes == map[0 := 0];
    assert 0 in Built([ONE_NODE]).nodes && 0 !in ContentAt(s.db, PlaceOf(run, a)).nodes;
  }

  /** On every schedule every marker is true. */
  ghost predicate NeverLoses(run: string, all: set<Triple>) {
    forall steps :: Possible(run, all, steps) ==> AllHold(run, After(run, steps))
  }

  lemma SharedPlaceLoses(run: string, all: set<Triple>, a: Triple, b: Triple)
    requires a in all && b in all && a != b && PlaceOf(run, a) == PlaceOf(run, b)
    ensures !NeverLoses(run, all)
  {
    var steps := OneIngested(run, all, a);
    var more := OneLost(run, all, steps, a, b);
  }

  /** Isolation is exactly what the recovery needs: where two triples share a place, some
      schedule clears a completed ingest and leaves its marker behind. */
  lemma IsolationExactlyWhen(run: string, all: set<Triple>)
    ensures NeverLoses(run, all) <==> Isolated(run, all)
  {
    if Isolated(run, all) {
      forall steps | Possible(run, all, steps)
        ensures AllHold(run, After(run, steps))
      {
        WholeIngest(run, all, steps);
      }
    } else {
      var a, b :| a in all && b in all && a != b && PlaceOf(run, a) == PlaceOf(run, b);
      SharedPlaceLoses(run, all, a, b);
    }
  }

  // ---------------------------------------------------------------------- the code

  /** The store and the marker file. Its history is the schedule of the steps taken. */
  class Store {
    const run: string
    ghost const all: set<Triple>
    var nodes: map<NodeId, Row>
    var edges: set<Edge>
    var log: set<LogRow>
    var pending: set<Pending>
    var nextId: NodeId
    var markers: seq<Marker>
    ghost var process: Process
    ghost var completed: map<Triple, Ingest>
    ghost var schedule: seq<Step>

    constructor (run: string, ghost all: set<Triple>)
      ensures this.run == run && this.all == all && schedule == [] && Valid()
    {
      this.run, this.all := run, all;
      nodes, edges, log, pending, markers, nextId := map[], {}, {}, {}, [], 0;
      process, completed, schedule := Idle, map[], [];
    }

    function Tables(): Db
      reads this
    {
      Db(nodes, edges, log, pending, markers)
    }

    ghost function View(): State
      reads this
    {
      State(Tables(), nextId, process, completed)
    }

    /** The store is where its schedule leads. */
    ghost predicate Valid()
      reads this
    {
      Possible(run, all, schedule) && View() == After(run, schedule)
    }

    /** Enters a step, just taken, in the schedule. */
    ghost method Note(a: Step, before: State)
      requires Possible(run, all, schedule) && before == After(run, schedule)
      requires Enabled(run, all, before, a) && View() == Next(run, before, a)
      modifies this`schedule
      ensures Valid() && schedule == old(schedule) + [a]
    {
      OneMoreStep(run, all, schedule, a);
      schedule := schedule + [a];
    }

    ghost method Killed()
      requires Valid()
      modifies this`process, this`schedule
      ensures Valid() && process.Idle? && old(schedule) <= schedule
    {
      var before := View();
      process := Idle;
      Note(Die, before);
    }

    /** `_clear_scope`: it reads the node ids, then runs four statements, each committed on
        its own. */
    method ClearScope(t: Triple, mayDie: bool) returns (removed: nat, crashed: bool)
      requires Valid() && process.Idle? && t in all && !Marked(Tables(), t)
      modifies this
      ensures Valid() && old(schedule) <= schedule && markers == old(markers)
      ensures if crashed then mayDie && process.Idle? else process == Writing(t, Ingest(nextId, []))
      ensures !crashed ==> removed == |NodesAt(old(nodes), PlaceOf(run, t))|
    {
      removed, crashed := 0, true;
      var ids := ReadIds(t);
      var dies: bool := *;
      if mayDie && dies {
        Killed();
        return;
      }
      DeletePending(t, ids);
      if ids == {} {
        crashed := false;
        return;
      }
      crashed := ClearRest(t, ids, mayDie);
      removed := |ids|;
    }

    method ReadIds(t: Triple) returns (ids: set<NodeId>)
      requires Valid() && process.Idle? && t in all && !Marked(Tables(), t)
      modifies this`process, this`schedule
      ensures Valid() && old(schedule) <= schedule && process == Clearing(t, ids, 0)
      ensures ids == NodesAt(nodes, PlaceOf(run, t))
    {
      ghost var s := View();
      ids := NodesAt(nodes, PlaceOf(run, t));
      process := Clearing(t, ids, 0);
      Note(Take(t), s);
    }

    method DeletePending(t: Triple, ids: set<NodeId>)
      requires Valid() && process == Clearing(t, ids, 0)
      modifies this`pending, this`process, this`schedule
      ensures Valid() && old(schedule) <= schedule
      ensures process == if ids == {} then Writing(t, Ingest(nextId, [])) else Clearing(t, ids, 1)
    {
      ghost var s := View();
      var p := PlaceOf(run, t);
      pending := set w | w in pending && w.place != p;
      process := if ids == {} then Writing(t, Ingest(nextId, [])) else Clearing(t, ids, 1);
      Note(Clear, s);
    }

    method ClearRest(t: Triple, ids: set<NodeId>, mayDie: bool) returns (crashed: bool)
      requires Valid() && process == Clearing(t, ids, 1)
      modifies this
      ensures Valid() && old(schedule) <= schedule && markers == old(markers)
      ensures if crashed then mayDie && process.Idle? else process == Writing(t, Ingest(nextId, []))
    {
      crashed := true;
      var dies: bool := *;
      if mayDie && dies {
        Killed();
        return;
      }
      DeleteEdges(t, ids);
      dies := *;
      if mayDie && dies {
        Killed();
        return;
      }
      DeleteLog(t, ids);
      dies := *;
      if mayDie && dies {
        Killed();
        return;
      }
      DeleteNodes(t, ids);
      crashed := false;
    }

    method DeleteEdges(t: Triple, ids: set<NodeId>)
      requires Valid() && process == Clearing(t, ids, 1)
      modifies this`edges, this`process, this`schedule
      ensures Valid() && old(schedule) <= schedule && process == Clearing(t, ids, 2)
    {
      ghost var s := View();
      var p := PlaceOf(run, t);
      edges := set e | e in edges && !(e.space == p.space && TouchesEdge(e, ids));
      process := Clearing(t, ids, 2);
      Note(Clear, s);
    }

    method DeleteLog(t: Triple, ids: set<NodeId>)
      requires Valid() && process == Clearing(t, ids, 2)
      modifies this`log, this`process, this`schedule
      ensures Valid() && old(schedule) <= schedule && process == Clearing(t, ids, 3)
    {
      ghost var s := View();
      var p := PlaceOf(run, t);
      log := set r | r in log && !(r.space == p.space && TouchesLog(r, ids));
      process := Clearing(t, ids, 3);
      Note(Clear, s);
    }

    method DeleteNodes(t: Triple, ids: set<NodeId>)
      requires Valid() && process == Clearing(t, ids, 3)
      modifies this`nodes, this`process, this`schedule
      ensures Valid() && old(schedule) <= schedule && process == Writing(t, Ingest(nextId, []))
    {
      ghost var s := View();
      var p := PlaceOf(run, t);
      nodes := map id | id in nodes && nodes[id].place != p :: nodes[id];
      process := Writing(t, Ingest(nextId, []));
      Note(Clear, s);
    }

    /** One engine write into the scope of `t`: any write inside it. */
    method EngineWrite(t: Triple) returns (made: bool)
      requires Valid() && process.Writing? && process.triple == t
      modifies this
      ensures Valid() && old(schedule) <= schedule && markers == old(markers)
      ensures process.Writing? && process.triple == t
      ensures Created(process.ingest.writes) == Created(old(process.ingest.writes)) + if made then 1 else 0
    {
      var p := PlaceOf(run, t);
      var here := ContentAt(Tables(), p);
      assert Legal(here, Write(None, map[], {}, {}, {}, {}), p, nextId);
      var w: Write :| Legal(here, w, p, nextId);
      made := w.made.Some?;
      ghost var so := process.ingest.writes;
      Commit(t, w);
      assert (so + [w])[..|so|] == so;
    }

    method Commit(t: Triple, w: Write)
      requires Valid() && process.Writing? && process.triple == t
      requires Legal(ContentAt(Tables(), PlaceOf(run, t)), w, PlaceOf(run, t), nextId)
      modifies this
      ensures Valid() && old(schedule) <= schedule && markers == old(markers)
      ensures process == old(process).(ingest := old(process.ingest).(writes := old(process.ingest.writes) + [w]))
    {
      ghost var s := View();
      WriteRows(PlaceOf(run, t), w);
      process := process.(ingest := process.ingest.(writes := process.ingest.writes + [w]));
      Note(Engine(w), s);
    }

    method WriteRows(p: Place, w: Write)
      modifies this`nodes, this`edges, this`log, this`pending, this`nextId
      ensures Tables() == Written(old(Tables()), w, p)
      ensures nextId == if w.made.Some? && w.made.value >= old(nextId) then w.made.value + 1 else old(nextId)
    {
      nodes := nodes + (map id | id in w.rows :: Row(p, w.rows[id]));
      edges, log, pending := edges + w.edges, log + w.log, (pending - w.resolved) + w.parked;
      if w.made.Some? && w.made.value >= nextId {
        nextId := w.made.value + 1;
      }
    }

    /** One whole ingest of a scope, however many drafts its extractor emits, or as
        much of it as happened before a crash. */
    method IngestHaystack(t: Triple, mayDie: bool) returns (nodesWritten: nat, crashed: bool)
      requires Valid() && process.Writing? && process.triple == t && process.ingest.writes == []
      modifies this
      ensures Valid() && old(schedule) <= schedule && markers == old(markers)
      ensures if crashed then mayDie && process.Idle?
              else process.Writing? && process.triple == t && nodesWritten == Created(process.ingest.writes)
    {
      nodesWritten, crashed := 0, false;
      var writes: nat :| true;
      for i := 0 to writes
        invariant Valid() && old(schedule) <= schedule && markers == old(markers)
        invariant process.Writing? && process.triple == t && nodesWritten == Created(process.ingest.writes) && !crashed
      {
        var dies: bool := *;
        if mayDie && dies {
          Killed();
          crashed := true;
          return;
        }
        var made := EngineWrite(t);
        if made {
          nodesWritten := nodesWritten + 1;
        }
      }
    }

    /** Clears one unmarked triple's scope, ingests it, and marks it. */
    method IngestTriple(t: Triple, mayDie: bool) returns (crashed: bool)
      requires Valid() && process.Idle? && t in all && !Marked(Tables(), t)
      modifies this
      ensures Valid() && process.Idle? && old(schedule) <= schedule
      ensures crashed ==> mayDie && markers == old(markers)
      ensures !crashed ==>
        |markers| == |old(markers)| + 1 && old(markers) <= markers && markers[|old(markers)|].triple == t
    {
      var removed, nodesWritten;
      removed, crashed := ClearScope(t, mayDie);
      if crashed {
        return;
      }
      nodesWritten, crashed := IngestHaystack(t, mayDie);
      if crashed {
        return;
      }
      var dies: bool := *;
      if mayDie && dies {
        Killed();
        crashed := true;
        return;
      }
      ghost var s := View();
      completed, process := completed[t := process.ingest], Idle;
      markers := markers + [Marker(t, nodesWritten)];
      Note(Mark, s);
    }

    /** The phase: skip what is marked, clear what is not, ingest it, mark it. It may die
        between any two statements, and what it leaves is where some schedule leads. */
    method PhaseIngest(needed: seq<Triple>, mayDie: bool) returns (crashed: bool)
      requires Valid() && process.Idle?
      requires forall i, j :: 0 <= i < j < |needed| ==> needed[i] != needed[j]
      requires forall t :: t in needed ==> t in all
      modifies this
      ensures Valid() && process.Idle? && old(schedule) <= schedule
      ensures if crashed then mayDie else forall t :: t in needed ==> Marked(Tables(), t)
      ensures Isolated(run, all) ==> AllHold(run, View())
    {
      var done := set m | m in markers :: m.triple;
      crashed := true;
      for i := 0 to |needed|
        invariant Valid() && process.Idle? && old(schedule) <= schedule
        invariant Reached(Tables(), done, needed[..i])
      {
        var t := needed[i];
        assert needed[..i + 1] == needed[..i] + [t];
        if t in done {
          continue;
        }
        ghost var before := Tables();
        NotReached(before, done, needed, i);
        var died := IngestTriple(t, mayDie);
        if died {
          Truthful();
          return;
        }
        ReachedOne(before, Tables(), done, needed[..i], t);
      }
      assert needed[..|needed|] == needed;
      Truthful();
      crashed := false;
    }

    lemma Truthful()
      requires Valid()
      ensures Isolated(run, all) ==> AllHold(run, View())
    {
      if Isolated(run, all) {
        WholeIngest(run, all, schedule);
      }
    }
  }

  /** The markers are those found at the start and those of the triples reached since. */
  ghost predicate Reached(db: Db, done: set<Triple>, reached: seq<Triple>) {
    && (forall t :: t in done ==> Marked(db, t))
    && (forall t :: t in reached ==> Marked(db, t))
    && forall m :: m in db.markers ==> m.triple in done || m.triple in reached
  }

  lemma NotReached(db: Db, done: set<Triple>, needed: seq<Triple>, i: nat)
    requires i < |needed| && Reached(db, done, needed[..i]) && needed[i] !in done
    requires forall i, j :: 0 <= i < j < |needed| ==> needed[i] != needed[j]
    ensures !Marked(db, needed[i])
  {
  }

  lemma ReachedOne(d: Db, e: Db, done: set<Triple>, reached: seq<Triple>, t: Triple)
    requires Reached(d, done, reached) && d.markers <= e.markers && |e.markers| == |d.markers| + 1
    requires e.markers[|d.markers|].triple == t
    ensures Reached(e, done, reached + [t])
  {
    assert forall m :: m in d.markers ==> m in e.markers;
    assert e.markers[|d.markers|] in e.markers;
    assert e.markers == d.markers + [e.markers[|d.markers|]];
  }
}
