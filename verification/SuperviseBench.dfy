/** The same outer loop around the command it was written for: a benchmark run. What ends a
    cycle is read off the class line the run prints, and what its return code says of the
    questions is less than for an offline pass. */
module SuperviseBench {
  import opened Options
  import opened Checkpoint
  import opened Pool
  import opened Offline
  import opened Answering
  import opened Judgement
  import opened RunPhases
  import opened Supervise
  import Reasons = StopReason

  // ------------------------------------------------------- reading a cycle's output

  /** What a cycle writes besides its own class line, anything before it and prose after, and
      what that says of a reset. */
  datatype Noise = Noise(before: seq<Line>, rest: seq<bool>, reset: Reset)

  function Prosaic(signs: seq<bool>): seq<Line> {
    seq(|signs|, i requires 0 <= i < |signs| => Prose(signs[i]))
  }

  /** The class line of each phase that stopped; at most one does. */
  function Declares(exit: RunExit): seq<Line> {
    (if exit.reader.Some? then [Declared(Reasons.ReaderClass(exit.reader.value))] else [])
    + (if exit.judge.Some? then [Declared(Reasons.JudgeClass(exit.judge.value))] else [])
  }

  function BenchOutput(exit: RunExit, noise: Noise): seq<Line> {
    noise.before + Declares(exit) + Prosaic(noise.rest)
  }

  lemma {:induction false} ProseDeclaresNothing(tail: seq<Line>, signs: seq<bool>)
    ensures LastDeclared(tail + Prosaic(signs)) == LastDeclared(tail)
  {
    if signs == [] {
      assert tail + Prosaic(signs) == tail;
    } else {
      var n := |signs| - 1;
      ProseDeclaresNothing(tail, signs[..n]);
      assert (tail + Prosaic(signs))[..|tail| + n] == tail + Prosaic(signs[..n]);
    }
  }

  lemma DeclaredLast(before: seq<Line>, word: string, signs: seq<bool>)
    ensures ClassifyStop(before + [Declared(word)] + Prosaic(signs)) == KlassOf(word)
  {
    var tail := before + [Declared(word)];
    ProseDeclaresNothing(tail, signs);
    assert tail[|tail| - 1] == Declared(word);
  }

  /** A stopped answer phase never halts the supervisor: it backs off when a tripped breaker
      last saw the command line fail to launch, and sleeps to the reset otherwise. */
  lemma ReaderStopClass(stop: Stop, returned: bool, noise: Noise)
    ensures ClassifyStop(BenchOutput(RunExit(Some(stop), None, returned), noise)) ==
      if stop.Breaker? && Reasons.LAUNCH_FAILURE <= stop.last then Transient else Usage
  {
    var exit := RunExit(Some(stop), None, returned);
    assert Declares(exit) == [Declared(Reasons.ReaderClass(stop))];
    DeclaredLast(noise.before, Reasons.ReaderClass(stop), noise.rest);
  }

  /** A stopped judge phase halts it exactly when the breaker tripped on an error that names
      neither an outage nor a cap. */
  lemma JudgeStopClass(stop: Stop, returned: bool, noise: Noise)
    requires !stop.Residual?
    ensures ClassifyStop(BenchOutput(RunExit(None, Some(stop), returned), noise)) == Halt <==>
      stop.Breaker? && Reasons.StopClass(stop.last) == "halt"
  {
    var exit := RunExit(None, Some(stop), returned);
    assert Declares(exit) == [Declared(Reasons.JudgeClass(stop))];
    DeclaredLast(noise.before, Reasons.JudgeClass(stop), noise.rest);
    match stop
    case Breaker(failures, last) => Reasons.BreakerClass(failures, last);
    case UsageLimit(message) => Reasons.QuotaClass(message);
  }

  /** What the supervisor reads off a launch, by what its phases stopped on: a stopped answer
      phase backs off on a launch failure and otherwise sleeps; a stopped judge phase halts
      exactly on a breaker whose last error names neither an outage nor a cap. */
  lemma StoppedLaunchClass(p: Process, noise: Noise)
    requires InOrder(p) && !p.diedAnswering
    ensures PhaseStop(p.asked).Some? ==>
      var stop := PhaseStop(p.asked).value;
      ClassifyStop(BenchOutput(Told(p), noise)) ==
        if stop.Breaker? && Reasons.LAUNCH_FAILURE <= stop.last then Transient else Usage
    ensures PhaseStop(p.asked).None? && p.judging.Judging? && !p.judging.died && JudgeStop(p.judging).Some? ==>
      var stop := JudgeStop(p.judging).value;
      ClassifyStop(BenchOutput(Told(p), noise)) == Halt <==> stop.Breaker? && Reasons.StopClass(stop.last) == "halt"
  {
    if PhaseStop(p.asked).Some? {
      ReaderStopClass(PhaseStop(p.asked).value, p.returned, noise);
    } else if p.judging.Judging? && !p.judging.died && JudgeStop(p.judging).Some? {
      BreakerTripsAtTheLimit(p.judging.calls, JUDGE_LIMIT);
      JudgeStopClass(JudgeStop(p.judging).value, p.returned, noise);
    }
  }

  ghost predicate Unremarkable(tail: seq<Line>) {
    forall k :: 0 <= k < |tail| ==> tail[k] == Prose(false)
  }

  /** Nothing was declared, and no usage limit was mentioned. */
  ghost predicate Quiet(noise: Noise) {
    Unremarkable(noise.before) && Unremarkable(Prosaic(noise.rest))
  }

  lemma {:induction false} UnremarkableHalts(tail: seq<Line>)
    requires Unremarkable(tail)
    ensures ClassifyStop(tail) == Halt
  {
    if tail != [] {
      UnremarkableHalts(tail[..|tail| - 1]);
    }
  }

  lemma QuietOutput(exit: RunExit, noise: Noise)
    requires exit.reader.None? && exit.judge.None? && Quiet(noise)
    ensures ClassifyStop(BenchOutput(exit, noise)) == Halt
  {
    assert BenchOutput(exit, noise) == noise.before + Prosaic(noise.rest);
    UnremarkableHalts(BenchOutput(exit, noise));
  }

  /** A lone judge failure is no stop: the run returns, declares nothing, and is incomplete,
      which the supervisor takes for a failure that wants a person. */
  lemma LoneFailureHalts(arms: seq<seq<Key>>, b: Bench, c: Bench, p: Process, declined: string -> bool, noise: Noise)
    requires BenchLaunched(arms, b, c, p, declined) && Distinct(AnswerKeys(c.disk.answers))
    requires p.returned && !WasStopped(p) && Quiet(noise)
    ensures !IsComplete(c.disk) <==> p.judging.Judging? && Losses(p.judging.calls) > 0
    ensures ClassifyStop(BenchOutput(Told(p), noise)) == Halt
  {
    CompleteExactlyWhen(arms, b, c, p, declined);
    QuietOutput(Told(p), noise);
  }

  // ----------------------------------------------------------------------- the loop

  ghost predicate BenchLogged(c: Cycle, b: Bench, e: Bench, p: Process, noise: Noise) {
    && c.klass == ClassifyStop(BenchOutput(Told(p), noise)) && c.reset == noise.reset
    && (c.progressed <==> |b.disk.answers| < |e.disk.answers|)
    && !IsComplete(e.disk)
  }

  ghost predicate AllLogged(cycles: seq<Cycle>, benches: seq<Bench>, runs: seq<Process>, noise: nat -> Noise) {
    && |cycles| <= |runs| < |benches|
    && forall k: nat :: k < |cycles| ==> BenchLogged(cycles[k], benches[k], benches[k + 1], runs[k], noise(k))
  }

  ghost predicate BenchSupervised(arms: seq<seq<Key>>, first: Bench, cycles: seq<Cycle>, benches: seq<Bench>,
                                  runs: seq<Process>, noise: nat -> Noise, declined: string -> bool) {
    && BenchRun(arms, benches, runs, declined) && benches[0] == first
    && AllLogged(cycles, benches, runs, noise)
  }

  lemma OneMoreLaunch(arms: seq<seq<Key>>, first: Bench, cycles: seq<Cycle>, benches: seq<Bench>, runs: seq<Process>,
                      noise: nat -> Noise, declined: string -> bool, c: Cycle, e: Bench, p: Process)
    requires |cycles| == |runs| && BenchSupervised(arms, first, cycles, benches, runs, noise, declined)
    requires BenchLaunched(arms, benches[|runs|], e, p, declined)
    ensures BenchSupervised(arms, first, cycles, benches + [e], runs + [p], noise, declined)
    ensures BenchLogged(c, benches[|runs|], e, p, noise(|runs|)) ==>
      BenchSupervised(arms, first, cycles + [c], benches + [e], runs + [p], noise, declined)
  {
    MoreOfRun(arms, benches, runs, declined, e, p);
    MoreLogged(cycles, benches, runs, noise, c, e, p);
  }

  lemma MoreOfRun(arms: seq<seq<Key>>, benches: seq<Bench>, runs: seq<Process>, declined: string -> bool,
                  e: Bench, p: Process)
    requires BenchRun(arms, benches, runs, declined) && BenchLaunched(arms, benches[|runs|], e, p, declined)
    ensures BenchRun(arms, benches + [e], runs + [p], declined)
  {
  }

  lemma MoreLogged(cycles: seq<Cycle>, benches: seq<Bench>, runs: seq<Process>, noise: nat -> Noise,
                   c: Cycle, e: Bench, p: Process)
    requires |cycles| == |runs| == |benches| - 1 && AllLogged(cycles, benches, runs, noise)
    ensures AllLogged(cycles, benches + [e], runs + [p], noise)
    ensures BenchLogged(c, benches[|runs|], e, p, noise(|runs|)) ==>
      AllLogged(cycles + [c], benches + [e], runs + [p], noise)
  {
  }

  /** Each launch is within its numbers of workers, and returns unless something may kill it
      or no reader serves it. */
  ghost predicate AllPaced(runs: seq<Process>, readers: int, judges: int, mayDie: nat -> bool) {
    forall k :: 0 <= k < |runs| ==>
      Paced(runs[k], readers, judges) && (!runs[k].returned ==> mayDie(k) || readers < 1)
  }

  /** Launches once and classifies how the launch ended. */
  method BenchCycle(dir: BenchDir, arms: seq<seq<Key>>, read: (nat, Key) -> Outcome<Answer>,
                    order: seq<Answer> -> seq<Answer>, grade: (nat, Answer) -> Outcome<Grade>,
                    declined: string -> bool, readers: int, judges: int, mayDie: nat -> bool, cycle: nat,
                    noise: nat -> Noise,
                    ghost first: Bench, ghost cycles: seq<Cycle>, ghost benches: seq<Bench>, ghost runs: seq<Process>)
    returns (c: Cycle, ghost p: Process)
    requires dir.Valid() && Permutes(order)
    requires forall tick, key :: read(tick, key).Ok? ==> read(tick, key).row.key == key
    requires |cycles| == |runs| == cycle && BenchSupervised(arms, first, cycles, benches, runs, noise, declined)
    requires benches[|runs|] == dir.View()
    modifies dir, dir.answers, dir.envelopes, dir.verdicts
    ensures BenchSupervised(arms, first, cycles, benches + [dir.View()], runs + [p], noise, declined)
    ensures AllPaced(runs, readers, judges, mayDie) ==> AllPaced(runs + [p], readers, judges, mayDie)
    ensures !IsComplete(dir.View().disk) ==>
      BenchSupervised(arms, first, cycles + [c], benches + [dir.View()], runs + [p], noise, declined)
  {
    var before := |dir.answers.rows|;
    var exit;
    exit, p := dir.Launch(arms, read, order, grade, declined, readers, judges, mayDie(cycle));
    c := Cycle(ClassifyStop(BenchOutput(exit, noise(cycle))), before < |dir.answers.rows|, noise(cycle).reset);
    OneMoreLaunch(arms, first, cycles, benches, runs, noise, declined, c, dir.View(), p);
  }

  /** One turn of the loop: a launch, and unless it completed the run, a halt or a sleep. */
  method BenchTurn(dir: BenchDir, arms: seq<seq<Key>>, read: (nat, Key) -> Outcome<Answer>,
                   order: seq<Answer> -> seq<Answer>, grade: (nat, Answer) -> Outcome<Grade>,
                   declined: string -> bool, readers: int, judges: int, mayDie: nat -> bool, cycle: nat,
                   fallback: real, noise: nat -> Noise, before: nat, slept: seq<Sleep>,
                   ghost first: Bench, ghost past: seq<Cycle>, ghost benches0: seq<Bench>, ghost runs0: seq<Process>)
    returns (rc: int, streak: nat, sleeps: seq<Sleep>,
             ghost cycles: seq<Cycle>, ghost benches: seq<Bench>, ghost runs: seq<Process>)
    requires dir.Valid() && Permutes(order)
    requires forall tick, key :: read(tick, key).Ok? ==> read(tick, key).row.key == key
    requires |past| == |runs0| == cycle && BenchSupervised(arms, first, past, benches0, runs0, noise, declined)
    requires benches0[|runs0|] == dir.View()
    requires Continues(past, before, slept, fallback) && AllPaced(runs0, readers, judges, mayDie)
    modifies dir, dir.answers, dir.envelopes, dir.verdicts
    ensures BenchSupervised(arms, first, cycles, benches, runs, noise, declined)
    ensures |runs| == cycle + 1 && benches[cycle + 1] == dir.View()
    ensures AllPaced(runs, readers, judges, mayDie)
    ensures rc == 0 || rc == 2 || rc == 3
    ensures rc == 0 <==> IsComplete(dir.View().disk)
    ensures rc == 0 ==> |cycles| == cycle && Continues(cycles, streak, sleeps, fallback)
    ensures rc == 2 ==> |cycles| == cycle + 1 && HaltsAt(cycles, sleeps, fallback)
    ensures rc == 3 ==> |cycles| == cycle + 1 && Continues(cycles, streak, sleeps, fallback)
  {
    rc, streak, sleeps, cycles := 0, before, slept, past;
    var c;
    ghost var p;
    c, p := BenchCycle(dir, arms, read, order, grade, declined, readers, judges, mayDie, cycle, noise,
                       first, past, benches0, runs0);
    benches, runs := benches0 + [dir.View()], runs0 + [p];
    if !IsComplete(dir.View().disk) {
      var halted;
      streak, halted, sleeps := React(c, before, slept, fallback, past);
      cycles := past + [c];
      rc := if halted then 2 else 3;
    }
  }

  lemma NothingYet(arms: seq<seq<Key>>, first: Bench, noise: nat -> Noise, declined: string -> bool, readers: int,
                   judges: int, mayDie: nat -> bool)
    ensures BenchSupervised(arms, first, [], [first], [], noise, declined) && AllPaced([], readers, judges, mayDie)
  {
  }

  /** Supervises a benchmark run over one directory. */
  method SuperviseBenchmark(dir: BenchDir, arms: seq<seq<Key>>, read: (nat, Key) -> Outcome<Answer>,
                            order: seq<Answer> -> seq<Answer>, grade: (nat, Answer) -> Outcome<Grade>,
                            declined: string -> bool, readers: int, judges: int, mayDie: nat -> bool,
                            maxCycles: nat, fallback: real, noise: nat -> Noise)
    returns (rc: int, sleeps: seq<Sleep>,
             ghost cycles: seq<Cycle>, ghost benches: seq<Bench>, ghost runs: seq<Process>)
    requires dir.Valid() && Permutes(order)
    requires forall tick, key :: read(tick, key).Ok? ==> read(tick, key).row.key == key
    modifies dir, dir.answers, dir.envelopes, dir.verdicts
    ensures BenchSupervised(arms, old(dir.View()), cycles, benches, runs, noise, declined)
    ensures benches[|runs|] == dir.View() && |runs| <= maxCycles
    ensures rc == 0 || rc == 2 || rc == 3
    ensures rc == 0 <==> runs != [] && IsComplete(dir.View().disk)
    ensures rc == 0 ==> |cycles| == |runs| - 1 && GoesOn(cycles) && sleeps == SleptThrough(cycles, fallback)
    ensures rc == 2 ==> |cycles| == |runs| && HaltsAt(cycles, sleeps, fallback)
    ensures rc == 3 ==> |cycles| == |runs| == maxCycles && GoesOn(cycles) && sleeps == SleptThrough(cycles, fallback)
    ensures SleepsAs(cycles, sleeps, fallback)
    ensures AllPaced(runs, readers, judges, mayDie)
  {
    var streak, cycle := 0, 0;
    ghost var first := dir.View();
    sleeps, cycles, benches, runs := [], [], [first], [];
    NothingYet(arms, first, noise, declined, readers, judges, mayDie);
    while cycle < maxCycles
      invariant |cycles| == |runs| == cycle <= maxCycles
      invariant BenchSupervised(arms, first, cycles, benches, runs, noise, declined) && benches[cycle] == dir.View()
      invariant Continues(cycles, streak, sleeps, fallback)
      invariant cycle > 0 ==> !IsComplete(dir.View().disk)
      invariant AllPaced(runs, readers, judges, mayDie)
    {
      rc, streak, sleeps, cycles, benches, runs := BenchTurn(dir, arms, read, order, grade, declined, readers, judges,
        mayDie, cycle, fallback, noise, streak, sleeps, first, cycles, benches, runs);
      if rc != 3 {
        SleptSoFar(cycles, streak, sleeps, fallback);
        return;
      }
      cycle := cycle + 1;
    }
    rc := 3;
    SleptSoFar(cycles, streak, sleeps, fallback);
  }

  /** The questions a launch left out are those whose every call in it failed. */
  ghost predicate LeftOut(arms: seq<seq<Key>>, b: Bench, c: Bench, p: Process) {
    && |p.asked| == |arms|
    && forall key, i :: key !in AnswerKeys(c.disk.answers) && 0 <= i < |arms| ==>
         OnlyFailed(Unanswered(arms[i], AnswerKeys(b.disk.answers)), p.asked[i], key)
  }

  lemma WhatIsLeftOut(arms: seq<seq<Key>>, b: Bench, c: Bench, p: Process, declined: string -> bool)
    requires BenchLaunched(arms, b, c, p, declined) && !p.diedAnswering && PhaseStop(p.asked).None?
    ensures LeftOut(arms, b, c, p)
  {
    forall key | key !in AnswerKeys(c.disk.answers)
      ensures forall i :: 0 <= i < |arms| ==> OnlyFailed(Unanswered(arms[i], AnswerKeys(b.disk.answers)), p.asked[i], key)
    {
      UnansweredExactlyWhen(arms, b.disk.answers, c.disk.answers, p.asked, p.width, key);
    }
  }

  /** The launch that first makes a directory read as complete has graded everything there,
      and has answered everything exactly when none of its readers failed. */
  lemma FirstComplete(arms: seq<seq<Key>>, b: Bench, c: Bench, p: Process, declined: string -> bool)
    requires BenchLaunched(arms, b, c, p, declined) && !IsComplete(b.disk) && IsComplete(c.disk)
    ensures AllGraded(c.disk) && LeftOut(arms, b, c, p)
    ensures NoneFailed(p.asked) ==> AllDone(Wanted(arms), c.disk)
    ensures Distinct(Wanted(arms)) ==> (AllDone(Wanted(arms), c.disk) <==> NoneFailed(p.asked))
  {
    FreshlyComplete(arms, b, c, p, declined);
    AllAnsweredExactlyWhen(arms, b.disk.answers, c.disk.answers, p.asked, p.width);
    WhatIsLeftOut(arms, b, c, p, declined);
  }

  /** A supervisor that returns 0 over a fresh directory leaves everything recorded graded,
      and, if no question is wanted twice, every row once. It has then answered all that was
      wanted exactly when no call of the last launch failed; the questions missing are those
      whose every call in that launch did. */
  lemma ZeroMeansGraded(arms: seq<seq<Key>>, cycles: seq<Cycle>, benches: seq<Bench>, runs: seq<Process>,
                        noise: nat -> Noise, declined: string -> bool)
    requires BenchSupervised(arms, FRESH_BENCH, cycles, benches, runs, noise, declined)
    requires |cycles| == |runs| - 1 && IsComplete(benches[|runs|].disk)
    ensures AllGraded(benches[|runs|].disk)
    ensures NoneFailed(runs[|runs| - 1].asked) ==> AllDone(Wanted(arms), benches[|runs|].disk)
    ensures Distinct(Wanted(arms)) ==>
      && Clean(benches[|runs|].disk)
      && (AllDone(Wanted(arms), benches[|runs|].disk) <==> NoneFailed(runs[|runs| - 1].asked))
    ensures LeftOut(arms, benches[|runs| - 1], benches[|runs|], runs[|runs| - 1])
  {
    var n := |runs| - 1;
    if Distinct(Wanted(arms)) {
      BenchSafety(arms, benches, runs, declined, n + 1);
    }
    NotYet(cycles, benches, runs, noise, n);
    FirstComplete(arms, benches[n], benches[n + 1], runs[n], declined);
  }

  lemma NotYet(cycles: seq<Cycle>, benches: seq<Bench>, runs: seq<Process>, noise: nat -> Noise, k: nat)
    requires AllLogged(cycles, benches, runs, noise) && benches[0] == FRESH_BENCH && k <= |cycles|
    ensures !IsComplete(benches[k].disk)
  {
    if k > 0 {
      assert BenchLogged(cycles[k - 1], benches[k - 1], benches[k], runs[k - 1], noise(k - 1));
    }
  }
}
