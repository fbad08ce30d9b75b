/** A benchmark run over one directory: answer, judge, report, in processes that return or
    die and are launched again; and what its report then says of the rows beside it. */
module RunPhases {
  import opened Options
  import opened Checkpoint
  import opened Counting
  import opened Pool
  import opened Offline
  import opened Answering
  import opened Judgement

  // ----------------------------------------------------------------- the report

  /** The answers that no verdict is joined to. */
  function Missing(answers: seq<Answer>, verdicts: seq<Grade>): nat {
    if answers == [] then 0 else
    var n := |answers| - 1;
    Missing(answers[..n], verdicts) + (if Lookup(verdicts, answers[n].key).None? then 1 else 0)
  }

  /** Results and missing make up the answers, and none is missing exactly when all are graded. */
  lemma {:induction false} MissingCounts(answers: seq<Answer>, verdicts: seq<Grade>)
    ensures |Join(answers, verdicts)| + Missing(answers, verdicts) == |answers|
    ensures Missing(answers, verdicts) == 0 <==> Covers(answers, verdicts)
  {
    if answers != [] {
      MissingCounts(answers[..|answers| - 1], verdicts);
    }
    JoinCounts(answers, verdicts);
  }

  // -------------------------------------------------------------------- the run

  datatype Bench = Bench(disk: Disk, envelopes: seq<Key>)

  const FRESH_BENCH := Bench(FRESH, [])

  /** What one process did: the answer phase arm by arm, the judge phase, and whether it got
      as far as the manifest, and to its end. */
  datatype Process = Process(width: nat, asked: seq<History<Answer>>, diedAnswering: bool, judging: JudgeRun,
                             wrote: bool, returned: bool)

  /** In its pools, at most twice as many questions as readers, and one grading a judge. */
  ghost predicate Paced(p: Process, readers: int, judges: int) {
    && p.width == (if readers < 1 then 1 else 2 * readers)
    && (p.judging.Judging? ==> p.judging.width == if judges > 1 then judges else 1)
  }

  ghost predicate WasStopped(p: Process) {
    PhaseStop(p.asked).Some? || JudgeStop(p.judging).Some?
  }

  /** What a run prints of its stops, and whether it returned. */
  datatype RunExit = RunExit(reader: Option<Stop>, judge: Option<Stop>, returned: bool)

  function Told(p: Process): RunExit {
    RunExit(if p.diedAnswering then None else PhaseStop(p.asked),
            if p.judging.Judging? && !p.judging.died then JudgeStop(p.judging) else None,
            p.returned)
  }

  /** Before the manifest is written, it and the report are as they were, but that a run
      without one is given an empty one. */
  ghost predicate Reported(d: Disk, e: Disk, p: Process) {
    && e.report == (d.report || p.returned)
    && (p.returned ==> p.wrote)
    && if p.wrote
       then e.manifest == Some(Manifest(WasStopped(p), None, Some(Missing(e.answers, e.verdicts))))
       else e.manifest == d.manifest || (d.manifest.None? && e.manifest == Some(Manifest(false, None, None)))
  }

  /** Judging follows an answer phase that was not stopped, and reporting follows both. */
  ghost predicate InOrder(p: Process) {
    && (p.diedAnswering || PhaseStop(p.asked).Some? ==> p.judging.Skipped?)
    && (p.wrote ==>
          && !p.diedAnswering
          && (PhaseStop(p.asked).None? ==> p.judging.Judging? && !p.judging.died))
  }

  /** One process of the run over `arms`, from `b` to `c`. */
  ghost predicate BenchLaunched(arms: seq<seq<Key>>, b: Bench, c: Bench, p: Process, declined: string -> bool) {
    && Answered(arms, b.disk.answers, c.disk.answers, p.asked, p.width, p.diedAnswering)
    && Graded(c.disk.answers, b.disk.verdicts, c.disk.verdicts, p.judging, declined)
    && b.envelopes <= c.envelopes
    && EnvelopesFollow(AllRows(p.asked), c.envelopes[|b.envelopes|..], p.diedAnswering)
    && InOrder(p)
    && Reported(b.disk, c.disk, p)
  }

  class BenchDir {
    const answers: JsonlFile<Answer>
    const envelopes: JsonlFile<Key>
    const verdicts: JsonlFile<Grade>
    var manifest: Option<Manifest>
    var report: bool
    var results: seq<Result>

    constructor ()
      ensures Valid() && fresh(answers) && fresh(envelopes) && fresh(verdicts) && View() == FRESH_BENCH
    {
      answers := new JsonlFile<Answer>();
      envelopes := new JsonlFile<Key>();
      verdicts := new JsonlFile<Grade>();
      manifest, report, results := None, false, [];
    }

    ghost predicate Valid() {
      (answers as object) != verdicts && (answers as object) != envelopes && (envelopes as object) != verdicts
    }

    function View(): Bench
      reads this, answers, envelopes, verdicts
    {
      Bench(Disk(answers.rows, verdicts.rows, manifest, report), envelopes.rows)
    }

    /** Joins answers and verdicts, counting the answers that have none. */
    method Merge() returns (merged: seq<Result>, ungraded: nat)
      ensures merged == Join(answers.rows, verdicts.rows)
      ensures |merged| + ungraded == |answers.rows|
      ensures ungraded == Missing(answers.rows, verdicts.rows)
    {
      merged, ungraded := [], 0;
      for i := 0 to |answers.rows|
        invariant merged == Join(answers.rows[..i], verdicts.rows)
        invariant ungraded == Missing(answers.rows[..i], verdicts.rows)
      {
        assert answers.rows[..i + 1][..i] == answers.rows[..i];
        var found := Lookup(verdicts.rows, answers.rows[i].key);
        if found.None? {
          ungraded := ungraded + 1;
        } else {
          merged := merged + [Result(answers.rows[i], found.value)];
        }
      }
      assert answers.rows[..|answers.rows|] == answers.rows;
      MissingCounts(answers.rows, verdicts.rows);
    }

    /** Writes results, manifest and report in that order, and may be killed before each. */
    method Report(quotaStop: bool, mayDie: bool) returns (wrote: bool, survived: bool)
      modifies this`manifest, this`report, this`results
      ensures survived ==> wrote && results == Join(answers.rows, verdicts.rows)
      ensures manifest ==
        if wrote then Some(Manifest(quotaStop, None, Some(Missing(answers.rows, verdicts.rows)))) else old(manifest)
      ensures report == (old(report) || survived) && (!survived ==> mayDie)
    {
      wrote, survived := false, false;
      var merged, ungraded := Merge();
      var dies: bool := *;
      if mayDie && dies {
        return;
      }
      results := merged;
      dies := *;
      if mayDie && dies {
        return;
      }
      manifest := Some(Manifest(quotaStop, None, Some(ungraded)));
      wrote := true;
      dies := *;
      if mayDie && dies {
        return;
      }
      report := true;
      survived := true;
    }

    method Judge(order: seq<Answer> -> seq<Answer>, grade: (nat, Answer) -> Outcome<Grade>, declined: string -> bool,
                 judges: int, mayDie: bool)
      returns (stop: Option<Stop>, crashed: bool, ghost j: JudgeRun)
      requires Valid() && Permutes(order)
      modifies verdicts
      ensures Graded(answers.rows, old(verdicts.rows), verdicts.rows, j, declined)
      ensures j.Judging? && j.width == Width(judges) && j.died == crashed
      ensures if crashed then mayDie else stop == JudgeStop(j)
      ensures VerdictsOn(grade, declined, answers.rows, verdicts.rows, |old(verdicts.rows)|)
    {
      ghost var left := Ungraded(answers.rows, GradeKeys(verdicts.rows));
      UngradedSubset(answers.rows, GradeKeys(verdicts.rows));
      stop, crashed, j := JudgePhase(answers, verdicts, order, grade, declined, judges, mayDie);
      VerdictsOnSame(grade, declined, left, answers.rows, verdicts.rows, |old(verdicts.rows)|);
    }

    /** One process of the run: answer; grade unless answering stopped; report either way. */
    method Launch(arms: seq<seq<Key>>, read: (nat, Key) -> Outcome<Answer>, order: seq<Answer> -> seq<Answer>,
                  grade: (nat, Answer) -> Outcome<Grade>, declined: string -> bool, readers: int, judges: int,
                  mayDie: bool)
      returns (exit: RunExit, ghost p: Process)
      requires Valid()
      requires forall tick, key :: read(tick, key).Ok? ==> read(tick, key).row.key == key
      requires Permutes(order)
      modifies this, answers, envelopes, verdicts
      ensures BenchLaunched(arms, old(View()), View(), p, declined) && exit == Told(p)
      ensures Paced(p, readers, judges) && (!p.returned ==> mayDie || readers < 1)
      ensures manifest.None? ==> mayDie
      ensures AsRead(read, answers.rows, |old(answers.rows)|)
      ensures VerdictsOn(grade, declined, answers.rows, verdicts.rows, |old(verdicts.rows)|)
    {
      exit := RunExit(None, None, false);
      if manifest.None? {
        manifest := Some(Manifest(false, None, None));
      }
      var stop, crashed;
      ghost var asked, judging;
      judging := Skipped;
      stop, crashed, asked := AnswerPhase(answers, envelopes, arms, read, readers, mayDie);
      if crashed {
        p := Process(ReaderWidth(readers), asked, true, Skipped, false, false);
        return;
      }
      exit := exit.(reader := stop);
      var quotaStop := stop.Some?;
      if !quotaStop {
        var judgeStop;
        judgeStop, crashed, judging := Judge(order, grade, declined, judges, mayDie);
        if crashed {
          p := Process(ReaderWidth(readers), asked, false, judging, false, false);
          return;
        }
        exit := exit.(judge := judgeStop);
        quotaStop := judgeStop.Some?;
      }
      var wrote, survived := Report(quotaStop, mayDie);
      exit := exit.(returned := survived);
      p := Process(ReaderWidth(readers), asked, false, judging, wrote, survived);
    }
  }

  // ------------------------------------------------------------- over whole runs

  ghost predicate BenchRun(arms: seq<seq<Key>>, benches: seq<Bench>, launches: seq<Process>, declined: string -> bool) {
    && |benches| == |launches| + 1
    && forall k :: 0 <= k < |launches| ==> BenchLaunched(arms, benches[k], benches[k + 1], launches[k], declined)
  }

  /** Every verdict on an abstention row is the rule's. */
  ghost predicate RuledThroughout(d: Disk, declined: string -> bool) {
    forall grade, row :: grade in d.verdicts && row in d.answers && row.key == grade.key && row.abstain ==>
      grade == RuleGrade(row, declined)
  }

  function Deaths(runs: seq<Process>): nat {
    if runs == [] then 0 else Deaths(runs[..|runs| - 1]) + (if runs[|runs| - 1].diedAnswering then 1 else 0)
  }

  ghost function Died(runs: seq<Process>): seq<bool> {
    seq(|runs|, k requires 0 <= k < |runs| => runs[k].diedAnswering)
  }

  lemma {:induction false} DeathsCounted(runs: seq<Process>)
    ensures Deaths(runs) == CountTrue(Died(runs))
  {
    if runs != [] {
      DeathsCounted(runs[..|runs| - 1]);
      assert Died(runs)[..|runs| - 1] == Died(runs[..|runs| - 1]);
    }
  }

  lemma DeathsAre(runs: seq<Process>)
    ensures Deaths(runs) == |TrueAt(Died(runs))|
  {
    DeathsCounted(runs);
    TrueOnes(Died(runs));
  }

  ghost predicate BenchSound(todo: seq<Key>, b: Bench, declined: string -> bool, deaths: nat) {
    && Clean(b.disk) && RuledThroughout(b.disk, declined)
    && (forall key :: key in AnswerKeys(b.disk.answers) ==> key in todo)
    && (forall key :: key in b.envelopes ==> key in AnswerKeys(b.disk.answers))
    && |b.disk.answers| - deaths <= |b.envelopes| <= |b.disk.answers|
  }

  /** A launch, however it ends, is a step of answers and a step of verdicts. */
  lemma LaunchSteps(arms: seq<seq<Key>>, b: Bench, c: Bench, p: Process, declined: string -> bool)
    requires BenchLaunched(arms, b, c, p, declined)
    ensures ReadStep(Wanted(arms), b.disk.answers, c.disk.answers)
    ensures JudgeStep(c.disk.answers, b.disk.verdicts, c.disk.verdicts)
    ensures Distinct(AnswerKeys(c.disk.answers)) ==> ByRule(c.disk.answers, b.disk.verdicts, c.disk.verdicts, declined)
  {
    PhaseReads(arms, b.disk.answers, c.disk.answers, p.asked, p.width, p.diedAnswering);
    GradesSoundly(c.disk.answers, b.disk.verdicts, c.disk.verdicts, p.judging, declined);
  }

  /** A grade of an earlier launch grades a row that was already there. */
  lemma GradedRowIsOld(d: Disk, e: Disk, grade: Grade, row: Answer)
    requires d.answers <= e.answers && Distinct(AnswerKeys(e.answers))
    requires grade in d.verdicts && forall key :: key in GradeKeys(d.verdicts) ==> key in AnswerKeys(d.answers)
    requires row in e.answers && row.key == grade.key
    ensures row in d.answers
  {
    var k :| 0 <= k < |d.verdicts| && d.verdicts[k] == grade;
    assert GradeKeys(d.verdicts)[k] == grade.key && grade.key in GradeKeys(d.verdicts);
    var i :| 0 <= i < |e.answers| && e.answers[i] == row;
    var j :| 0 <= j < |d.answers| && AnswerKeys(d.answers)[j] == grade.key;
    assert AnswerKeys(e.answers)[i] == AnswerKeys(e.answers)[j];
    assert d.answers[j] == e.answers[j];
  }

  lemma RuleKept(d: Disk, e: Disk, declined: string -> bool)
    requires Clean(d) && Clean(e) && d.answers <= e.answers && d.verdicts <= e.verdicts
    requires ByRule(e.answers, d.verdicts, e.verdicts, declined) && RuledThroughout(d, declined)
    ensures RuledThroughout(e, declined)
  {
    forall grade, row | grade in e.verdicts && row in e.answers && row.key == grade.key && row.abstain
      ensures grade == RuleGrade(row, declined)
    {
      var k :| 0 <= k < |e.verdicts| && e.verdicts[k] == grade;
      if k < |d.verdicts| {
        assert d.verdicts[k] == grade;
        GradedRowIsOld(d, e, grade, row);
      }
    }
  }

  lemma EnvelopesKept(arms: seq<seq<Key>>, b: Bench, c: Bench, p: Process, declined: string -> bool, deaths: nat)
    requires BenchLaunched(arms, b, c, p, declined) && BenchSound(Wanted(arms), b, declined, deaths)
    ensures forall key :: key in c.envelopes ==> key in AnswerKeys(c.disk.answers)
    ensures |c.disk.answers| - deaths - (if p.diedAnswering then 1 else 0) <= |c.envelopes| <= |c.disk.answers|
  {
    var a, e := AllRows(p.asked), c.envelopes[|b.envelopes|..];
    KeysJoin(b.disk.answers, a);
    assert c.envelopes == b.envelopes + e;
    if e != AnswerKeys(a) {
      assert AnswerKeys(a) == e + [a[|a| - 1].key];
    }
  }

  lemma LaunchIsSafe(arms: seq<seq<Key>>, b: Bench, c: Bench, p: Process, declined: string -> bool, deaths: nat)
    requires Distinct(Wanted(arms)) && BenchLaunched(arms, b, c, p, declined)
    requires BenchSound(Wanted(arms), b, declined, deaths)
    ensures BenchSound(Wanted(arms), c, declined, deaths + if p.diedAnswering then 1 else 0)
  {
    LaunchSteps(arms, b, c, p, declined);
    GrownKeys(Wanted(arms), b.disk, c.disk);
    RuleKept(b.disk, c.disk, declined);
    EnvelopesKept(arms, b, c, p, declined, deaths);
  }

  lemma FreshIsSound(todo: seq<Key>, declined: string -> bool)
    ensures BenchSound(todo, FRESH_BENCH, declined, 0)
  {
  }

  lemma OneMoreDeath(runs: seq<Process>, k: nat)
    requires 0 < k <= |runs|
    ensures Deaths(runs[..k]) == Deaths(runs[..k - 1]) + if runs[k - 1].diedAnswering then 1 else 0
  {
    assert runs[..k][..k - 1] == runs[..k - 1];
  }

  /** From a fresh directory, over every sequence of launches: answers and verdicts stay
      unique and clean, verdicts grade answered questions only, abstention rows are graded by
      the rule alone, and `d` deaths while answering leave at most `d` answers without their
      envelope. */
  lemma {:induction false} BenchSafety(arms: seq<seq<Key>>, benches: seq<Bench>, runs: seq<Process>,
                                       declined: string -> bool, k: nat)
    requires Distinct(Wanted(arms)) && BenchRun(arms, benches, runs, declined)
    requires benches[0] == FRESH_BENCH && k < |benches|
    ensures BenchSound(Wanted(arms), benches[k], declined, Deaths(runs[..k]))
  {
    if k == 0 {
      FreshIsSound(Wanted(arms), declined);
    } else {
      BenchSafety(arms, benches, runs, declined, k - 1);
      LaunchIsSafe(arms, benches[k - 1], benches[k], runs[k - 1], declined, Deaths(runs[..k - 1]));
      OneMoreDeath(runs, k);
    }
  }

  // --------------------------------------------------------- what "complete" means

  /** A launch that returns leaves a run that reads as complete exactly when the answer phase
      was not stopped and no judge call was lost, whatever readers failed on the way. */
  lemma CompleteExactlyWhen(arms: seq<seq<Key>>, b: Bench, c: Bench, p: Process, declined: string -> bool)
    requires BenchLaunched(arms, b, c, p, declined) && p.returned && Distinct(AnswerKeys(c.disk.answers))
    ensures IsComplete(c.disk) <==> PhaseStop(p.asked).None? && p.judging.Judging? && Losses(p.judging.calls) == 0
  {
    MissingCounts(c.disk.answers, c.disk.verdicts);
    if PhaseStop(p.asked).None? {
      AllGradedExactlyWhen(c.disk.answers, b.disk.verdicts, c.disk.verdicts, p.judging, declined);
    }
  }

  /** A launch that turns an incomplete directory into one that reads as complete has written
      the manifest itself, after an answer phase that was not stopped, and everything recorded
      is graded. */
  lemma FreshlyComplete(arms: seq<seq<Key>>, b: Bench, c: Bench, p: Process, declined: string -> bool)
    requires BenchLaunched(arms, b, c, p, declined) && IsComplete(c.disk) && !IsComplete(b.disk)
    ensures AllGraded(c.disk) && p.wrote && !p.diedAnswering && PhaseStop(p.asked).None?
  {
    MissingCounts(c.disk.answers, c.disk.verdicts);
  }

  /** What reads as complete is graded. */
  ghost predicate Truthful(b: Bench) {
    IsComplete(b.disk) ==> AllGraded(b.disk)
  }

  /** Every run from `b` stays truthful. */
  ghost predicate StaysTruthful(arms: seq<seq<Key>>, b: Bench, declined: string -> bool) {
    forall benches, runs, k: nat :: BenchRun(arms, benches, runs, declined) && benches[0] == b && k < |benches| ==>
      Truthful(benches[k])
  }

  lemma VerdictsStay(d: Disk, e: Disk)
    requires e.answers == d.answers && d.verdicts <= e.verdicts && AllGraded(d)
    ensures AllGraded(e)
  {
    assert GradeKeys(e.verdicts)[..|d.verdicts|] == GradeKeys(d.verdicts);
  }

  /** All that is wanted is answered already: a launch adds no answer. */
  lemma StillTruthful(arms: seq<seq<Key>>, b: Bench, c: Bench, p: Process, declined: string -> bool)
    requires BenchLaunched(arms, b, c, p, declined) && Truthful(b) && AllAnswered(Wanted(arms), b.disk.answers)
    ensures Truthful(c) && c.disk.answers == b.disk.answers
  {
    LaunchSteps(arms, b, c, p, declined);
    NothingLeft(Wanted(arms), b.disk, c.disk);
    if IsComplete(c.disk) {
      if IsComplete(b.disk) {
        VerdictsStay(b.disk, c.disk);
      } else {
        FreshlyComplete(arms, b, c, p, declined);
      }
    }
  }

  lemma {:induction false} TruthfulFrom(arms: seq<seq<Key>>, benches: seq<Bench>, runs: seq<Process>,
                                        declined: string -> bool, k: nat)
    requires BenchRun(arms, benches, runs, declined) && k < |benches|
    requires Truthful(benches[0]) && AllAnswered(Wanted(arms), benches[0].disk.answers)
    ensures Truthful(benches[k]) && benches[k].disk.answers == benches[0].disk.answers
  {
    if k > 0 {
      TruthfulFrom(arms, benches, runs, declined, k - 1);
      StillTruthful(arms, benches[k - 1], benches[k], runs[k - 1], declined);
    }
  }

  /** A launch over `b` that answers what is left, and is killed before it grades any of it. */
  lemma KilledBeforeGrading(arms: seq<seq<Key>>, b: Bench, declined: string -> bool) returns (c: Bench, p: Process)
    ensures BenchLaunched(arms, b, c, p, declined) && !p.wrote
    ensures AllAnswered(Wanted(arms), c.disk.answers)
    ensures c.disk.verdicts == b.disk.verdicts && c.disk.report == b.disk.report && c.disk.manifest == b.disk.manifest
  {
    var asked := FlawlessPhase(arms, AnswerKeys(b.disk.answers));
    var rows := AllRows(asked);
    FlawlessAnswers(arms, b.disk.answers, 1, false);
    p := Process(1, asked, false, Skipped, false, false);
    c := Bench(Disk(b.disk.answers + rows, b.disk.verdicts, b.disk.manifest, b.disk.report),
               b.envelopes + AnswerKeys(rows));
    assert c.envelopes[|b.envelopes|..] == AnswerKeys(rows);
    LossesOfPhase(arms, AnswerKeys(b.disk.answers), asked);
    AllAnsweredExactlyWhen(arms, b.disk.answers, c.disk.answers, asked, 1);
  }

  /** A run that reads as complete may be launched again. What then reads as complete is
      graded, over every continuation, exactly when the run had answered all that it wants:
      a question lost before can be answered now, and the old report stands until the new one
      is written. */
  lemma SurvivesExactlyWhen(arms: seq<seq<Key>>, b: Bench, declined: string -> bool)
    requires IsComplete(b.disk) && AllGraded(b.disk)
    requires forall key :: key in GradeKeys(b.disk.verdicts) ==> key in AnswerKeys(b.disk.answers)
    ensures StaysTruthful(arms, b, declined) <==> AllAnswered(Wanted(arms), b.disk.answers)
  {
    if AllAnswered(Wanted(arms), b.disk.answers) {
      forall benches, runs, k: nat | BenchRun(arms, benches, runs, declined) && benches[0] == b && k < |benches|
        ensures Truthful(benches[k])
      {
        TruthfulFrom(arms, benches, runs, declined, k);
      }
    } else {
      var c, p := KilledBeforeGrading(arms, b, declined);
      var key :| key in Wanted(arms) && key !in AnswerKeys(b.disk.answers);
      assert key in AnswerKeys(c.disk.answers) && key !in GradeKeys(c.disk.verdicts);
      assert BenchRun(arms, [b, c], [p], declined) && [b, c][0] == b && [b, c][1] == c;
      assert !Truthful([b, c][1]);
    }
  }

  /** The last of the first `n` launches that got as far as the manifest, counted from one. */
  function LastWritten(runs: seq<Process>, n: nat): (j: nat)
    requires n <= |runs|
    ensures j <= n && (forall k :: j <= k < n ==> !runs[k].wrote) && (j > 0 ==> runs[j - 1].wrote)
  {
    if n == 0 then 0 else if runs[n - 1].wrote then n else LastWritten(runs, n - 1)
  }

  /** `e` holds what `d` did, and its report says the same. */
  ghost predicate Holds(d: Disk, e: Disk) {
    d.answers <= e.answers && d.verdicts <= e.verdicts && (IsComplete(e) <==> IsComplete(d))
  }

  lemma Written(arms: seq<seq<Key>>, b: Bench, c: Bench, p: Process, declined: string -> bool)
    requires BenchLaunched(arms, b, c, p, declined) && p.wrote && IsComplete(c.disk)
    ensures AllGraded(c.disk) && PhaseStop(p.asked).None?
  {
    MissingCounts(c.disk.answers, c.disk.verdicts);
  }

  lemma HeldSince(arms: seq<seq<Key>>, benches: seq<Bench>, runs: seq<Process>,
                                     declined: string -> bool, j: nat, k: nat)
    requires BenchRun(arms, benches, runs, declined) && j <= k < |benches|
    requires forall i :: j <= i < k ==> !runs[i].wrote
    ensures Holds(benches[j].disk, benches[k].disk)
  {
    for i := j to k
      invariant Holds(benches[j].disk, benches[i].disk)
    {
    }
  }

  /** Once all is graded, what remains to be graded is what was answered since. */
  lemma GradedSoFar(d: Disk, e: Disk)
    requires Holds(d, e) && AllGraded(d)
    ensures AllGraded(e) <==> Covers(e.answers[|d.answers|..], e.verdicts)
  {
    var added := e.answers[|d.answers|..];
    KeysJoin(d.answers, added);
    assert e.answers == d.answers + added;
    assert GradeKeys(e.verdicts)[..|d.verdicts|] == GradeKeys(d.verdicts);
  }

  /** From a fresh directory, a run reads as complete exactly when the last launch to write
      the manifest left it so, after an answer phase that was not stopped and with all it then
      held graded. No launch has returned since, and the run is graded exactly as far as what
      those launches answered is. */
  lemma CompleteMeans(arms: seq<seq<Key>>, benches: seq<Bench>, runs: seq<Process>, declined: string -> bool, k: nat)
    requires BenchRun(arms, benches, runs, declined) && benches[0] == FRESH_BENCH && k < |benches|
    ensures var j := LastWritten(runs, k);
      && Holds(benches[j].disk, benches[k].disk)
      && (IsComplete(benches[k].disk) ==> j > 0 && AllGraded(benches[j].disk) && PhaseStop(runs[j - 1].asked).None?)
      && (forall i :: j <= i < k ==> !runs[i].returned)
      && (IsComplete(benches[k].disk) ==> (AllGraded(benches[k].disk) <==>
            Covers(benches[k].disk.answers[|benches[j].disk.answers|..], benches[k].disk.verdicts)))
  {
    var j := LastWritten(runs, k);
    HeldSince(arms, benches, runs, declined, j, k);
    if IsComplete(benches[k].disk) {
      Written(arms, benches[j - 1], benches[j], runs[j - 1], declined);
      GradedSoFar(benches[j].disk, benches[k].disk);
    }
    forall i | j <= i < k
      ensures !runs[i].returned
    {
      assert BenchLaunched(arms, benches[i], benches[i + 1], runs[i], declined);
    }
  }

  /** One question, whose only call fails. */
  lemma OneFailure(key: Key) returns (asked: seq<History<Answer>>)
    ensures Answered([[key]], [], [], asked, 1, false) && PhaseStop(asked).None? && AllRows(asked) == []
  {
    var h: History<Answer> := Then(Then(Start, Submit(0)), Done(0, Failed("timeout")));
    SilentLossHappens(1);
    NothingRecorded([key]);
    asked := [h];
    assert asked[..0] == [] && AnswerKeys([]) == [];
    assert ArmRun([key], [], h, 1);
  }

  lemma NothingToGrade(declined: string -> bool)
    ensures Graded([], [], [], Judging([], 0, Start, 1, false), declined)
  {
    assert Ungraded([], GradeKeys([])) == [];
  }

  /** The launch returns, and the run reads as complete with nothing answered. */
  lemma CompleteWithNothing(key: Key, declined: string -> bool) returns (c: Bench, p: Process)
    ensures BenchLaunched([[key]], FRESH_BENCH, c, p, declined) && p.returned
    ensures IsComplete(c.disk) && c.disk.answers == [] && c.disk.verdicts == [] && c.envelopes == []
  {
    var asked := OneFailure(key);
    p := Process(1, asked, false, Judging([], 0, Start, 1, false), true, true);
    c := Bench(Disk([], [], Some(COMPLETE), true), []);
    NothingToGrade(declined);
    assert !WasStopped(p) && Reported(FRESH, c.disk, p);
    assert AnswerKeys(AllRows(asked)) == [] == c.envelopes[|FRESH_BENCH.envelopes|..];
  }

  lemma InARow(arms: seq<seq<Key>>, b: Bench, c: Bench, d: Bench, p: Process, q: Process, declined: string -> bool)
    requires BenchLaunched(arms, b, c, p, declined) && BenchLaunched(arms, c, d, q, declined)
    ensures BenchRun(arms, [b, c, d], [p, q], declined)
  {
    var benches, runs := [b, c, d], [p, q];
    forall k | 0 <= k < |runs|
      ensures BenchLaunched(arms, benches[k], benches[k + 1], runs[k], declined)
    {
      assert k == 0 || k == 1;
    }
  }

  /** Launched again and killed after the answer, the run still reads as complete, with an
      answer that no one has graded. */
  lemma CompleteAndUngraded(key: Key, declined: string -> bool) returns (benches: seq<Bench>, runs: seq<Process>)
    ensures BenchRun([[key]], benches, runs, declined) && benches[0] == FRESH_BENCH && |runs| == 2
    ensures IsComplete(benches[2].disk) && !AllGraded(benches[2].disk)
  {
    var c, p := CompleteWithNothing(key, declined);
    var d, q := KilledBeforeGrading([[key]], c, declined);
    benches, runs := [FRESH_BENCH, c, d], [p, q];
    InARow([[key]], FRESH_BENCH, c, d, p, q, declined);
    assert key in AnswerKeys(d.disk.answers) && GradeKeys(d.disk.verdicts) == [];
  }

  /** One question, answered at the first call. */
  lemma OneAnswer(key: Key) returns (asked: seq<History<Answer>>)
    ensures Answered([[key]], [], [Answer(key, "", false, "")], asked, 1, false) && PhaseStop(asked).None?
    ensures AllRows(asked) == [Answer(key, "", false, "")]
  {
    asked := FlawlessPhase([[key]], []);
    FlawlessAnswers([[key]], [], 1, false);
    FlawlessRow(key);
    MoreRows([], Flawless([key]));
    assert AnswerKeys([]) == [] && asked == [] + [Flawless([key])];
    assert [] + AllRows(asked) == AllRows(asked) == [] + Rows(Flawless([key]));
  }

  /** One judge call fails; the launch returns, and the run is incomplete without a stop. */
  lemma OneJudgeFailure(key: Key, declined: string -> bool) returns (c: Bench, p: Process)
    ensures BenchLaunched([[key]], FRESH_BENCH, c, p, declined) && p.returned && !WasStopped(p)
    ensures !IsComplete(c.disk) && AnswerKeys(c.disk.answers) == [key]
  {
    var asked := OneAnswer(key);
    var calls := OneFailedCall();
    c, p := LeftToTheJudge(Answer(key, "", false, ""), asked, calls, declined);
  }

  lemma LeftToTheJudge(row: Answer, asked: seq<History<Answer>>, calls: History<Grade>, declined: string -> bool)
    returns (c: Bench, p: Process)
    requires Answered([[row.key]], [], [row], asked, 1, false) && PhaseStop(asked).None? && AllRows(asked) == [row]
    requires !row.abstain && Disciplined(calls, 1, 1, JUDGE_LIMIT) && Drained(calls, 1, JUDGE_LIMIT)
    requires HealthOf(calls, JUDGE_LIMIT).stop.None? && Rows(calls) == [] && Finishers(calls) == []
    ensures BenchLaunched([[row.key]], FRESH_BENCH, c, p, declined) && p.returned && !WasStopped(p)
    ensures !IsComplete(c.disk) && AnswerKeys(c.disk.answers) == [row.key]
  {
    p := Process(1, asked, false, Judging([row], 0, calls, 1, false), true, true);
    c := Bench(Disk([row], [], Some(Manifest(false, None, Some(1))), true), [row.key]);
    assert !WasStopped(p) && InOrder(p);
    OneMissing(row, p);
    assert AnswerKeys([row]) == [row.key] && [row.key][|FRESH_BENCH.envelopes|..] == [row.key];
    OneRowLeft(row, calls, declined);
  }

  lemma OneMissing(row: Answer, p: Process)
    requires p.wrote && p.returned && !WasStopped(p)
    ensures Reported(FRESH, Disk([row], [], Some(Manifest(false, None, Some(1))), true), p)
  {
    assert [row][..0] == [] && Missing([row], []) == 1;
  }

  lemma OneFailedCall() returns (h: History<Grade>)
    ensures Disciplined(h, 1, 1, JUDGE_LIMIT) && Drained(h, 1, JUDGE_LIMIT)
    ensures HealthOf(h, JUDGE_LIMIT).stop.None? && Rows(h) == [] && Finishers(h) == []
  {
    var none: History<Grade> := Start;
    assert Submitted(none) == 0 && InFlight(none) == {} && HealthOf(none, JUDGE_LIMIT) == Health(0, "", None);
    var asked := Then(none, Submit(0));
    assert Disciplined(asked, 1, 1, JUDGE_LIMIT) && InFlight(asked) == {0} && Submitted(asked) == 1;
    assert HealthOf(asked, JUDGE_LIMIT) == Health(0, "", None) && Rows(asked) == [] && Finishers(asked) == [];
    h := Then(asked, Done(0, Failed("unparseable")));
  }

  /** The one row is left to the judge, whose one call kept nothing. */
  lemma OneRowLeft(row: Answer, calls: History<Grade>, declined: string -> bool)
    requires !row.abstain && Disciplined(calls, 1, 1, JUDGE_LIMIT) && Drained(calls, 1, JUDGE_LIMIT)
    requires Rows(calls) == [] && Finishers(calls) == []
    ensures Graded([row], [], [], Judging([row], 0, calls, 1, false), declined)
  {
    assert [row][1..] == [] && Abstaining([row]) == [] && Judged([row]) == [row];
    assert Ungraded([row], GradeKeys([])) == [row];
    assert [] + (RuleGrades([], declined) + Rows(calls)) == [];
    assert Abstaining([row])[..0] == [];
  }
}
