/** The judge phase: what is answered and not yet graded, abstention rows by rule and the
    rest by a bounded pool of judges. Rows a judge failed on are left for a later run. */
module Judgement {
  import opened Options
  import opened Checkpoint
  import opened Pool
  import opened Offline
  import opened Answering

  // ------------------------------------------------------------------ the split

  function Abstaining(rows: seq<Answer>): seq<Answer> {
    if rows == [] then []
    else if rows[0].abstain then [rows[0]] + Abstaining(rows[1..])
    else Abstaining(rows[1..])
  }

  function Judged(rows: seq<Answer>): seq<Answer> {
    if rows == [] then []
    else if rows[0].abstain then Judged(rows[1..])
    else [rows[0]] + Judged(rows[1..])
  }

  /** Both parts keep the order of the rows. */
  lemma {:induction false} AbstainingJoin(a: seq<Answer>, b: seq<Answer>)
    ensures Abstaining(a + b) == Abstaining(a) + Abstaining(b)
  {
    if a == [] {
      assert a + b == b;
    } else {
      assert (a + b)[1..] == a[1..] + b;
      AbstainingJoin(a[1..], b);
    }
  }

  lemma {:induction false} JudgedJoin(a: seq<Answer>, b: seq<Answer>)
    ensures Judged(a + b) == Judged(a) + Judged(b)
  {
    if a == [] {
      assert a + b == b;
    } else {
      assert (a + b)[1..] == a[1..] + b;
      JudgedJoin(a[1..], b);
    }
  }

  lemma {:induction false} SplitRows(rows: seq<Answer>)
    ensures forall row :: row in Abstaining(rows) <==> row in rows && row.abstain
    ensures forall row :: row in Judged(rows) <==> row in rows && !row.abstain
  {
    if rows != [] {
      SplitRows(rows[1..]);
      assert rows == [rows[0]] + rows[1..];
    }
  }

  lemma HeadCounts(row: Answer, rest: seq<Answer>)
    ensures multiset([row] + rest) == multiset{row} + multiset(rest)
  {
  }

  /** The split loses nothing and doubles nothing. */
  lemma {:induction false} SplitWhole(rows: seq<Answer>)
    ensures multiset(Abstaining(rows)) + multiset(Judged(rows)) == multiset(rows)
  {
    if rows != [] {
      SplitWhole(rows[1..]);
      HeadCounts(rows[0], rows[1..]);
      assert rows == [rows[0]] + rows[1..];
      if rows[0].abstain {
        HeadCounts(rows[0], Abstaining(rows[1..]));
      } else {
        HeadCounts(rows[0], Judged(rows[1..]));
      }
    }
  }

  lemma SameMembers(a: seq<Answer>, b: seq<Answer>)
    requires multiset(a) == multiset(b)
    ensures forall row :: row in a <==> row in b
  {
    assert forall row :: row in a <==> row in multiset(a);
    assert forall row :: row in b <==> row in multiset(b);
  }

  /** Any order of distinctly keyed rows is distinctly keyed. */
  lemma PermutedKeys(a: seq<Answer>, b: seq<Answer>)
    requires multiset(a) == multiset(b) && Distinct(AnswerKeys(b))
    ensures Distinct(AnswerKeys(a))
  {
    SameMembers(a, b);
    forall i, j | 0 <= i < j < |a|
      ensures a[i].key != a[j].key
    {
      if a[i].key == a[j].key {
        assert a[i] in b && a[j] in b;
        var p :| 0 <= p < |b| && b[p] == a[i];
        var q :| 0 <= q < |b| && b[q] == a[j];
        assert AnswerKeys(b)[p] == AnswerKeys(b)[q];
        Twice(a, i, j);
        Once(b, p);
      }
    }
  }

  lemma Twice(a: seq<Answer>, i: nat, j: nat)
    requires i < j < |a| && a[i] == a[j]
    ensures multiset(a)[a[i]] >= 2
  {
    assert a == a[..j] + a[j..];
    assert a[..j][i] == a[i] && a[j..][0] == a[i];
    assert a[i] in a[..j] && a[i] in a[j..];
  }

  lemma Once(b: seq<Answer>, p: nat)
    requires p < |b| && Distinct(AnswerKeys(b))
    ensures multiset(b)[b[p]] == 1
  {
    assert b == b[..p] + [b[p]] + b[p + 1..];
    forall k | 0 <= k < |b| && k != p
      ensures b[k] != b[p]
    {
      assert AnswerKeys(b)[k] != AnswerKeys(b)[p];
    }
    assert b[p] !in b[..p] && b[p] !in b[p + 1..];
  }

  /** So it keeps keys unique. */
  lemma SplitKeys(rows: seq<Answer>)
    requires Distinct(AnswerKeys(rows))
    ensures Distinct(AnswerKeys(Abstaining(rows)) + AnswerKeys(Judged(rows)))
  {
    SplitWhole(rows);
    PermutedKeys(Abstaining(rows) + Judged(rows), rows);
    KeysJoin(Abstaining(rows), Judged(rows));
  }

  /** Every kept verdict grades the row it was asked for, and no judge failure is kept. */
  ghost predicate KeyedGrades(h: History<Grade>, rows: seq<Answer>) {
    && |Finishers(h)| == |Rows(h)|
    && forall k :: 0 <= k < |Rows(h)| ==>
         && Finishers(h)[k] < |rows| && Rows(h)[k].key == rows[Finishers(h)[k]].key
         && Rows(h)[k].gradedBy != "judge_error"
  }

  function RuleGrade(row: Answer, declined: string -> bool): Grade {
    Grade(row.key, declined(row.text), "abstention_rule", "")
  }

  function RuleGrades(rows: seq<Answer>, declined: string -> bool): seq<Grade> {
    seq(|rows|, i requires 0 <= i < |rows| => RuleGrade(rows[i], declined))
  }

  /** New verdicts on abstention rows are the rule's; a judge saw none of them. */
  ghost predicate ByRule(answers: seq<Answer>, before: seq<Grade>, after: seq<Grade>, declined: string -> bool) {
    forall k, row :: |before| <= k < |after| && row in answers && row.key == after[k].key && row.abstain ==>
      after[k] == RuleGrade(row, declined)
  }

  /** `g` grades `row`, by the rule if the row expects abstention. */
  ghost predicate Grades(g: Grade, row: Answer, declined: string -> bool) {
    g.key == row.key && g.gradedBy != "judge_error" && (row.abstain ==> g == RuleGrade(row, declined))
  }

  /** Each verdict of a phase grades one of its rows. */
  ghost predicate FromRows(grades: seq<Grade>, rows: seq<Answer>, declined: string -> bool) {
    forall k :: 0 <= k < |grades| ==> GradesOneOf(grades[k], rows, declined)
  }

  ghost predicate GradesOneOf(g: Grade, rows: seq<Answer>, declined: string -> bool) {
    exists row :: row in rows && Grades(g, row, declined)
  }

  lemma RuledFromRows(rows: seq<Answer>, ruled: nat, declined: string -> bool)
    requires ruled <= |Abstaining(rows)|
    ensures FromRows(RuleGrades(Abstaining(rows)[..ruled], declined), rows, declined)
  {
    SplitRows(rows);
    var grades := RuleGrades(Abstaining(rows)[..ruled], declined);
    forall k | 0 <= k < |grades|
      ensures GradesOneOf(grades[k], rows, declined)
    {
      assert Abstaining(rows)[k] in Abstaining(rows);
      assert Grades(grades[k], Abstaining(rows)[k], declined);
    }
  }

  lemma PooledFromRows(rows: seq<Answer>, h: History<Grade>, declined: string -> bool)
    requires KeyedGrades(h, Judged(rows))
    ensures FromRows(Rows(h), rows, declined)
  {
    SplitRows(rows);
    forall k | 0 <= k < |Rows(h)|
      ensures GradesOneOf(Rows(h)[k], rows, declined)
    {
      var row := Judged(rows)[Finishers(h)[k]];
      assert row in Judged(rows) && Grades(Rows(h)[k], row, declined);
    }
  }

  /** A phase's verdicts on its judged rows are on those rows, each once. */
  lemma PooledKeys(rows: seq<Answer>, h: History<Grade>, width: nat)
    requires Distinct(AnswerKeys(rows)) && Disciplined(h, |rows|, width, JUDGE_LIMIT) && KeyedGrades(h, rows)
    ensures Distinct(GradeKeys(Rows(h))) && forall key :: key in GradeKeys(Rows(h)) ==> key in AnswerKeys(rows)
  {
    KeptKeys(h, width, JUDGE_LIMIT, AnswerKeys(rows), GradeKeys(Rows(h)));
  }

  lemma RuledKeys(rows: seq<Answer>, ruled: nat, declined: string -> bool)
    requires ruled <= |rows|
    ensures GradeKeys(RuleGrades(rows[..ruled], declined)) == AnswerKeys(rows)[..ruled]
  {
  }

  lemma PrefixApart(a: seq<Key>, n: nat, b: seq<Key>)
    requires n <= |a| && Distinct(a) && Distinct(b) && forall key :: key in b ==> key !in a
    ensures Distinct(a[..n] + b)
  {
    JoinFresh(a[..n], b);
  }

  /** No row is graded twice in a phase: neither by the rule, nor by the judge, nor
      once by each. */
  lemma PhaseKeys(rows: seq<Answer>, ruled: nat, h: History<Grade>, width: nat, declined: string -> bool)
    requires Distinct(AnswerKeys(rows)) && ruled <= |Abstaining(rows)|
    requires Disciplined(h, |Judged(rows)|, width, JUDGE_LIMIT) && KeyedGrades(h, Judged(rows))
    ensures Distinct(GradeKeys(RuleGrades(Abstaining(rows)[..ruled], declined) + Rows(h)))
  {
    SplitKeys(rows);
    DistinctHalves(AnswerKeys(Abstaining(rows)), AnswerKeys(Judged(rows)));
    PooledKeys(Judged(rows), h, width);
    RuledKeys(Abstaining(rows), ruled, declined);
    PrefixApart(AnswerKeys(Abstaining(rows)), ruled, GradeKeys(Rows(h)));
    GradeKeysJoin(RuleGrades(Abstaining(rows)[..ruled], declined), Rows(h));
  }

  /** New verdicts, each grading a row left ungraded, are a sound extension of the file. */
  lemma PhaseGrades(answers: seq<Answer>, before: seq<Grade>, rows: seq<Answer>, added: seq<Grade>,
                    declined: string -> bool)
    requires multiset(rows) == multiset(Ungraded(answers, GradeKeys(before)))
    requires FromRows(added, rows, declined)
    requires Distinct(AnswerKeys(answers)) ==> Distinct(GradeKeys(added))
    ensures JudgeStep(answers, before, before + added)
    ensures Distinct(AnswerKeys(answers)) ==> ByRule(answers, before, before + added, declined)
  {
    var left := Ungraded(answers, GradeKeys(before));
    SameMembers(rows, left);
    SameSource(added, rows, left, declined);
    NewKeys(answers, GradeKeys(before), added, declined);
    AddedGrades(answers, before, added);
    if Distinct(AnswerKeys(answers)) {
      RuleExtends(answers, before, added, declined);
    }
  }

  lemma RuleExtends(answers: seq<Answer>, before: seq<Grade>, added: seq<Grade>, declined: string -> bool)
    requires Distinct(AnswerKeys(answers)) && FromRows(added, Ungraded(answers, GradeKeys(before)), declined)
    ensures ByRule(answers, before, before + added, declined)
  {
    var after := before + added;
    forall k, row | |before| <= k < |after| && row in answers && row.key == after[k].key && row.abstain
      ensures after[k] == RuleGrade(row, declined)
    {
      assert after[k] == added[k - |before|];
      RuleWins(answers, GradeKeys(before), added, k - |before|, row, declined);
    }
  }

  lemma RuleWins(answers: seq<Answer>, have: seq<Key>, added: seq<Grade>, k: nat, row: Answer, declined: string -> bool)
    requires Distinct(AnswerKeys(answers)) && FromRows(added, Ungraded(answers, have), declined)
    requires k < |added| && row in answers && row.key == added[k].key && row.abstain
    ensures added[k] == RuleGrade(row, declined)
  {
    assert GradesOneOf(added[k], Ungraded(answers, have), declined);
    var other :| other in Ungraded(answers, have) && Grades(added[k], other, declined);
    SameKeySameRow(answers, have, row, other);
  }

  lemma SameSource(added: seq<Grade>, rows: seq<Answer>, left: seq<Answer>, declined: string -> bool)
    requires FromRows(added, rows, declined) && forall row :: row in rows <==> row in left
    ensures FromRows(added, left, declined)
  {
    forall k | 0 <= k < |added|
      ensures GradesOneOf(added[k], left, declined)
    {
      assert GradesOneOf(added[k], rows, declined);
      var row :| row in rows && Grades(added[k], row, declined);
      assert row in left;
    }
  }

  /** Verdicts on rows left ungraded carry keys that are answered and were ungraded. */
  lemma NewKeys(answers: seq<Answer>, have: seq<Key>, added: seq<Grade>, declined: string -> bool)
    requires FromRows(added, Ungraded(answers, have), declined)
    ensures forall k :: 0 <= k < |added| ==>
      added[k].key in AnswerKeys(answers) && added[k].key !in have && added[k].gradedBy != "judge_error"
  {
    var left := Ungraded(answers, have);
    UngradedKeys(answers, have);
    forall k | 0 <= k < |added|
      ensures added[k].key in AnswerKeys(answers) && added[k].key !in have && added[k].gradedBy != "judge_error"
    {
      assert GradesOneOf(added[k], left, declined);
      var row :| row in left && Grades(added[k], row, declined);
      var m :| 0 <= m < |left| && left[m] == row;
      assert AnswerKeys(left)[m] == added[k].key;
    }
  }

  lemma SameKeySameRow(answers: seq<Answer>, have: seq<Key>, row: Answer, other: Answer)
    requires Distinct(AnswerKeys(answers)) && row in answers && other in Ungraded(answers, have) && row.key == other.key
    ensures row == other
  {
    UngradedSubset(answers, have);
    var i :| 0 <= i < |answers| && answers[i] == row;
    var j :| 0 <= j < |answers| && answers[j] == other;
    assert AnswerKeys(answers)[i] == AnswerKeys(answers)[j];
  }

  /** `order` only reorders. */
  ghost predicate Permutes(order: seq<Answer> -> seq<Answer>) {
    forall rows :: SameRows(order(rows), rows)
  }

  ghost predicate SameRows(a: seq<Answer>, b: seq<Answer>) {
    multiset(a) == multiset(b)
  }

  // ------------------------------------------------------------------ the phase

  /** What a grading phase did with the rows in its order: the first `ruled` abstention rows
      by rule, then the calls of the pool. */
  datatype JudgeRun = Skipped | Judging(rows: seq<Answer>, ruled: nat, calls: History<Grade>, width: nat, died: bool)

  function JudgeStop(j: JudgeRun): Option<Stop> {
    if j.Skipped? then None else HealthOf(j.calls, JUDGE_LIMIT).stop
  }

  ghost predicate Graded(answers: seq<Answer>, before: seq<Grade>, after: seq<Grade>, j: JudgeRun,
                         declined: string -> bool) {
    match j
    case Skipped => after == before
    case Judging(rows, ruled, calls, width, died) =>
      && multiset(rows) == multiset(Ungraded(answers, GradeKeys(before)))
      && ruled <= |Abstaining(rows)|
      && Disciplined(calls, |Judged(rows)|, width, JUDGE_LIMIT) && KeyedGrades(calls, Judged(rows))
      && after == before + (RuleGrades(Abstaining(rows)[..ruled], declined) + Rows(calls))
      && (!died ==> ruled == |Abstaining(rows)| && Drained(calls, |Judged(rows)|, JUDGE_LIMIT))
  }

  /** `g` is the verdict on one of `rows`: on an abstention row, correct exactly when its text
      declined; on any other, what the judge said. */
  ghost predicate VerdictOn(grade: (nat, Answer) -> Outcome<Grade>, declined: string -> bool, rows: seq<Answer>,
                            g: Grade) {
    exists row :: row in rows &&
      if row.abstain
      then g.key == row.key && (g.correct <==> declined(row.text)) && g.gradedBy == "abstention_rule" && g.error == ""
      else JudgedAs(grade, row, Ok(g))
  }

  ghost predicate VerdictsOn(grade: (nat, Answer) -> Outcome<Grade>, declined: string -> bool, rows: seq<Answer>,
                             verdicts: seq<Grade>, from: nat) {
    forall k :: from <= k < |verdicts| ==> VerdictOn(grade, declined, rows, verdicts[k])
  }

  lemma VerdictsAre(grade: (nat, Answer) -> Outcome<Grade>, declined: string -> bool, rows: seq<Answer>, ruled: nat,
                    calls: History<Grade>, before: seq<Grade>)
    requires ruled <= |Abstaining(rows)| && AllJudgedAs(calls, Judged(rows), grade)
    ensures var byRule := RuleGrades(Abstaining(rows)[..ruled], declined);
      VerdictsOn(grade, declined, rows, before + (byRule + Rows(calls)), |before|)
  {
    SplitRows(rows);
    RowsWereJudged(calls, Judged(rows), grade);
    var byRule := RuleGrades(Abstaining(rows)[..ruled], declined);
    forall k | 0 <= k < |byRule|
      ensures VerdictOn(grade, declined, rows, byRule[k])
    {
      assert Abstaining(rows)[k] in Abstaining(rows);
    }
    forall k | 0 <= k < |Rows(calls)|
      ensures VerdictOn(grade, declined, rows, Rows(calls)[k])
    {
      assert WasJudged(grade, Judged(rows), Rows(calls)[k]);
    }
  }

  lemma VerdictsOnSame(grade: (nat, Answer) -> Outcome<Grade>, declined: string -> bool, rows: seq<Answer>,
                       left: seq<Answer>, verdicts: seq<Grade>, from: nat)
    requires VerdictsOn(grade, declined, rows, verdicts, from) && forall row :: row in rows ==> row in left
    ensures VerdictsOn(grade, declined, left, verdicts, from)
  {
    forall k | from <= k < |verdicts|
      ensures VerdictOn(grade, declined, left, verdicts[k])
    {
      assert VerdictOn(grade, declined, rows, verdicts[k]);
    }
  }

  /** Grades what is ungraded, in the given order. */
  method JudgePhase(answers: JsonlFile<Answer>, verdicts: JsonlFile<Grade>, order: seq<Answer> -> seq<Answer>,
                    grade: (nat, Answer) -> Outcome<Grade>, declined: string -> bool, concurrency: int, mayDie: bool)
    returns (stop: Option<Stop>, crashed: bool, ghost j: JudgeRun)
    requires (answers as object) != verdicts && Permutes(order)
    modifies verdicts
    ensures Graded(answers.rows, old(verdicts.rows), verdicts.rows, j, declined)
    ensures j.Judging? && j.rows == order(Ungraded(answers.rows, GradeKeys(old(verdicts.rows))))
    ensures j.width == Width(concurrency) && j.died == crashed && if crashed then mayDie else stop == JudgeStop(j)
    ensures VerdictsOn(grade, declined, Ungraded(answers.rows, GradeKeys(old(verdicts.rows))), verdicts.rows,
                       |old(verdicts.rows)|)
    ensures AllJudgedAs(j.calls, Judged(j.rows), grade) && StopMeans(j.calls, 5, stop)
  {
    var left := Ungraded(answers.rows, GradeKeys(verdicts.rows));
    assert SameRows(order(left), left);
    var rows := order(left);
    ghost var before := verdicts.rows;
    ghost var history: History<Grade> := Start;
    var ruled;
    stop := None;
    ruled, crashed := RulePass(verdicts, Abstaining(rows), declined, mayDie);
    ghost var byRule := RuleGrades(Abstaining(rows)[..ruled], declined);
    if !crashed {
      var done, health;
      done, health, crashed, history := Run(verdicts, Judged(rows), Grading(grade), concurrency, JUDGE_LIMIT,
                                           mayDie);
      stop := health.stop;
      KeptGrades(Judged(rows), history, grade);
      CallsAreGrades(history, Judged(rows), grade);
    }
    Regroup(before, byRule, Rows(history));
    SameMembers(rows, left);
    assert verdicts.rows == before + (byRule + Rows(history));
    VerdictsAre(grade, declined, rows, ruled, history, before);
    VerdictsOnSame(grade, declined, rows, left, verdicts.rows, |before|);
    j := Judging(rows, ruled, history, Width(concurrency), crashed);
  }

  /** The abstention rows, graded inline. */
  method RulePass(verdicts: JsonlFile<Grade>, rows: seq<Answer>, declined: string -> bool, mayDie: bool)
    returns (ruled: nat, crashed: bool)
    modifies verdicts
    ensures ruled <= |rows| && if crashed then mayDie else ruled == |rows|
    ensures verdicts.rows == old(verdicts.rows) + RuleGrades(rows[..ruled], declined)
  {
    ruled, crashed := 0, false;
    while ruled < |rows|
      invariant ruled <= |rows| && !crashed
      invariant verdicts.rows == old(verdicts.rows) + RuleGrades(rows[..ruled], declined)
    {
      var dies: bool := *;
      if mayDie && dies {
        crashed := true;
        return;
      }
      verdicts.Append(RuleGrade(rows[ruled], declined));
      assert RuleGrades(rows[..ruled + 1], declined) ==
        RuleGrades(rows[..ruled], declined) + [RuleGrade(rows[ruled], declined)];
      ruled := ruled + 1;
    }
  }

  /** The verdicts of a grading phase extend the file soundly, whatever keys were answered
      twice; and with unique answers, abstention rows are graded by the rule alone. */
  lemma GradesSoundly(answers: seq<Answer>, before: seq<Grade>, after: seq<Grade>, j: JudgeRun, declined: string -> bool)
    requires Graded(answers, before, after, j, declined)
    ensures JudgeStep(answers, before, after)
    ensures Distinct(AnswerKeys(answers)) ==> ByRule(answers, before, after, declined)
  {
    if j.Judging? {
      var left := Ungraded(answers, GradeKeys(before));
      var byRule := RuleGrades(Abstaining(j.rows)[..j.ruled], declined);
      if Distinct(AnswerKeys(answers)) {
        UngradedKeys(answers, GradeKeys(before));
        PermutedKeys(j.rows, left);
        PhaseKeys(j.rows, j.ruled, j.calls, j.width, declined);
      }
      RuledFromRows(j.rows, j.ruled, declined);
      PooledFromRows(j.rows, j.calls, declined);
      PhaseGrades(answers, before, j.rows, byRule + Rows(j.calls), declined);
    }
  }

  // ------------------------------------------------- when it leaves a row ungraded

  lemma RuledIsGraded(rows: seq<Answer>, declined: string -> bool, row: Answer)
    requires row in rows
    ensures row.key in GradeKeys(RuleGrades(rows, declined))
  {
    var k :| 0 <= k < |rows| && rows[k] == row;
    assert GradeKeys(RuleGrades(rows, declined))[k] == row.key;
  }

  lemma JudgedIsGraded(rows: seq<Answer>, calls: History<Grade>, width: nat, row: Answer)
    requires Disciplined(calls, |rows|, width, JUDGE_LIMIT) && KeyedGrades(calls, rows)
    requires Drained(calls, |rows|, JUDGE_LIMIT) && Losses(calls) == 0 && row in rows
    ensures row.key in GradeKeys(Rows(calls))
  {
    var i: nat :| i < |rows| && rows[i] == row;
    NothingMissed(calls, |rows|, width);
    assert i in Finishers(calls);
    var k :| 0 <= k < |Finishers(calls)| && Finishers(calls)[k] == i;
    assert GradeKeys(Rows(calls))[k] == row.key;
  }

  /** With nothing lost, every row of the split has its verdict. */
  lemma AllRowsGraded(rows: seq<Answer>, calls: History<Grade>, width: nat, declined: string -> bool, row: Answer)
    requires Disciplined(calls, |Judged(rows)|, width, JUDGE_LIMIT) && KeyedGrades(calls, Judged(rows))
    requires Drained(calls, |Judged(rows)|, JUDGE_LIMIT) && Losses(calls) == 0 && row in rows
    ensures row.key in GradeKeys(RuleGrades(Abstaining(rows), declined) + Rows(calls))
  {
    SplitRows(rows);
    GradeKeysJoin(RuleGrades(Abstaining(rows), declined), Rows(calls));
    if row.abstain {
      RuledIsGraded(Abstaining(rows), declined, row);
    } else {
      JudgedIsGraded(Judged(rows), calls, width, row);
    }
  }

  lemma NothingMissed(calls: History<Grade>, n: nat, width: nat)
    requires Disciplined(calls, n, width, JUDGE_LIMIT) && Drained(calls, n, JUDGE_LIMIT) && Losses(calls) == 0
    ensures |Rows(calls)| == n && forall i: nat :: i < n ==> i in Finishers(calls)
  {
    if HealthOf(calls, JUDGE_LIMIT).stop.Some? {
      StopMeansALoss(calls, JUDGE_LIMIT);
    }
    Accounting(calls, n, width, JUDGE_LIMIT);
    FullRange(Finishers(calls), n);
  }

  /** Every answer is in the rows to grade or was graded before. */
  lemma AnswersOrRows(answers: seq<Answer>, have: seq<Key>, rows: seq<Answer>, key: Key)
    requires multiset(rows) == multiset(Ungraded(answers, have)) && key in AnswerKeys(answers) && key !in have
    ensures exists row :: row in rows && row.key == key
  {
    var left := Ungraded(answers, have);
    SameMembers(rows, left);
    UngradedKeys(answers, have);
    assert key in AnswerKeys(left);
    var k :| 0 <= k < |left| && AnswerKeys(left)[k] == key;
    assert left[k] in rows;
  }

  lemma CoveredIfNoneLost(answers: seq<Answer>, before: seq<Grade>, after: seq<Grade>, j: JudgeRun,
                          declined: string -> bool)
    requires Graded(answers, before, after, j, declined) && j.Judging? && !j.died && Losses(j.calls) == 0
    ensures Covers(answers, after)
  {
    var added := RuleGrades(Abstaining(j.rows), declined) + Rows(j.calls);
    assert Abstaining(j.rows)[..j.ruled] == Abstaining(j.rows);
    GradeKeysJoin(before, added);
    forall key | key in AnswerKeys(answers) && key !in GradeKeys(before)
      ensures key in GradeKeys(added)
    {
      AnswersOrRows(answers, GradeKeys(before), j.rows, key);
      var row :| row in j.rows && row.key == key;
      AllRowsGraded(j.rows, j.calls, j.width, declined, row);
    }
  }

  lemma EnoughGrades(left: seq<Answer>, rows: seq<Answer>, ruled: nat, calls: History<Grade>, width: nat,
                     declined: string -> bool)
    requires multiset(rows) == multiset(left) && ruled <= |Abstaining(rows)|
    requires Disciplined(calls, |Judged(rows)|, width, JUDGE_LIMIT)
    requires |left| <= |RuleGrades(Abstaining(rows)[..ruled], declined) + Rows(calls)|
    ensures Losses(calls) == 0
  {
    SplitWhole(rows);
    assert |Abstaining(rows) + Judged(rows)| == |multiset(rows)| == |multiset(left)| == |left|;
    Accounting(calls, |Judged(rows)|, width, JUDGE_LIMIT);
    InFlightBounded(calls, |Judged(rows)|, width, JUDGE_LIMIT);
  }

  lemma NoneLostIfCovered(answers: seq<Answer>, before: seq<Grade>, after: seq<Grade>, j: JudgeRun,
                          declined: string -> bool)
    requires Graded(answers, before, after, j, declined) && j.Judging?
    requires Distinct(AnswerKeys(answers)) && Covers(answers, after)
    ensures Losses(j.calls) == 0
  {
    var left := Ungraded(answers, GradeKeys(before));
    var added := RuleGrades(Abstaining(j.rows)[..j.ruled], declined) + Rows(j.calls);
    UngradedKeys(answers, GradeKeys(before));
    GradeKeysJoin(before, added);
    Longest(GradeKeys(added), AnswerKeys(left));
    EnoughGrades(left, j.rows, j.ruled, j.calls, j.width, declined);
  }

  /** A phase that was not killed has graded everything exactly when no judge call was lost:
      a quota, a tripped breaker, and a lone failure, which the phase does not report, each
      leave a row ungraded. */
  lemma AllGradedExactlyWhen(answers: seq<Answer>, before: seq<Grade>, after: seq<Grade>, j: JudgeRun,
                             declined: string -> bool)
    requires Graded(answers, before, after, j, declined) && j.Judging? && !j.died
    requires Distinct(AnswerKeys(answers))
    ensures Covers(answers, after) <==> Losses(j.calls) == 0
    ensures JudgeStop(j).Some? ==> !Covers(answers, after)
  {
    if Losses(j.calls) == 0 {
      CoveredIfNoneLost(answers, before, after, j, declined);
    }
    if Covers(answers, after) {
      NoneLostIfCovered(answers, before, after, j, declined);
    }
    if JudgeStop(j).Some? {
      StopMeansALoss(j.calls, JUDGE_LIMIT);
    }
  }
}
