/** An offline pass: re-read saved envelopes, grade the new answers, and finish;
    with the directory it leaves behind, and what the supervisor reads off it. */
module Offline {
  import opened Options
  import opened Checkpoint
  import opened Pool

  datatype Key = Key(arm: string, question: string)

  datatype Answer = Answer(key: Key, text: string, abstain: bool, error: string)

  datatype Grade = Grade(key: Key, correct: bool, gradedBy: string, error: string)

  /** `ungraded` is absent from the manifest of a stopped pass. */
  datatype Manifest = Manifest(quotaStop: bool, reason: Option<Stop>, ungraded: Option<int>)

  /** What is on disk, as a value. */
  datatype Disk = Disk(answers: seq<Answer>, verdicts: seq<Grade>, manifest: Option<Manifest>, report: bool)

  datatype Result = Result(answer: Answer, grade: Grade)

  const FRESH := Disk([], [], None, false)

  const READ_LIMIT: nat := 8
  const JUDGE_LIMIT: nat := 5

  datatype Exit = Finished | Stopped(reason: Stop) | Crashed

  function AnswerKeys(rows: seq<Answer>): seq<Key> {
    seq(|rows|, i requires 0 <= i < |rows| => rows[i].key)
  }

  function GradeKeys(rows: seq<Grade>): seq<Key> {
    seq(|rows|, i requires 0 <= i < |rows| => rows[i].key)
  }

  /** A reader row whose `error` is set is a failure, whatever its text. */
  function ReadOutcome(outcome: Outcome<Answer>): Outcome<Answer> {
    if outcome.Ok? && outcome.row.error != "" then Failed(outcome.row.error) else outcome
  }

  /** A verdict is recorded under the key of the row it grades, unless the judge
      itself failed. */
  function JudgeOutcome(row: Answer, outcome: Outcome<Grade>): Outcome<Grade> {
    match outcome
    case Ok(grade) => if grade.gradedBy == "judge_error" then Failed(grade.error) else Ok(grade.(key := row.key))
    case _ => outcome
  }

  /** `bench.supervise.is_complete`. */
  predicate IsComplete(d: Disk) {
    && d.report
    && d.manifest.Some?
    && !d.manifest.value.quotaStop
    && d.manifest.value.ungraded == Some(0)
  }

  // ------------------------------------------------------- what a directory means

  ghost predicate AllAnswered(todo: seq<Key>, answers: seq<Answer>) {
    forall key :: key in todo ==> key in AnswerKeys(answers)
  }

  ghost predicate Covers(answers: seq<Answer>, verdicts: seq<Grade>) {
    forall key :: key in AnswerKeys(answers) ==> key in GradeKeys(verdicts)
  }

  ghost predicate AllGraded(d: Disk) {
    Covers(d.answers, d.verdicts)
  }

  /** Nothing failed was ever recorded, no key was recorded twice, and only
      answered questions were graded. */
  ghost predicate Clean(d: Disk) {
    && (forall row :: row in d.answers ==> row.error == "")
    && (forall grade :: grade in d.verdicts ==> grade.gradedBy != "judge_error")
    && Distinct(AnswerKeys(d.answers)) && Distinct(GradeKeys(d.verdicts))
    && (forall key :: key in GradeKeys(d.verdicts) ==> key in AnswerKeys(d.answers))
  }

  /** A manifest that reads as complete is true of the rows beside it. */
  ghost predicate Honest(d: Disk, todo: seq<Key>) {
    d.manifest.Some? && !d.manifest.value.quotaStop && d.manifest.value.ungraded == Some(0)
    ==> AllAnswered(todo, d.answers) && AllGraded(d)
  }

  const COMPLETE := Manifest(false, None, Some(0))

  ghost predicate AllDone(todo: seq<Key>, d: Disk) {
    AllAnswered(todo, d.answers) && AllGraded(d)
  }

  /** One process run over `todo`, from disk `d` to disk `e`, as its exit reports it.
      A run killed while it reports a stop, or between the manifest and the report,
      leaves the new manifest beside the old report. */
  ghost predicate Launched(todo: seq<Key>, d: Disk, e: Disk, exit: Exit) {
    && ReadStep(todo, d.answers, e.answers)
    && JudgeStep(e.answers, d.verdicts, e.verdicts)
    && match exit
       case Finished => AllDone(todo, e) && e.manifest == Some(COMPLETE) && e.report
       case Stopped(reason) =>
         && e.manifest == Some(Manifest(true, Some(reason), None)) && e.report == d.report
         && (Distinct(todo) && Clean(d) ==> !AllDone(todo, e))
       case Crashed =>
         && e.report == d.report
         && (|| e.manifest == d.manifest
             || (e.manifest.Some? && e.manifest.value.quotaStop)
             || (AllDone(todo, e) && e.manifest == Some(COMPLETE)))
  }

  // ----------------------------------------------------------- from pool to rows

  /** The rows a pass over `items` kept, by key: each is one of the items, none
      twice, and the pass reports no stop exactly when every item has its row. */
  lemma KeptKeys<R>(h: History<R>, width: nat, limit: nat, items: seq<Key>, kept: seq<Key>)
    requires Disciplined(h, |items|, width, limit)
    requires |kept| == |Finishers(h)|
    requires forall k :: 0 <= k < |kept| ==> Finishers(h)[k] < |items| && kept[k] == items[Finishers(h)[k]]
    ensures forall key :: key in kept ==> key in items
    ensures Distinct(items) ==> Distinct(kept)
    ensures Drained(h, |items|, limit) && Report(h, |items|, limit).None? ==> forall key :: key in items ==> key in kept
    ensures Drained(h, |items|, limit) && Report(h, |items|, limit).Some? && Distinct(items) ==>
              exists key :: key in items && key !in kept
  {
    Accounting(h, |items|, width, limit);
    if Drained(h, |items|, limit) {
      NoStopExactlyWhenAllKept(h, |items|, width, limit);
      if Report(h, |items|, limit).None? {
        forall key | key in items
          ensures key in kept
        {
          var i :| 0 <= i < |items| && items[i] == key;
          assert i in Finishers(h);
          var k :| 0 <= k < |kept| && Finishers(h)[k] == i;
          assert kept[k] == key;
        }
      } else if Distinct(items) {
        var i: nat :| i < |items| && i !in Finishers(h);
        assert items[i] !in kept;
      }
    }
  }

  // ------------------------------------------------------------ passes as steps

  function Unanswered(todo: seq<Key>, have: seq<Key>): (left: seq<Key>)
    ensures forall key :: key in left <==> key in todo && key !in have
    ensures Distinct(todo) ==> Distinct(left)
  {
    if todo == [] then [] else
    var rest := Unanswered(todo[1..], have);
    if todo[0] in have then rest else [todo[0]] + rest
  }

  function Ungraded(answers: seq<Answer>, have: seq<Key>): seq<Answer> {
    if answers == [] then []
    else if answers[0].key in have then Ungraded(answers[1..], have)
    else [answers[0]] + Ungraded(answers[1..], have)
  }

  /** What is left to grade keeps its order and its repetitions, and so, by its keys, does what
      is left to ask. */
  lemma {:induction false} UngradedJoin(a: seq<Answer>, b: seq<Answer>, have: seq<Key>)
    ensures Ungraded(a + b, have) == Ungraded(a, have) + Ungraded(b, have)
  {
    if a == [] {
      assert a + b == b;
    } else {
      assert (a + b)[1..] == a[1..] + b;
      UngradedJoin(a[1..], b, have);
    }
  }

  lemma UngradedOne(row: Answer, have: seq<Key>)
    ensures Ungraded([row], have) == if row.key in have then [] else [row]
  {
    assert [row][1..] == [];
  }

  lemma {:induction false} UngradedKeys(answers: seq<Answer>, have: seq<Key>)
    ensures AnswerKeys(Ungraded(answers, have)) == Unanswered(AnswerKeys(answers), have)
  {
    if answers != [] {
      var rest := Ungraded(answers[1..], have);
      UngradedKeys(answers[1..], have);
      assert AnswerKeys(answers)[1..] == AnswerKeys(answers[1..]);
      assert AnswerKeys([answers[0]] + rest) == [answers[0].key] + AnswerKeys(rest);
    }
  }

  lemma {:induction false} UngradedSubset(answers: seq<Answer>, have: seq<Key>)
    ensures forall row :: row in Ungraded(answers, have) ==> row in answers
  {
    if answers != [] {
      UngradedSubset(answers[1..], have);
    }
  }

  function Reading(read: (nat, Key) -> Outcome<Answer>): (nat, Key) -> Outcome<Answer> {
    (tick: nat, key: Key) => ReadOutcome(read(tick, key))
  }

  function Grading(grade: (nat, Answer) -> Outcome<Grade>): (nat, Answer) -> Outcome<Grade> {
    (tick: nat, row: Answer) => JudgeOutcome(row, grade(tick, row))
  }

  // ------------------------------------------------- what the workers came back with

  /** A read of `key` ended as `outcome`: a row without an error is kept as it came. */
  ghost predicate ReadAs(read: (nat, Key) -> Outcome<Answer>, key: Key, outcome: Outcome<Answer>) {
    exists tick: nat ::
      var raw := read(tick, key);
      match outcome
      case Ok(row) => raw == Ok(row) && row.error == ""
      case Failed(error) => raw == Failed(error) || (raw.Ok? && raw.row.error == error != "")
      case Quota(message) => raw == Quota(message)
  }

  /** A grading of `row` ended as `outcome`: a verdict is the judge's, under the key of the
      row, unless the judge says it failed. */
  ghost predicate JudgedAs(grade: (nat, Answer) -> Outcome<Grade>, row: Answer, outcome: Outcome<Grade>) {
    exists tick: nat ::
      var raw := grade(tick, row);
      match outcome
      case Ok(g) =>
        && raw.Ok? && raw.row.gradedBy != "judge_error" && g.key == row.key
        && g.correct == raw.row.correct && g.gradedBy == raw.row.gradedBy && g.error == raw.row.error
      case Failed(error) =>
        raw == Failed(error) || (raw.Ok? && raw.row.gradedBy == "judge_error" && raw.row.error == error)
      case Quota(message) => raw == Quota(message)
  }

  ghost predicate AllReadAs(h: History<Answer>, left: seq<Key>, read: (nat, Key) -> Outcome<Answer>) {
    forall c :: c in Completions(h) ==> c.0 < |left| && ReadAs(read, left[c.0], c.1)
  }

  ghost predicate AllJudgedAs(h: History<Grade>, left: seq<Answer>, grade: (nat, Answer) -> Outcome<Grade>) {
    forall c :: c in Completions(h) ==> c.0 < |left| && JudgedAs(grade, left[c.0], c.1)
  }

  lemma CallsAreReads(h: History<Answer>, left: seq<Key>, read: (nat, Key) -> Outcome<Answer>)
    requires FromCalls(h, left, Reading(read))
    ensures AllReadAs(h, left, read)
  {
    forall c | c in Completions(h)
      ensures c.0 < |left| && ReadAs(read, left[c.0], c.1)
    {
      assert Returned(Reading(read), left[c.0], c.1);
      var tick: nat :| Reading(read)(tick, left[c.0]) == c.1;
      assert ReadOutcome(read(tick, left[c.0])) == c.1;
    }
  }

  lemma CallsAreGrades(h: History<Grade>, left: seq<Answer>, grade: (nat, Answer) -> Outcome<Grade>)
    requires FromCalls(h, left, Grading(grade))
    ensures AllJudgedAs(h, left, grade)
  {
    forall c | c in Completions(h)
      ensures c.0 < |left| && JudgedAs(grade, left[c.0], c.1)
    {
      assert Returned(Grading(grade), left[c.0], c.1);
      var tick: nat :| Grading(grade)(tick, left[c.0]) == c.1;
      assert JudgeOutcome(left[c.0], grade(tick, left[c.0])) == c.1;
    }
  }

  /** The answers from `from` on are rows that some read came back with, unchanged. */
  ghost predicate AsRead(read: (nat, Key) -> Outcome<Answer>, rows: seq<Answer>, from: nat) {
    forall k :: from <= k < |rows| ==> WasRead(read, rows[k])
  }

  ghost predicate WasRead(read: (nat, Key) -> Outcome<Answer>, row: Answer) {
    row.error == "" && exists tick: nat :: read(tick, row.key) == Ok(row)
  }

  /** The verdicts from `from` on are the judge's on rows of `asked`. */
  ghost predicate AsJudged(grade: (nat, Answer) -> Outcome<Grade>, asked: seq<Answer>, rows: seq<Grade>, from: nat) {
    forall k :: from <= k < |rows| ==> WasJudged(grade, asked, rows[k])
  }

  ghost predicate WasJudged(grade: (nat, Answer) -> Outcome<Grade>, asked: seq<Answer>, g: Grade) {
    exists row :: row in asked && JudgedAs(grade, row, Ok(g))
  }

  lemma RowsWereRead(h: History<Answer>, left: seq<Key>, read: (nat, Key) -> Outcome<Answer>)
    requires AllReadAs(h, left, read)
    requires forall tick, key :: read(tick, key).Ok? ==> read(tick, key).row.key == key
    ensures AsRead(read, Rows(h), 0)
  {
    forall k | 0 <= k < |Rows(h)|
      ensures WasRead(read, Rows(h)[k])
    {
      var item := RowCompleted(h, k);
      assert ReadAs(read, left[item], Ok(Rows(h)[k]));
      var tick: nat :| read(tick, left[item]) == Ok(Rows(h)[k]);
    }
  }

  lemma RowsWereJudged(h: History<Grade>, left: seq<Answer>, grade: (nat, Answer) -> Outcome<Grade>)
    requires AllJudgedAs(h, left, grade)
    ensures AsJudged(grade, left, Rows(h), 0)
  {
    forall k | 0 <= k < |Rows(h)|
      ensures WasJudged(grade, left, Rows(h)[k])
    {
      var item := RowCompleted(h, k);
      assert left[item] in left && JudgedAs(grade, left[item], Ok(Rows(h)[k]));
    }
  }

  /** Rows added by reading: clean, asked for, and new. */
  ghost predicate ReadStep(todo: seq<Key>, before: seq<Answer>, after: seq<Answer>) {
    && before <= after
    && (forall k :: |before| <= k < |after| ==>
          after[k].error == "" && after[k].key in todo && after[k].key !in AnswerKeys(before))
    && (Distinct(todo) && Distinct(AnswerKeys(before)) ==> Distinct(AnswerKeys(after)))
  }

  /** Rows added by grading: never a judge failure, of an answered row, and new. */
  ghost predicate JudgeStep(answers: seq<Answer>, before: seq<Grade>, after: seq<Grade>) {
    && before <= after
    && (forall k :: |before| <= k < |after| ==>
          && after[k].gradedBy != "judge_error"
          && after[k].key in AnswerKeys(answers) && after[k].key !in GradeKeys(before))
    && (Distinct(AnswerKeys(answers)) && Distinct(GradeKeys(before)) ==> Distinct(GradeKeys(after)))
  }

  lemma KeptAnswers(left: seq<Key>, h: History<Answer>, read: (nat, Key) -> Outcome<Answer>)
    requires forall tick, key :: read(tick, key).Ok? ==> read(tick, key).row.key == key
    requires Faithful(h, left, Reading(read))
    ensures forall k :: 0 <= k < |Rows(h)| ==>
      Finishers(h)[k] < |left| && Rows(h)[k].key == left[Finishers(h)[k]] && Rows(h)[k].error == ""
  {
    forall k | 0 <= k < |Rows(h)|
      ensures Finishers(h)[k] < |left| && Rows(h)[k].key == left[Finishers(h)[k]] && Rows(h)[k].error == ""
    {
      assert Produced(Reading(read), left[Finishers(h)[k]], Rows(h)[k]);
      var tick: nat :| Reading(read)(tick, left[Finishers(h)[k]]) == Ok(Rows(h)[k]);
    }
  }

  lemma KeptGrades(left: seq<Answer>, h: History<Grade>, grade: (nat, Answer) -> Outcome<Grade>)
    requires Faithful(h, left, Grading(grade))
    ensures forall k :: 0 <= k < |Rows(h)| ==>
      && Finishers(h)[k] < |left| && Rows(h)[k].key == left[Finishers(h)[k]].key
      && Rows(h)[k].gradedBy != "judge_error"
  {
    forall k | 0 <= k < |Rows(h)|
      ensures Finishers(h)[k] < |left| && Rows(h)[k].key == left[Finishers(h)[k]].key
      ensures Rows(h)[k].gradedBy != "judge_error"
    {
      assert Produced(Grading(grade), left[Finishers(h)[k]], Rows(h)[k]);
      var row := left[Finishers(h)[k]];
      var tick: nat :| Grading(grade)(tick, row) == Ok(Rows(h)[k]);
      assert JudgeOutcome(row, grade(tick, row)) == Ok(Rows(h)[k]);
    }
  }

  lemma DistinctApart<T(!new)>(a: seq<T>, b: seq<T>)
    requires Distinct(a) && Distinct(b) && forall k :: 0 <= k < |b| ==> b[k] !in a
    ensures Distinct(a + b)
  {
  }

  lemma KeysJoin(a: seq<Answer>, b: seq<Answer>)
    ensures AnswerKeys(a + b) == AnswerKeys(a) + AnswerKeys(b)
  {
  }

  lemma GradeKeysJoin(a: seq<Grade>, b: seq<Grade>)
    ensures GradeKeys(a + b) == GradeKeys(a) + GradeKeys(b)
  {
  }

  lemma JoinFresh(have: seq<Key>, added: seq<Key>)
    requires Distinct(have) && Distinct(added) && forall key :: key in added ==> key !in have
    ensures Distinct(have + added)
  {
    assert forall k :: 0 <= k < |added| ==> added[k] in added;
    DistinctApart(have, added);
  }

  lemma AddedRows(todo: seq<Key>, before: seq<Answer>, rows: seq<Answer>)
    requires forall k :: 0 <= k < |rows| ==> rows[k].error == ""
    requires forall key :: key in AnswerKeys(rows) ==> key in todo && key !in AnswerKeys(before)
    requires Distinct(todo) ==> Distinct(AnswerKeys(rows))
    ensures ReadStep(todo, before, before + rows)
  {
    KeysJoin(before, rows);
    forall k | |before| <= k < |before + rows|
      ensures var row := (before + rows)[k]; row.error == "" && row.key in todo && row.key !in AnswerKeys(before)
    {
      assert (before + rows)[k] == rows[k - |before|] && AnswerKeys(rows)[k - |before|] in AnswerKeys(rows);
    }
    if Distinct(todo) && Distinct(AnswerKeys(before)) {
      JoinFresh(AnswerKeys(before), AnswerKeys(rows));
    }
  }

  /** New verdicts, each on an answer that had none, are a sound extension of the file. */
  lemma AddedGrades(answers: seq<Answer>, before: seq<Grade>, added: seq<Grade>)
    requires forall k :: 0 <= k < |added| ==> added[k].gradedBy != "judge_error"
    requires forall key :: key in GradeKeys(added) ==> key in AnswerKeys(answers) && key !in GradeKeys(before)
    requires Distinct(AnswerKeys(answers)) ==> Distinct(GradeKeys(added))
    ensures JudgeStep(answers, before, before + added)
  {
    GradeKeysJoin(before, added);
    forall k | |before| <= k < |before + added|
      ensures var grade := (before + added)[k];
        grade.gradedBy != "judge_error" && grade.key in AnswerKeys(answers) && grade.key !in GradeKeys(before)
    {
      assert (before + added)[k] == added[k - |before|] && GradeKeys(added)[k - |before|] in GradeKeys(added);
    }
    if Distinct(AnswerKeys(answers)) && Distinct(GradeKeys(before)) {
      JoinFresh(GradeKeys(before), GradeKeys(added));
    }
  }

  lemma ReadRows(todo: seq<Key>, before: seq<Answer>, h: History<Answer>, width: nat,
                 read: (nat, Key) -> Outcome<Answer>)
    requires forall tick, key :: read(tick, key).Ok? ==> read(tick, key).row.key == key
    requires var left := Unanswered(todo, AnswerKeys(before));
      Disciplined(h, |left|, width, READ_LIMIT) && Faithful(h, left, Reading(read))
    ensures ReadStep(todo, before, before + Rows(h))
    ensures var left := Unanswered(todo, AnswerKeys(before)); Drained(h, |left|, READ_LIMIT) ==>
      && (Report(h, |left|, READ_LIMIT).None? ==> AllAnswered(todo, before + Rows(h)))
      && (Report(h, |left|, READ_LIMIT).Some? && Distinct(todo) ==> !AllAnswered(todo, before + Rows(h)))
  {
    var left, kept := Unanswered(todo, AnswerKeys(before)), AnswerKeys(Rows(h));
    KeptAnswers(left, h, read);
    Accounting(h, |left|, width, READ_LIMIT);
    KeptKeys(h, width, READ_LIMIT, left, kept);
    AddedRows(todo, before, Rows(h));
    KeysJoin(before, Rows(h));
  }

  lemma JudgeRows(answers: seq<Answer>, before: seq<Grade>, h: History<Grade>, width: nat,
                  grade: (nat, Answer) -> Outcome<Grade>)
    requires var left := Ungraded(answers, GradeKeys(before));
      Disciplined(h, |left|, width, JUDGE_LIMIT) && Faithful(h, left, Grading(grade))
    ensures JudgeStep(answers, before, before + Rows(h))
    ensures var left := Ungraded(answers, GradeKeys(before)); Drained(h, |left|, JUDGE_LIMIT) ==>
      && (Report(h, |left|, JUDGE_LIMIT).None? ==> Covers(answers, before + Rows(h)))
      && (Report(h, |left|, JUDGE_LIMIT).Some? && Distinct(AnswerKeys(answers)) ==> !Covers(answers, before + Rows(h)))
  {
    var left, kept := Ungraded(answers, GradeKeys(before)), GradeKeys(Rows(h));
    KeptGrades(left, h, grade);
    UngradedKeys(answers, GradeKeys(before));
    KeptKeys(h, width, JUDGE_LIMIT, AnswerKeys(left), kept);
    AddedGrades(answers, before, Rows(h));
    GradeKeysJoin(before, Rows(h));
  }

  // ------------------------------------------------------------------- the pass

  /** The verdict the join uses for a key: the last one in the file. */
  function Lookup(verdicts: seq<Grade>, key: Key): Option<Grade> {
    if verdicts == [] then None
    else if verdicts[|verdicts| - 1].key == key then Some(verdicts[|verdicts| - 1])
    else Lookup(verdicts[..|verdicts| - 1], key)
  }

  function Join(answers: seq<Answer>, verdicts: seq<Grade>): seq<Result> {
    if answers == [] then [] else
    var row := answers[|answers| - 1];
    var found := Lookup(verdicts, row.key);
    Join(answers[..|answers| - 1], verdicts) + (if found.Some? then [Result(row, found.value)] else [])
  }

  /** Results keep the order of the answers. */
  lemma {:induction false} JoinJoin(a: seq<Answer>, b: seq<Answer>, verdicts: seq<Grade>)
    ensures Join(a + b, verdicts) == Join(a, verdicts) + Join(b, verdicts)
  {
    if b == [] {
      assert a + b == a;
    } else {
      var last := |b| - 1;
      assert (a + b)[..|a + b| - 1] == a + b[..last];
      JoinJoin(a, b[..last], verdicts);
    }
  }

  lemma {:induction false} LookupFinds(verdicts: seq<Grade>, key: Key)
    ensures Lookup(verdicts, key).Some? <==> key in GradeKeys(verdicts)
    ensures Lookup(verdicts, key).Some? ==>
      Lookup(verdicts, key).value in verdicts && Lookup(verdicts, key).value.key == key
  {
    if verdicts != [] {
      var init := verdicts[..|verdicts| - 1];
      LookupFinds(init, key);
      assert GradeKeys(verdicts) == GradeKeys(init) + [verdicts[|verdicts| - 1].key];
    }
  }

  /** It is the last: a later verdict on the same answer wins. */
  lemma {:induction false} LastVerdictWins(verdicts: seq<Grade>, key: Key, i: nat)
    requires i < |verdicts| && verdicts[i].key == key
    requires forall j :: i < j < |verdicts| ==> verdicts[j].key != key
    ensures Lookup(verdicts, key) == Some(verdicts[i])
  {
    if i < |verdicts| - 1 {
      LastVerdictWins(verdicts[..|verdicts| - 1], key, i);
    }
  }

  /** The join loses exactly the ungraded answers, so the count written to the
      manifest is zero exactly when every answer is graded. */
  lemma {:induction false} JoinCounts(answers: seq<Answer>, verdicts: seq<Grade>)
    ensures |Join(answers, verdicts)| <= |answers|
    ensures |Join(answers, verdicts)| == |answers| <==> Covers(answers, verdicts)
    ensures forall r :: r in Join(answers, verdicts) ==>
      r.answer in answers && r.grade in verdicts && r.answer.key == r.grade.key
  {
    if answers != [] {
      var init := answers[..|answers| - 1];
      JoinCounts(init, verdicts);
      LookupFinds(verdicts, answers[|answers| - 1].key);
      assert AnswerKeys(answers) == AnswerKeys(init) + [answers[|answers| - 1].key];
    }
  }

  /** And keeps each graded answer, with the verdict looked up for it. */
  lemma {:induction false} JoinKeeps(answers: seq<Answer>, verdicts: seq<Grade>, row: Answer)
    requires row in answers && Lookup(verdicts, row.key).Some?
    ensures Result(row, Lookup(verdicts, row.key).value) in Join(answers, verdicts)
  {
    var init := answers[..|answers| - 1];
    if row in init {
      JoinKeeps(init, verdicts, row);
    }
  }

  class RunDir {
    const answers: JsonlFile<Answer>
    const verdicts: JsonlFile<Grade>
    var manifest: Option<Manifest>
    var report: bool
    var results: seq<Result>

    constructor ()
      ensures Valid() && fresh(answers) && fresh(verdicts) && View() == FRESH && results == []
    {
      results := [];
      answers := new JsonlFile<Answer>();
      verdicts := new JsonlFile<Grade>();
      manifest, report := None, false;
    }

    ghost predicate Valid() {
      (answers as object) != verdicts
    }

    function View(): Disk
      reads this, answers, verdicts
    {
      Disk(answers.rows, verdicts.rows, manifest, report)
    }

    method ReadPass(todo: seq<Key>, read: (nat, Key) -> Outcome<Answer>, concurrency: int, mayDie: bool)
      returns (stop: Option<Stop>, crashed: bool, ghost history: History<Answer>)
      requires Valid()
      requires forall tick, key :: read(tick, key).Ok? ==> read(tick, key).row.key == key
      modifies answers
      ensures answers.rows == old(answers.rows) + Rows(history) && (crashed ==> mayDie)
      ensures var left := Unanswered(todo, AnswerKeys(old(answers.rows)));
        && Disciplined(history, |left|, Width(concurrency), READ_LIMIT)
        && (!crashed ==> Drained(history, |left|, READ_LIMIT) && stop == Report(history, |left|, READ_LIMIT))
      ensures ReadStep(todo, old(answers.rows), answers.rows)
      ensures var left := Unanswered(todo, AnswerKeys(old(answers.rows)));
        AllReadAs(history, left, read) && (!crashed ==> Reports(history, |left|, 8, stop))
      ensures AsRead(read, answers.rows, |old(answers.rows)|)
      ensures NeverMore(history, if concurrency > 1 then concurrency else 1)
      ensures !crashed && stop.None? ==> AllAnswered(todo, answers.rows)
      ensures !crashed && stop.Some? && Distinct(todo) ==> !AllAnswered(todo, answers.rows)
    {
      var left := Unanswered(todo, AnswerKeys(answers.rows));
      ghost var before := answers.rows;
      var done, health;
      done, health, crashed, history :=
        Run(answers, left, Reading(read), concurrency, READ_LIMIT, mayDie);
      stop := if health.stop.None? && done < |left| then Some(Residual(|left| - done, health.lastError)) else health.stop;
      ReadRows(todo, before, history, Width(concurrency), read);
      CallsAreReads(history, left, read);
      RowsWereRead(history, left, read);
      ReportMeans(history, |left|, READ_LIMIT);
    }

    method JudgePass(grade: (nat, Answer) -> Outcome<Grade>, concurrency: int, mayDie: bool)
      returns (stop: Option<Stop>, crashed: bool, ghost history: History<Grade>)
      requires Valid()
      modifies verdicts
      ensures verdicts.rows == old(verdicts.rows) + Rows(history) && (crashed ==> mayDie)
      ensures var left := Ungraded(answers.rows, GradeKeys(old(verdicts.rows)));
        && Disciplined(history, |left|, Width(concurrency), JUDGE_LIMIT)
        && (!crashed ==> Drained(history, |left|, JUDGE_LIMIT) && stop == Report(history, |left|, JUDGE_LIMIT))
      ensures JudgeStep(answers.rows, old(verdicts.rows), verdicts.rows)
      ensures var left := Ungraded(answers.rows, GradeKeys(old(verdicts.rows)));
        && AllJudgedAs(history, left, grade) && AsJudged(grade, left, verdicts.rows, |old(verdicts.rows)|)
        && AsJudged(grade, answers.rows, verdicts.rows, |old(verdicts.rows)|)
        && (!crashed ==> Reports(history, |left|, 5, stop))
      ensures NeverMore(history, if concurrency > 1 then concurrency else 1)
      ensures !crashed && stop.None? ==> AllGraded(View())
      ensures !crashed && stop.Some? && Distinct(AnswerKeys(answers.rows)) ==> !AllGraded(View())
    {
      var left := Ungraded(answers.rows, GradeKeys(verdicts.rows));
      ghost var before := verdicts.rows;
      var done, health;
      done, health, crashed, history :=
        Run(verdicts, left, Grading(grade), concurrency, JUDGE_LIMIT, mayDie);
      stop := if health.stop.None? && done < |left| then Some(Residual(|left| - done, health.lastError)) else health.stop;
      JudgeRows(answers.rows, before, history, Width(concurrency), grade);
      CallsAreGrades(history, left, grade);
      RowsWereJudged(history, left, grade);
      UngradedSubset(answers.rows, GradeKeys(before));
      ReportMeans(history, |left|, JUDGE_LIMIT);
    }

    /** A clean, resumable stop. */
    method StopRun(reason: Stop)
      modifies this`manifest
      ensures manifest == Some(Manifest(true, Some(reason), None)) && !IsComplete(View())
    {
      manifest := Some(Manifest(true, Some(reason), None));
    }

    /** Joins answers and verdicts and writes the finished pass: results, then the
        manifest, then the report. Returns false if it was killed on the way. */
    method Finish(mayDie: bool) returns (survived: bool)
      requires Valid()
      modifies this`manifest, this`report, this`results
      ensures survived ==> results == Join(answers.rows, verdicts.rows)
      ensures survived ==> report && manifest == Some(Manifest(false, None, Some(|answers.rows| - |results|)))
      ensures survived ==> (IsComplete(View()) <==> AllGraded(View()))
      ensures !survived ==> mayDie && report == old(report)
      ensures !survived && !report ==> !IsComplete(View())
      ensures !survived ==>
        || manifest == old(manifest)
        || manifest == Some(Manifest(false, None, Some(|answers.rows| - |Join(answers.rows, verdicts.rows)|)))
    {
      var joined: seq<Result> := [];
      JoinCounts(answers.rows, verdicts.rows);
      for i := 0 to |answers.rows|
        invariant joined == Join(answers.rows[..i], verdicts.rows)
      {
        assert answers.rows[..i + 1][..i] == answers.rows[..i];
        var found := Lookup(verdicts.rows, answers.rows[i].key);
        if found.Some? {
          joined := joined + [Result(answers.rows[i], found.value)];
        }
      }
      assert answers.rows[..|answers.rows|] == answers.rows;
      survived := false;
      var dies: bool := *;
      if mayDie && dies {
        return;
      }
      results := joined;
      dies := *;
      if mayDie && dies {
        return;
      }
      manifest := Some(Manifest(false, None, Some(|answers.rows| - |results|)));
      dies := *;
      if mayDie && dies {
        return;
      }
      report := true;
      survived := true;
    }

    /** Reports a clean stop, or dies before or after it has. */
    method ReportStop(reason: Stop, mayDie: bool) returns (exit: Exit)
      modifies this`manifest
      ensures (mayDie && exit == Crashed) || exit == Stopped(reason)
      ensures manifest == Some(Manifest(true, Some(reason), None)) || (exit == Crashed && manifest == old(manifest))
    {
      exit := Crashed;
      var dies: bool := *;
      if mayDie && dies {
        return;
      }
      StopRun(reason);
      dies := *;
      if mayDie && dies {
        return;
      }
      exit := Stopped(reason);
    }

    /** One process: read, grade, finish; or stop cleanly; or die anywhere. */
    method Launch(todo: seq<Key>, read: (nat, Key) -> Outcome<Answer>, grade: (nat, Answer) -> Outcome<Grade>,
                  readers: int, judges: int, mayDie: bool)
      returns (exit: Exit, ghost reading: History<Answer>, ghost grading: History<Grade>)
      requires Valid()
      requires forall tick, key :: read(tick, key).Ok? ==> read(tick, key).row.key == key
      modifies this, answers, verdicts
      ensures Launched(todo, old(View()), View(), exit) && (exit.Crashed? ==> mayDie)
      ensures answers.rows == old(answers.rows) + Rows(reading) && verdicts.rows == old(verdicts.rows) + Rows(grading)
      ensures NeverMore(reading, if readers > 1 then readers else 1)
      ensures NeverMore(grading, if judges > 1 then judges else 1)
      ensures AsRead(read, answers.rows, |old(answers.rows)|)
      ensures AsJudged(grade, answers.rows, verdicts.rows, |old(verdicts.rows)|)
    {
      exit, grading := Crashed, Start;
      var stop, died;
      stop, died, reading := ReadPass(todo, read, readers, mayDie);
      if died {
        return;
      }
      if stop.Some? {
        exit := ReportStop(stop.value, mayDie);
        return;
      }
      stop, died, grading := JudgePass(grade, judges, mayDie);
      if died {
        return;
      }
      if stop.Some? {
        exit := ReportStop(stop.value, mayDie);
        return;
      }
      var survived := Finish(mayDie);
      JoinCounts(answers.rows, verdicts.rows);
      if survived {
        exit := Finished;
      }
    }
  }

  // ------------------------------------------------------------- over whole runs

  /** `disks[k + 1]` is what launch `k` left of `disks[k]`. */
  ghost predicate RunOf(todo: seq<Key>, disks: seq<Disk>, exits: seq<Exit>) {
    && |disks| == |exits| + 1
    && forall k :: 0 <= k < |exits| ==> Launched(todo, disks[k], disks[k + 1], exits[k])
  }

  ghost predicate Sound(todo: seq<Key>, d: Disk) {
    Clean(d) && Honest(d, todo) && forall key :: key in AnswerKeys(d.answers) ==> key in todo
  }

  /** Every launch, whatever its exit, keeps the checkpoint clean and its manifest
      honest. */
  lemma LaunchKeepsSound(todo: seq<Key>, d: Disk, e: Disk, exit: Exit)
    requires Distinct(todo) && Sound(todo, d) && Launched(todo, d, e, exit)
    ensures Sound(todo, e)
  {
    GrownKeys(todo, d, e);
    if e.manifest == d.manifest && AllAnswered(todo, d.answers) {
      NothingLeft(todo, d, e);
    }
  }

  lemma GrownKeys(todo: seq<Key>, d: Disk, e: Disk)
    requires Distinct(todo) && Clean(d) && ReadStep(todo, d.answers, e.answers)
    requires JudgeStep(e.answers, d.verdicts, e.verdicts)
    requires forall key :: key in AnswerKeys(d.answers) ==> key in todo
    ensures Clean(e)
    ensures AnswerKeys(d.answers) <= AnswerKeys(e.answers) && GradeKeys(d.verdicts) <= GradeKeys(e.verdicts)
    ensures forall key :: key in AnswerKeys(e.answers) ==> key in todo
  {
    assert forall k :: 0 <= k < |d.answers| ==> e.answers[k] == d.answers[k];
    assert forall k :: 0 <= k < |d.verdicts| ==> e.verdicts[k] == d.verdicts[k];
    assert AnswerKeys(e.answers)[..|d.answers|] == AnswerKeys(d.answers);
    assert GradeKeys(e.verdicts)[..|d.verdicts|] == GradeKeys(d.verdicts);
    forall k | 0 <= k < |e.verdicts|
      ensures GradeKeys(e.verdicts)[k] in AnswerKeys(e.answers)
    {
      if k < |d.verdicts| {
        assert GradeKeys(d.verdicts)[k] in AnswerKeys(d.answers);
      }
    }
  }

  /** Over a directory whose items are all answered, a launch adds no answer. */
  lemma NothingLeft(todo: seq<Key>, d: Disk, e: Disk)
    requires ReadStep(todo, d.answers, e.answers) && AllAnswered(todo, d.answers)
    ensures e.answers == d.answers
  {
    if |e.answers| > |d.answers| {
      var extra := e.answers[|d.answers|].key;
      assert false;
    }
  }

  lemma {:induction false} SoundAt(todo: seq<Key>, disks: seq<Disk>, exits: seq<Exit>, k: nat)
    requires Distinct(todo) && RunOf(todo, disks, exits) && Sound(todo, disks[0])
    requires k < |disks|
    ensures Sound(todo, disks[k])
  {
    if k > 0 {
      SoundAt(todo, disks, exits, k - 1);
      LaunchKeepsSound(todo, disks[k - 1], disks[k], exits[k - 1]);
    }
  }

  lemma {:induction false} RowsAccumulate(todo: seq<Key>, disks: seq<Disk>, exits: seq<Exit>, i: nat, j: nat)
    requires RunOf(todo, disks, exits) && i <= j < |disks|
    ensures disks[i].answers <= disks[j].answers && disks[i].verdicts <= disks[j].verdicts
  {
    if i < j {
      RowsAccumulate(todo, disks, exits, i, j - 1);
      assert Launched(todo, disks[j - 1], disks[j], exits[j - 1]);
    }
  }

  /** From a fresh directory, over every sequence of launches that finish, stop or
      die: keys stay unique, nothing failed is recorded, and whenever the supervisor
      would call the run complete, every item has exactly one answer and exactly one
      verdict. A finished launch reads as complete; a stopped one never does, and
      never with all of its work done. */
  lemma WholeRun(todo: seq<Key>, disks: seq<Disk>, exits: seq<Exit>, k: nat)
    requires Distinct(todo) && RunOf(todo, disks, exits) && disks[0] == FRESH
    requires k < |disks|
    ensures Clean(disks[k])
    ensures IsComplete(disks[k]) ==>
      AllDone(todo, disks[k]) && |disks[k].answers| == |todo| == |disks[k].verdicts|
    ensures k > 0 && exits[k - 1].Finished? ==> IsComplete(disks[k])
    ensures k > 0 && exits[k - 1].Stopped? ==> !IsComplete(disks[k]) && !AllDone(todo, disks[k])
  {
    assert Sound(todo, FRESH);
    SoundAt(todo, disks, exits, k);
    if IsComplete(disks[k]) {
      OneRowEach(todo, disks[k]);
    }
    if k > 0 {
      SoundAt(todo, disks, exits, k - 1);
      assert Launched(todo, disks[k - 1], disks[k], exits[k - 1]);
    }
  }

  lemma OneRowEach(todo: seq<Key>, d: Disk)
    requires Distinct(todo) && Sound(todo, d) && AllDone(todo, d)
    ensures |d.answers| == |todo| == |d.verdicts|
  {
    var a, g := AnswerKeys(d.answers), GradeKeys(d.verdicts);
    DistinctSize(todo);
    DistinctSize(a);
    DistinctSize(g);
    assert (set x | x in todo) == (set x | x in a) == (set x | x in g);
  }

  /** However a launch over `todo` from `d` ends, what then reads as complete is done. */
  ghost predicate RelaunchIsHonest(todo: seq<Key>, d: Disk) {
    forall e: Disk, exit: Exit :: Launched(todo, d, e, exit) && IsComplete(e) ==> AllDone(todo, e)
  }

  /** The guarantee is for one list of items. A directory that a run over one list left
      complete may be relaunched over another exactly when its answers cover that list
      already: otherwise the old report stands until the new one is written, and a launch
      killed before then reads as complete. */
  lemma StaleExactlyWhen(todo: seq<Key>, d: Disk)
    requires IsComplete(d) && AllGraded(d)
    ensures RelaunchIsHonest(todo, d) <==> AllAnswered(todo, d.answers)
  {
    if AllAnswered(todo, d.answers) {
      forall e: Disk, exit: Exit | Launched(todo, d, e, exit) && IsComplete(e)
        ensures AllDone(todo, e)
      {
        NothingLeft(todo, d, e);
        assert forall k :: 0 <= k < |d.verdicts| ==> GradeKeys(d.verdicts)[k] == GradeKeys(e.verdicts)[k];
      }
    } else {
      assert Launched(todo, d, d, Crashed);
    }
  }

  /** A run over one list supplies the hypothesis: what it leaves complete is graded. */
  lemma StaleAfterRun(first: seq<Key>, disks: seq<Disk>, exits: seq<Exit>, k: nat, todo: seq<Key>)
    requires Distinct(first) && RunOf(first, disks, exits) && disks[0] == FRESH && k < |disks| && IsComplete(disks[k])
    ensures RelaunchIsHonest(todo, disks[k]) <==> forall key :: key in todo ==> key in first
  {
    WholeRun(first, disks, exits, k);
    assert Sound(first, FRESH);
    SoundAt(first, disks, exits, k);
    StaleExactlyWhen(todo, disks[k]);
  }

  /** One item, and then another: the second launch is killed before its first append. */
  lemma StaleReport(first: Key, second: Key)
    requires first != second
    ensures exists d: Disk, e: Disk ::
      && Launched([first], FRESH, d, Finished) && Launched([first, second], d, e, Crashed)
      && IsComplete(e) && !AllAnswered([first, second], e.answers)
  {
    var row := Answer(first, "", false, "");
    var d := Disk([row], [Grade(first, true, "judge", "")], Some(COMPLETE), true);
    assert AnswerKeys(d.answers) == [first] && GradeKeys(d.verdicts) == [first];
    assert Launched([first], FRESH, d, Finished);
    assert Launched([first, second], d, d, Crashed);
    assert second in [first, second];
    assert !AllAnswered([first, second], d.answers);
  }
}
