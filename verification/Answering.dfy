/** The answer phase: every arm in turn asks a reader each of its questions that was not
    recorded before the phase began. An answer takes two appends, and a reader error is
    counted nowhere that lasts. */
module Answering {
  import opened Options
  import opened Checkpoint
  import opened Pool
  import opened Offline

  // ------------------------------------------------------------------- one arm

  /** Every envelope kept, except possibly the one a crash separated from its answer. */
  ghost predicate EnvelopesFollow(answers: seq<Answer>, envelopes: seq<Key>, crashed: bool) {
    || envelopes == AnswerKeys(answers)
    || (crashed && answers != [] && envelopes == AnswerKeys(answers[..|answers| - 1]))
  }

  /** Consumes a batch of finished tasks: append the answer, then its envelope. */
  method ConsumeBatch(answers: JsonlFile<Answer>, envelopes: JsonlFile<Key>, todo: seq<Key>, batch: set<nat>,
                      read: (nat, Key) -> Outcome<Answer>, tick0: nat, ghost width: nat,
                      done0: nat, health0: Health, ghost base: seq<Answer>, ghost kept: seq<Key>,
                      ghost history0: History<Answer>, mayDie: bool)
    returns (tick: nat, done: nat, health: Health, crashed: bool, ghost history: History<Answer>)
    requires (answers as object) != envelopes
    requires Recorded(answers.rows, base, history0, todo, Reading(read), width, READ_LIMIT, done0, health0)
    requires envelopes.rows == kept + AnswerKeys(Rows(history0))
    requires batch <= InFlight(history0) && forall item :: item in batch ==> item < |todo|
    modifies answers, envelopes
    ensures Recorded(answers.rows, base, history, todo, Reading(read), width, READ_LIMIT, done, health)
    ensures kept <= envelopes.rows && EnvelopesFollow(Rows(history), envelopes.rows[|kept|..], crashed)
    ensures if crashed then mayDie else envelopes.rows == kept + AnswerKeys(Rows(history))
    ensures Submitted(history) == Submitted(history0) && (health0.stop.Some? ==> health.stop.Some?)
    ensures !crashed ==> InFlight(history) == InFlight(history0) - batch
  {
    tick, done, health, crashed, history := tick0, done0, health0, false, history0;
    var finished := batch;
    while finished != {}
      invariant finished <= batch
      invariant Recorded(answers.rows, base, history, todo, Reading(read), width, READ_LIMIT, done, health)
      invariant envelopes.rows == kept + AnswerKeys(Rows(history)) && !crashed
      invariant finished <= InFlight(history) && InFlight(history) - finished == InFlight(history0) - batch
      invariant Submitted(history) == Submitted(history0) && (health0.stop.Some? ==> health.stop.Some?)
    {
      var item :| item in finished;
      finished := finished - {item};
      var dies: bool := *;
      if mayDie && dies {
        crashed := true;
        return;
      }
      tick, done, health, crashed, history :=
        Consume(answers, envelopes, todo, item, read, tick, width, done, health, base, kept, history, mayDie);
      if crashed {
        return;
      }
    }
  }

  method Consume(answers: JsonlFile<Answer>, envelopes: JsonlFile<Key>, todo: seq<Key>, item: nat,
                 read: (nat, Key) -> Outcome<Answer>, tick0: nat, ghost width: nat,
                 done0: nat, health0: Health, ghost base: seq<Answer>, ghost kept: seq<Key>,
                 ghost history0: History<Answer>, mayDie: bool)
    returns (tick: nat, done: nat, health: Health, crashed: bool, ghost history: History<Answer>)
    requires (answers as object) != envelopes
    requires Recorded(answers.rows, base, history0, todo, Reading(read), width, READ_LIMIT, done0, health0)
    requires envelopes.rows == kept + AnswerKeys(Rows(history0))
    requires item < |todo| && item in InFlight(history0)
    modifies answers, envelopes
    ensures Recorded(answers.rows, base, history, todo, Reading(read), width, READ_LIMIT, done, health)
    ensures kept <= envelopes.rows && EnvelopesFollow(Rows(history), envelopes.rows[|kept|..], crashed)
    ensures if crashed then mayDie else envelopes.rows == kept + AnswerKeys(Rows(history))
    ensures Submitted(history) == Submitted(history0) && InFlight(history) == InFlight(history0) - {item}
    ensures health0.stop.Some? ==> health.stop.Some?
  {
    crashed := false;
    done, health, history :=
      Record(answers, todo, item, Reading(read), tick0, width, READ_LIMIT, done0, health0, base, history0);
    tick := tick0 + 1;
    if done > done0 {
      var dies: bool := *;
      if mayDie && dies {
        crashed := true;
        Cancel(kept, AnswerKeys(Rows(history0)));
        return;
      }
      envelopes.Append(answers.rows[|answers.rows| - 1].key);
    }
    Cancel(kept, AnswerKeys(Rows(history)));
  }

  lemma Cancel(kept: seq<Key>, added: seq<Key>)
    ensures (kept + added)[|kept|..] == added
  {
  }

  /** How many tasks an arm has in flight at most. */
  function ReaderWidth(concurrency: int): nat {
    if concurrency < 1 then 1 else 2 * concurrency
  }

  /** One arm's questions. With no reader the first task waits for one until the process is
      killed; with a negative number the phase raises. */
  method AnswerArm(answers: JsonlFile<Answer>, envelopes: JsonlFile<Key>, todo: seq<Key>,
                   read: (nat, Key) -> Outcome<Answer>, concurrency: int, mayDie: bool)
    returns (done: nat, stop: Option<Stop>, crashed: bool, ghost history: History<Answer>)
    requires (answers as object) != envelopes
    modifies answers, envelopes
    ensures Disciplined(history, |todo|, ReaderWidth(concurrency), READ_LIMIT) && Faithful(history, todo, Reading(read))
    ensures NeverMore(history, if concurrency < 1 then 1 else 2 * concurrency)
    ensures FromCalls(history, todo, Reading(read)) && AllReadAs(history, todo, read)
    ensures answers.rows == old(answers.rows) + Rows(history) && done == |Rows(history)|
    ensures old(envelopes.rows) <= envelopes.rows
    ensures EnvelopesFollow(Rows(history), envelopes.rows[|old(envelopes.rows)|..], crashed)
    ensures stop == HealthOf(history, READ_LIMIT).stop && StopMeans(history, 8, stop)
    ensures if crashed then mayDie || concurrency < 1 else Drained(history, |todo|, READ_LIMIT)
    ensures concurrency < 1 ==> Rows(history) == [] && stop.None? && (crashed <==> concurrency < 0 || todo != [])
    ensures concurrency < 1 ==> Submitted(history) == if concurrency < 0 || todo == [] then 0 else 1
  {
    if concurrency >= 1 {
      done, stop, crashed, history := ServeArm(answers, envelopes, todo, read, concurrency, mayDie);
    } else {
      done, stop, crashed := 0, None, concurrency < 0 || todo != [];
      history := if concurrency < 0 || todo == [] then Start else Then(Start, Submit(0));
      Waiting(|todo|, concurrency);
      assert envelopes.rows[|envelopes.rows|..] == AnswerKeys(Rows(history));
    }
    InFlightThroughout(history, |todo|, ReaderWidth(concurrency), READ_LIMIT);
    CallsAreReads(history, todo, read);
    StopExactlyWhen(history, READ_LIMIT);
  }

  /** At most `2 * concurrency` tasks in flight, submission ends at the first stop reason, and
      what is in flight drains. */
  method ServeArm(answers: JsonlFile<Answer>, envelopes: JsonlFile<Key>, todo: seq<Key>,
                  read: (nat, Key) -> Outcome<Answer>, concurrency: nat, mayDie: bool)
    returns (done: nat, stop: Option<Stop>, crashed: bool, ghost history: History<Answer>)
    requires (answers as object) != envelopes && concurrency >= 1
    modifies answers, envelopes
    ensures Disciplined(history, |todo|, 2 * concurrency, READ_LIMIT) && Faithful(history, todo, Reading(read))
    ensures FromCalls(history, todo, Reading(read))
    ensures answers.rows == old(answers.rows) + Rows(history) && done == |Rows(history)|
    ensures old(envelopes.rows) <= envelopes.rows
    ensures EnvelopesFollow(Rows(history), envelopes.rows[|old(envelopes.rows)|..], crashed)
    ensures stop == HealthOf(history, READ_LIMIT).stop
    ensures if crashed then mayDie else Drained(history, |todo|, READ_LIMIT)
  {
    ghost var base, kept := answers.rows, envelopes.rows;
    var pending: set<nat> := {};
    var health := Health(0, "", None);
    var tick, i := 0, 0;
    done, crashed, history, stop := 0, false, Start, None;
    assert envelopes.rows == kept + AnswerKeys(Rows(history));
    while i < |todo| && health.stop.None?
      invariant i <= |todo| && i == Submitted(history) && pending == InFlight(history) && |pending| < 2 * concurrency
      invariant Recorded(answers.rows, base, history, todo, Reading(read), 2 * concurrency, READ_LIMIT, done, health)
      invariant envelopes.rows == kept + AnswerKeys(Rows(history))
    {
      OneMoreAsked(answers.rows, base, history, todo, Reading(read), 2 * concurrency, done, health);
      history := Then(history, Submit(i));
      pending := pending + {i};
      i := i + 1;
      if |pending| >= 2 * concurrency {
        var finished: set<nat> :| finished != {} && finished <= pending;
        tick, done, health, crashed, history := ConsumeBatch(answers, envelopes, todo, finished, read, tick,
          2 * concurrency, done, health, base, kept, history, mayDie);
        stop := health.stop;
        if crashed {
          return;
        }
        Fewer(pending, finished, 2 * concurrency);
        pending := pending - finished;
      }
    }
    done, stop, crashed, history :=
      DrainArm(answers, envelopes, todo, read, pending, tick, 2 * concurrency, done, health, base, kept, history,
               mayDie);
  }

  lemma OneMoreAsked(rows: seq<Answer>, base: seq<Answer>, h: History<Answer>, todo: seq<Key>,
                     work: (nat, Key) -> Outcome<Answer>, width: nat, done: nat, health: Health)
    requires Recorded(rows, base, h, todo, work, width, READ_LIMIT, done, health)
    requires health.stop.None? && Submitted(h) < |todo| && |InFlight(h)| < width
    ensures var next := Then(h, Submit(Submitted(h)));
      && Recorded(rows, base, next, todo, work, width, READ_LIMIT, done, health)
      && Rows(next) == Rows(h) && Submitted(next) == Submitted(h) + 1 && InFlight(next) == InFlight(h) + {Submitted(h)}
      && |InFlight(next)| <= width && forall item :: item in InFlight(next) ==> item < |todo|
  {
    InFlightBounded(h, |todo|, width, READ_LIMIT);
  }

  /** Waits for what is in flight. */
  method DrainArm(answers: JsonlFile<Answer>, envelopes: JsonlFile<Key>, todo: seq<Key>,
                  read: (nat, Key) -> Outcome<Answer>, pending0: set<nat>, tick0: nat, ghost width: nat,
                  done0: nat, health0: Health, ghost base: seq<Answer>, ghost kept: seq<Key>,
                  ghost history0: History<Answer>, mayDie: bool)
    returns (done: nat, stop: Option<Stop>, crashed: bool, ghost history: History<Answer>)
    requires (answers as object) != envelopes
    requires pending0 == InFlight(history0) && (health0.stop.None? ==> Submitted(history0) == |todo|)
    requires Recorded(answers.rows, base, history0, todo, Reading(read), width, READ_LIMIT, done0, health0)
    requires envelopes.rows == kept + AnswerKeys(Rows(history0))
    modifies answers, envelopes
    ensures Disciplined(history, |todo|, width, READ_LIMIT) && Faithful(history, todo, Reading(read))
    ensures FromCalls(history, todo, Reading(read))
    ensures answers.rows == base + Rows(history) && done == |Rows(history)|
    ensures kept <= envelopes.rows && EnvelopesFollow(Rows(history), envelopes.rows[|kept|..], crashed)
    ensures stop == HealthOf(history, READ_LIMIT).stop
    ensures if crashed then mayDie else Drained(history, |todo|, READ_LIMIT)
  {
    var pending, tick, health := pending0, tick0, health0;
    done, stop, crashed, history := done0, health.stop, false, history0;
    while pending != {}
      invariant (health.stop.None? ==> Submitted(history) == |todo|) && pending == InFlight(history)
      invariant Recorded(answers.rows, base, history, todo, Reading(read), width, READ_LIMIT, done, health)
      invariant envelopes.rows == kept + AnswerKeys(Rows(history)) && stop == health.stop
    {
      InFlightBounded(history, |todo|, width, READ_LIMIT);
      var finished: set<nat> :| finished != {} && finished <= pending;
      tick, done, health, crashed, history := ConsumeBatch(answers, envelopes, todo, finished, read, tick,
        width, done, health, base, kept, history, mayDie);
      pending := pending - finished;
      stop := health.stop;
      if crashed {
        return;
      }
    }
    Cancel(kept, AnswerKeys(Rows(history)));
  }

  /** What is left of an arm that no reader serves. */
  lemma Waiting(n: nat, concurrency: int)
    ensures var h: History<Answer> := if concurrency < 0 || n == 0 then Start else Then(Start, Submit(0));
      && Disciplined(h, n, 1, READ_LIMIT) && HealthOf(h, READ_LIMIT).stop.None? && Rows(h) == [] && Finishers(h) == []
      && Completions(h) == []
      && (n == 0 ==> Drained(h, n, READ_LIMIT))
  {
    var h: History<Answer> := Start;
    assert Submitted(h) == 0 && InFlight(h) == {} && HealthOf(h, READ_LIMIT) == Health(0, "", None);
  }

  lemma Fewer(pending: set<nat>, finished: set<nat>, bound: nat)
    requires finished != {} && finished <= pending && |pending| <= bound
    ensures |pending - finished| < bound
  {
    assert pending == (pending - finished) + finished;
  }

  // ----------------------------------------------------------------- the phase

  /** What the arms of a run ask for, in order. */
  function Wanted(arms: seq<seq<Key>>): seq<Key> {
    if arms == [] then [] else Wanted(arms[..|arms| - 1]) + arms[|arms| - 1]
  }

  /** The questions each arm still has to ask, by what was recorded before the phase. */
  function Asked(arms: seq<seq<Key>>, have: seq<Key>): seq<Key> {
    if arms == [] then []
    else Asked(arms[..|arms| - 1], have) + Unanswered(arms[|arms| - 1], have)
  }

  /** Every kept row answers the question it was asked for, and carries no error. */
  ghost predicate Keyed(h: History<Answer>, left: seq<Key>) {
    && |Finishers(h)| == |Rows(h)|
    && forall k :: 0 <= k < |Rows(h)| ==>
         Finishers(h)[k] < |left| && Rows(h)[k].key == left[Finishers(h)[k]] && Rows(h)[k].error == ""
  }

  ghost predicate ArmRun(arm: seq<Key>, have: seq<Key>, h: History<Answer>, width: nat) {
    Disciplined(h, |Unanswered(arm, have)|, width, READ_LIMIT) && Keyed(h, Unanswered(arm, have))
  }

  ghost predicate ArmDone(arm: seq<Key>, have: seq<Key>, h: History<Answer>) {
    Drained(h, |Unanswered(arm, have)|, READ_LIMIT) && HealthOf(h, READ_LIMIT).stop.None?
  }

  /** The rows of the arms, one arm after another. */
  function AllRows(asked: seq<History<Answer>>): seq<Answer> {
    if asked == [] then [] else AllRows(asked[..|asked| - 1]) + Rows(asked[|asked| - 1])
  }

  /** Only the last arm asked can have been stopped. */
  function PhaseStop(asked: seq<History<Answer>>): Option<Stop> {
    if asked == [] then None else HealthOf(asked[|asked| - 1], READ_LIMIT).stop
  }

  ghost predicate AllRun(arms: seq<seq<Key>>, have: seq<Key>, asked: seq<History<Answer>>, width: nat) {
    && |asked| <= |arms|
    && forall i :: 0 <= i < |asked| ==> ArmRun(arms[i], have, asked[i], width)
  }

  ghost predicate DoneUpTo(arms: seq<seq<Key>>, have: seq<Key>, asked: seq<History<Answer>>, n: int) {
    && n <= |asked| <= |arms|
    && forall i :: 0 <= i < n ==> ArmDone(arms[i], have, asked[i])
  }

  /** The last arm asked drained, and unless it was stopped it was the last of all. */
  ghost predicate Ended(arms: seq<seq<Key>>, have: seq<Key>, asked: seq<History<Answer>>) {
    && |asked| <= |arms|
    && (asked != [] ==> Drained(asked[|asked| - 1], |Unanswered(arms[|asked| - 1], have)|, READ_LIMIT))
    && (PhaseStop(asked).None? ==> |asked| == |arms|)
  }

  /** An answer phase over `arms`: `asked[i]` is what arm `i` did. */
  ghost predicate Answered(arms: seq<seq<Key>>, before: seq<Answer>, after: seq<Answer>,
                           asked: seq<History<Answer>>, width: nat, died: bool) {
    && AllRun(arms, AnswerKeys(before), asked, width)
    && DoneUpTo(arms, AnswerKeys(before), asked, |asked| - 1)
    && after == before + AllRows(asked)
    && (!died ==> Ended(arms, AnswerKeys(before), asked))
  }

  /** The next arm of a phase that nothing has stopped. */
  method NextArm(answers: JsonlFile<Answer>, envelopes: JsonlFile<Key>, arms: seq<seq<Key>>, have: seq<Key>,
                 read: (nat, Key) -> Outcome<Answer>, concurrency: int,
                 ghost asked0: seq<History<Answer>>, i: nat, ghost before: seq<Answer>, ghost kept: seq<Key>,
                 mayDie: bool)
    returns (stop: Option<Stop>, crashed: bool, ghost asked: seq<History<Answer>>)
    requires (answers as object) != envelopes && i == |asked0| < |arms|
    requires forall tick, key :: read(tick, key).Ok? ==> read(tick, key).row.key == key
    requires AllRun(arms, have, asked0, ReaderWidth(concurrency)) && DoneUpTo(arms, have, asked0, i)
    requires answers.rows == before + AllRows(asked0) && envelopes.rows == kept + AnswerKeys(AllRows(asked0))
    requires ArmsReadAs(arms, have, asked0, read) && AsRead(read, answers.rows, |before|)
    modifies answers, envelopes
    ensures |asked| == i + 1 && AllRun(arms, have, asked, ReaderWidth(concurrency)) && DoneUpTo(arms, have, asked, i)
    ensures ArmsReadAs(arms, have, asked, read) && AsRead(read, answers.rows, |before|)
    ensures asked0 == asked[..i] && StopMeans(asked[i], READ_LIMIT, stop)
    ensures stop == PhaseStop(asked) && (!crashed ==> Drained(asked[i], |Unanswered(arms[i], have)|, READ_LIMIT))
    ensures !crashed && stop.None? ==> DoneUpTo(arms, have, asked, i + 1)
    ensures answers.rows == before + AllRows(asked)
    ensures kept <= envelopes.rows && EnvelopesFollow(AllRows(asked), envelopes.rows[|kept|..], crashed)
    ensures if crashed then mayDie || concurrency < 1 else envelopes.rows == kept + AnswerKeys(AllRows(asked))
    ensures concurrency < 1 ==> AllRows(asked) == AllRows(asked0) && stop.None?
    ensures concurrency < 1 && !crashed ==> Asked(arms[..i + 1], have) == Asked(arms[..i], have)
  {
    var left := Unanswered(arms[i], have);
    ghost var now, sent := AllRows(asked0), envelopes.rows;
    ghost var history;
    var done;
    done, stop, crashed, history := AnswerArm(answers, envelopes, left, read, concurrency, mayDie);
    KeptAnswers(left, history, read);
    OneMoreArm(arms, have, asked0, history, ReaderWidth(concurrency));
    AskedNext(arms, have, i);
    NextEnvelopes(kept, now, Rows(history), sent, envelopes.rows, crashed);
    Regroup(before, now, Rows(history));
    RowsWereRead(history, left, read);
    AsReadJoin(read, before + now, Rows(history), |before|);
    OneMoreRead(arms, have, asked0, history, read);
    asked := asked0 + [history];
  }

  /** What each arm asked ended as its reads did. */
  ghost predicate ArmsReadAs(arms: seq<seq<Key>>, have: seq<Key>, asked: seq<History<Answer>>,
                             read: (nat, Key) -> Outcome<Answer>) {
    |asked| <= |arms| && forall i :: 0 <= i < |asked| ==> AllReadAs(asked[i], Unanswered(arms[i], have), read)
  }

  lemma OneMoreRead(arms: seq<seq<Key>>, have: seq<Key>, asked: seq<History<Answer>>, h: History<Answer>,
                    read: (nat, Key) -> Outcome<Answer>)
    requires ArmsReadAs(arms, have, asked, read) && |asked| < |arms|
    requires AllReadAs(h, Unanswered(arms[|asked|], have), read)
    ensures ArmsReadAs(arms, have, asked + [h], read)
  {
  }

  lemma AsReadJoin(read: (nat, Key) -> Outcome<Answer>, rows: seq<Answer>, more: seq<Answer>, from: nat)
    requires from <= |rows| && AsRead(read, rows, from) && AsRead(read, more, 0)
    ensures AsRead(read, rows + more, from)
  {
  }

  /** A stopped phase stopped by what the last arm asked first met with. */
  ghost predicate PhaseStopMeans(asked: seq<History<Answer>>, stop: Option<Stop>) {
    if asked == [] then stop.None? else StopMeans(asked[|asked| - 1], READ_LIMIT, stop)
  }

  method AnswerPhase(answers: JsonlFile<Answer>, envelopes: JsonlFile<Key>, arms: seq<seq<Key>>,
                     read: (nat, Key) -> Outcome<Answer>, concurrency: int, mayDie: bool)
    returns (stop: Option<Stop>, crashed: bool, ghost asked: seq<History<Answer>>)
    requires (answers as object) != envelopes
    requires forall tick, key :: read(tick, key).Ok? ==> read(tick, key).row.key == key
    modifies answers, envelopes
    ensures Answered(arms, old(answers.rows), answers.rows, asked, ReaderWidth(concurrency), crashed)
    ensures stop == PhaseStop(asked) && PhaseStopMeans(asked, stop)
    ensures ArmsReadAs(arms, AnswerKeys(old(answers.rows)), asked, read)
    ensures AsRead(read, answers.rows, |old(answers.rows)|)
    ensures old(envelopes.rows) <= envelopes.rows
    ensures EnvelopesFollow(AllRows(asked), envelopes.rows[|old(envelopes.rows)|..], crashed)
    ensures crashed ==> mayDie || concurrency < 1
    ensures concurrency < 1 ==> answers.rows == old(answers.rows)
    ensures concurrency < 1 && Asked(arms, AnswerKeys(old(answers.rows))) != [] ==> crashed
  {
    var have := AnswerKeys(answers.rows);
    ghost var before, kept := answers.rows, envelopes.rows;
    stop, crashed, asked := None, false, [];
    var i := 0;
    while i < |arms|
      invariant i == |asked| <= |arms| && stop.None? && PhaseStop(asked).None? && !crashed
      invariant AllRun(arms, have, asked, ReaderWidth(concurrency)) && DoneUpTo(arms, have, asked, |asked|)
      invariant concurrency < 1 ==> AllRows(asked) == [] && Asked(arms[..i], have) == []
      invariant answers.rows == before + AllRows(asked) && envelopes.rows == kept + AnswerKeys(AllRows(asked))
      invariant ArmsReadAs(arms, have, asked, read) && AsRead(read, answers.rows, |before|) && PhaseStopMeans(asked, None)
    {
      stop, crashed, asked := NextArm(answers, envelopes, arms, have, read, concurrency, asked, i, before, kept,
                                      mayDie);
      if crashed || stop.Some? {
        return;
      }
      i := i + 1;
    }
    assert arms[..|arms|] == arms;
    assert envelopes.rows[|kept|..] == AnswerKeys(AllRows(asked));
  }

  lemma AskedNext(arms: seq<seq<Key>>, have: seq<Key>, i: nat)
    requires i < |arms|
    ensures Asked(arms[..i + 1], have) == Asked(arms[..i], have) + Unanswered(arms[i], have)
  {
    assert arms[..i + 1][..i] == arms[..i];
  }

  lemma Regroup<T>(a: seq<T>, b: seq<T>, c: seq<T>)
    ensures a + b + c == a + (b + c)
  {
  }

  lemma MoreRows(asked: seq<History<Answer>>, h: History<Answer>)
    ensures AllRows(asked + [h]) == AllRows(asked) + Rows(h)
  {
    assert (asked + [h])[..|asked|] == asked;
  }

  /** One more arm asked. */
  lemma OneMoreArm(arms: seq<seq<Key>>, have: seq<Key>, asked: seq<History<Answer>>, h: History<Answer>, width: nat)
    requires |asked| < |arms| && AllRun(arms, have, asked, width) && DoneUpTo(arms, have, asked, |asked|)
    requires ArmRun(arms[|asked|], have, h, width)
    ensures AllRun(arms, have, asked + [h], width) && DoneUpTo(arms, have, asked + [h], |asked|)
    ensures ArmDone(arms[|asked|], have, h) ==> DoneUpTo(arms, have, asked + [h], |asked + [h]|)
    ensures AllRows(asked + [h]) == AllRows(asked) + Rows(h)
    ensures PhaseStop(asked + [h]) == HealthOf(h, READ_LIMIT).stop
  {
    MoreDone(arms, have, asked, h);
  }

  lemma MoreDone(arms: seq<seq<Key>>, have: seq<Key>, asked: seq<History<Answer>>, h: History<Answer>)
    requires |asked| < |arms| && DoneUpTo(arms, have, asked, |asked|)
    ensures DoneUpTo(arms, have, asked + [h], |asked|)
    ensures ArmDone(arms[|asked|], have, h) ==> DoneUpTo(arms, have, asked + [h], |asked + [h]|)
  {
    assert forall i :: 0 <= i < |asked| ==> (asked + [h])[i] == asked[i];
  }

  lemma NextEnvelopes(kept: seq<Key>, now: seq<Answer>, rows: seq<Answer>, sent: seq<Key>, envelopes: seq<Key>,
                      crashed: bool)
    requires sent == kept + AnswerKeys(now) && sent <= envelopes
    requires EnvelopesFollow(rows, envelopes[|sent|..], crashed)
    ensures kept <= envelopes && EnvelopesFollow(now + rows, envelopes[|kept|..], crashed)
    ensures !crashed ==> envelopes == kept + AnswerKeys(now + rows)
  {
    var f := envelopes[|sent|..];
    assert envelopes == sent + f;
    assert envelopes[|kept|..] == AnswerKeys(now) + f;
    if f == AnswerKeys(rows) {
      assert AnswerKeys(now) + f == AnswerKeys(now + rows);
    } else {
      assert (now + rows)[..|now + rows| - 1] == now + rows[..|rows| - 1];
      assert AnswerKeys(now) + f == AnswerKeys(now + rows[..|rows| - 1]);
    }
  }

  // ------------------------------------------------------ what it records, by key

  /** `part` holds nothing but what `whole` holds, and nothing more often. */
  ghost predicate Within(part: seq<Key>, whole: seq<Key>) {
    && (forall key :: key in part ==> key in whole)
    && (Distinct(whole) ==> Distinct(part))
  }

  lemma DistinctHalves<T(!new)>(a: seq<T>, b: seq<T>)
    requires Distinct(a + b)
    ensures Distinct(a) && Distinct(b) && forall x :: x in a ==> x !in b
  {
    forall i, j | 0 <= i < j < |b|
      ensures b[i] != b[j]
    {
      assert (a + b)[|a| + i] != (a + b)[|a| + j];
    }
    forall i, j | 0 <= i < |a| && 0 <= j < |b|
      ensures a[i] != b[j]
    {
      assert (a + b)[i] != (a + b)[|a| + j];
    }
    forall i, j | 0 <= i < j < |a|
      ensures a[i] != a[j]
    {
      assert (a + b)[i] != (a + b)[j];
    }
  }

  lemma WithinJoin(a: seq<Key>, b: seq<Key>, c: seq<Key>, d: seq<Key>)
    requires Within(a, b) && Within(c, d)
    ensures Within(a + c, b + d)
  {
    if Distinct(b + d) {
      DistinctHalves(b, d);
      forall k | 0 <= k < |c|
        ensures c[k] !in a
      {
        assert c[k] in c && c[k] in d;
      }
      DistinctApart(a, c);
    }
  }

  /** The rows of one arm are among its questions. */
  lemma ArmWithin(arm: seq<Key>, have: seq<Key>, h: History<Answer>, width: nat)
    requires ArmRun(arm, have, h, width)
    ensures Within(AnswerKeys(Rows(h)), Unanswered(arm, have))
  {
    var left, kept, f := Unanswered(arm, have), AnswerKeys(Rows(h)), Finishers(h);
    Accounting(h, |left|, width, READ_LIMIT);
    assert forall k :: 0 <= k < |kept| ==> f[k] < |left| && kept[k] == left[f[k]];
  }

  /** They are all of its questions if it lost none. */
  lemma ArmWhole(arm: seq<Key>, have: seq<Key>, h: History<Answer>, width: nat)
    requires ArmRun(arm, have, h, width) && ArmDone(arm, have, h) && Losses(h) == 0
    ensures Within(Unanswered(arm, have), AnswerKeys(Rows(h)))
  {
    var left, f := Unanswered(arm, have), Finishers(h);
    Accounting(h, |left|, width, READ_LIMIT);
    InFlightBounded(h, |left|, width, READ_LIMIT);
    FullRange(f, |left|);
    AllPlaced(left, f, AnswerKeys(Rows(h)));
  }

  lemma AllPlaced(left: seq<Key>, f: seq<nat>, kept: seq<Key>)
    requires |f| == |kept| && forall k :: 0 <= k < |f| ==> f[k] < |left| && kept[k] == left[f[k]]
    requires forall i: nat :: i < |left| ==> i in f
    ensures Within(left, kept)
  {
    forall i | 0 <= i < |left|
      ensures left[i] in kept
    {
      assert i in f;
      var k :| 0 <= k < |f| && f[k] == i;
      assert kept[k] == left[i];
    }
    forall i, j | 0 <= i < j < |left| && Distinct(kept)
      ensures left[i] != left[j]
    {
      assert i in f && j in f;
      var k :| 0 <= k < |f| && f[k] == i;
      var m :| 0 <= m < |f| && f[m] == j;
      assert kept[k] == left[i] && kept[m] == left[j];
    }
  }

  ghost predicate NothingLost(asked: seq<History<Answer>>) {
    forall i :: 0 <= i < |asked| ==> Losses(asked[i]) == 0
  }

  /** A phase records what it asked for, and nothing more often. */
  lemma {:induction false} PhaseWithin(arms: seq<seq<Key>>, have: seq<Key>, asked: seq<History<Answer>>, width: nat)
    requires AllRun(arms, have, asked, width)
    ensures Within(AnswerKeys(AllRows(asked)), Asked(arms[..|asked|], have))
  {
    if asked != [] {
      var n := |asked| - 1;
      var init, last := asked[..n], asked[n];
      PhaseWithin(arms, have, init, width);
      ArmWithin(arms[n], have, last, width);
      assert arms[..n + 1][..n] == arms[..n];
      KeysJoin(AllRows(init), Rows(last));
      WithinJoin(AnswerKeys(AllRows(init)), Asked(arms[..n], have), AnswerKeys(Rows(last)), Unanswered(arms[n], have));
    }
  }

  /** If it lost nothing it records everything it asked for, and as often. */
  lemma {:induction false} PhaseWhole(arms: seq<seq<Key>>, have: seq<Key>, asked: seq<History<Answer>>, width: nat)
    requires AllRun(arms, have, asked, width) && DoneUpTo(arms, have, asked, |asked|) && NothingLost(asked)
    ensures Within(Asked(arms[..|asked|], have), AnswerKeys(AllRows(asked)))
  {
    if asked != [] {
      var n := |asked| - 1;
      var init, last := asked[..n], asked[n];
      PhaseWhole(arms, have, init, width);
      ArmWhole(arms[n], have, last, width);
      assert arms[..n + 1][..n] == arms[..n];
      KeysJoin(AllRows(init), Rows(last));
      WithinJoin(Asked(arms[..n], have), AnswerKeys(AllRows(init)), Unanswered(arms[n], have), AnswerKeys(Rows(last)));
    }
  }

  lemma {:induction false} NoErrorKept(arms: seq<seq<Key>>, have: seq<Key>, asked: seq<History<Answer>>, width: nat)
    requires AllRun(arms, have, asked, width)
    ensures forall k :: 0 <= k < |AllRows(asked)| ==> AllRows(asked)[k].error == ""
  {
    if asked != [] {
      NoErrorKept(arms, have, asked[..|asked| - 1], width);
    }
  }

  lemma {:induction false} UnansweredJoin(a: seq<Key>, b: seq<Key>, have: seq<Key>)
    ensures Unanswered(a + b, have) == Unanswered(a, have) + Unanswered(b, have)
  {
    if a == [] {
      assert a + b == b;
    } else {
      assert (a + b)[1..] == a[1..] + b;
      UnansweredJoin(a[1..], b, have);
    }
  }

  lemma {:induction false} NothingRecorded(todo: seq<Key>)
    ensures Unanswered(todo, []) == todo
  {
    if todo != [] {
      NothingRecorded(todo[1..]);
    }
  }

  /** What the arms ask is what they want and is not recorded, as often as they want it. */
  lemma {:induction false} AskedMeans(arms: seq<seq<Key>>, have: seq<Key>)
    ensures Asked(arms, have) == Unanswered(Wanted(arms), have)
  {
    if arms != [] {
      AskedMeans(arms[..|arms| - 1], have);
      UnansweredJoin(Wanted(arms[..|arms| - 1]), arms[|arms| - 1], have);
    }
  }

  /** Fewer arms ask less of the same. */
  lemma {:induction false} AskedPrefix(arms: seq<seq<Key>>, have: seq<Key>, n: nat)
    requires n <= |arms|
    ensures Within(Asked(arms[..n], have), Asked(arms, have))
    decreases |arms|
  {
    if n < |arms| {
      var init := arms[..|arms| - 1];
      AskedPrefix(init, have, n);
      assert init[..n] == arms[..n];
      if Distinct(Asked(arms, have)) {
        DistinctHalves(Asked(init, have), Unanswered(arms[|arms| - 1], have));
      }
    } else {
      assert arms[..n] == arms;
    }
  }

  /** What a phase adds was wanted and not recorded. */
  lemma PhaseKeys(arms: seq<seq<Key>>, have: seq<Key>, asked: seq<History<Answer>>, width: nat)
    requires AllRun(arms, have, asked, width)
    ensures forall key :: key in AnswerKeys(AllRows(asked)) ==> key in Wanted(arms) && key !in have
    ensures Distinct(Asked(arms, have)) ==> Distinct(AnswerKeys(AllRows(asked)))
  {
    PhaseWithin(arms, have, asked, width);
    AskedPrefix(arms, have, |asked|);
    AskedMeans(arms, have);
  }

  /** A phase, however it ended, adds clean rows under keys it was asked for and that were
      not recorded. */
  lemma PhaseReads(arms: seq<seq<Key>>, before: seq<Answer>, after: seq<Answer>, asked: seq<History<Answer>>,
                   width: nat, died: bool)
    requires Answered(arms, before, after, asked, width, died)
    ensures ReadStep(Wanted(arms), before, after)
    ensures Distinct(AnswerKeys(before)) && Distinct(Asked(arms, AnswerKeys(before))) ==> Distinct(AnswerKeys(after))
  {
    var have, rows := AnswerKeys(before), AllRows(asked);
    PhaseKeys(arms, have, asked, width);
    AskedMeans(arms, have);
    NoErrorKept(arms, have, asked, width);
    AddedRows(Wanted(arms), before, rows);
    KeysJoin(before, rows);
    if Distinct(have) && Distinct(Asked(arms, have)) {
      JoinFresh(have, AnswerKeys(rows));
    }
  }

  // ------------------------------------------------------ when it asks a thing twice

  /** A phase that runs to its end and loses nothing leaves every key once exactly when it
      found every key once and asked for none twice. */
  lemma TwiceExactlyWhen(arms: seq<seq<Key>>, before: seq<Answer>, after: seq<Answer>, asked: seq<History<Answer>>,
                         width: nat)
    requires Answered(arms, before, after, asked, width, false) && PhaseStop(asked).None? && NothingLost(asked)
    ensures Distinct(AnswerKeys(after)) <==>
      Distinct(AnswerKeys(before)) && Distinct(Asked(arms, AnswerKeys(before)))
  {
    var have := AnswerKeys(before);
    PhaseReads(arms, before, after, asked, width, false);
    LastDone(arms, have, asked);
    PhaseWhole(arms, have, asked, width);
    KeysJoin(before, AllRows(asked));
    assert arms[..|asked|] == arms;
    if Distinct(AnswerKeys(after)) {
      DistinctHalves(have, AnswerKeys(AllRows(asked)));
    }
  }

  lemma LastDone(arms: seq<seq<Key>>, have: seq<Key>, asked: seq<History<Answer>>)
    requires DoneUpTo(arms, have, asked, |asked| - 1) && Ended(arms, have, asked) && PhaseStop(asked).None?
    ensures DoneUpTo(arms, have, asked, |asked|)
  {
  }

  /** Every call succeeds, one at a time. */
  function Flawless(left: seq<Key>): History<Answer> {
    if left == [] then Start else
    var n := |left| - 1;
    Then(Then(Flawless(left[..n]), Submit(n)), Done(n, Ok(Answer(left[n], "", false, ""))))
  }

  lemma {:induction false} FlawlessRuns(left: seq<Key>, n: nat, width: nat)
    requires |left| <= n && width > 0
    ensures var h := Flawless(left);
      && Disciplined(h, n, width, READ_LIMIT) && Submitted(h) == |left| && InFlight(h) == {} && Losses(h) == 0
      && HealthOf(h, READ_LIMIT).stop.None? && Keyed(h, left)
  {
    if left != [] {
      FlawlessRuns(left[..|left| - 1], n, width);
    }
  }

  function FlawlessPhase(arms: seq<seq<Key>>, have: seq<Key>): (asked: seq<History<Answer>>)
    ensures |asked| == |arms|
  {
    seq(|arms|, i requires 0 <= i < |arms| => Flawless(Unanswered(arms[i], have)))
  }

  /** From any directory and for any arms there is a phase in which every call succeeds. */
  lemma FlawlessAnswers(arms: seq<seq<Key>>, before: seq<Answer>, width: nat, died: bool)
    requires width > 0
    ensures var asked := FlawlessPhase(arms, AnswerKeys(before));
      && Answered(arms, before, before + AllRows(asked), asked, width, died)
      && PhaseStop(asked).None? && NothingLost(asked)
  {
    var have := AnswerKeys(before);
    var asked := FlawlessPhase(arms, have);
    forall i | 0 <= i < |arms|
      ensures ArmRun(arms[i], have, asked[i], width) && ArmDone(arms[i], have, asked[i]) && Losses(asked[i]) == 0
    {
      var left := Unanswered(arms[i], have);
      FlawlessRuns(left, |left|, width);
    }
  }

  /** No phase, however it ends, can leave a key twice. */
  ghost predicate KeepsUnique(arms: seq<seq<Key>>, before: seq<Answer>) {
    forall after, asked, width: nat, died ::
      Answered(arms, before, after, asked, width, died) ==> Distinct(AnswerKeys(after))
  }

  /** Recorded questions are read once, before the first arm, and an arm's id does not name
      its categories: arms that share an id ask their common questions once each. Keys stay
      unique over every phase exactly when the arms want nothing twice that is not recorded
      yet. */
  lemma AskedOnceExactlyWhen(arms: seq<seq<Key>>, before: seq<Answer>)
    requires Distinct(AnswerKeys(before))
    ensures KeepsUnique(arms, before) <==> Distinct(Unanswered(Wanted(arms), AnswerKeys(before)))
  {
    var have := AnswerKeys(before);
    AskedMeans(arms, have);
    if Distinct(Asked(arms, have)) {
      forall after, asked, width: nat, died | Answered(arms, before, after, asked, width, died)
        ensures Distinct(AnswerKeys(after))
      {
        PhaseReads(arms, before, after, asked, width, died);
      }
    } else {
      var asked := FlawlessPhase(arms, have);
      FlawlessAnswers(arms, before, 1, false);
      TwiceExactlyWhen(arms, before, before + AllRows(asked), asked, 1);
    }
  }

  lemma FlawlessRow(key: Key)
    ensures Unanswered([key], []) == [key] && Rows(Flawless([key])) == [Answer(key, "", false, "")]
  {
    NothingRecorded([key]);
    var none := [key][..0];
    assert none == [] && Flawless(none).Start?;
  }

  lemma TwoRows(key: Key, h: History<Answer>)
    requires Rows(h) == [Answer(key, "", false, "")]
    ensures AnswerKeys(AllRows([h, h])) == [key, key]
  {
    MoreRows([], h);
    MoreRows([h], h);
    assert [h, h] == [h] + [h] && [h] == [] + [h];
  }

  lemma TwoFlawless(key: Key)
    ensures var asked := FlawlessPhase([[key], [key]], []);
      && AnswerKeys(AllRows(asked)) == [key, key]
      && Answered([[key], [key]], [], AllRows(asked), asked, 1, false)
  {
    var asked := FlawlessPhase([[key], [key]], []);
    FlawlessRow(key);
    TwoRows(key, Flawless([key]));
    assert asked == [Flawless([key]), Flawless([key])];
    assert AnswerKeys([]) == [] && [] + AllRows(asked) == AllRows(asked);
    FlawlessAnswers([[key], [key]], [], 1, false);
  }

  /** Two arms of one id, one restricted to the category of the only question: two rows for
      one key. */
  lemma AskedTwice(key: Key)
    ensures exists after, asked ::
      Answered([[key], [key]], [], after, asked, 1, false) && AnswerKeys(after) == [key, key]
  {
    TwoFlawless(key);
  }

  // --------------------------------------------------- when it leaves a question out

  /** The items whose reader came back with an error. */
  function FailedItems<R>(h: History<R>): set<nat> {
    match h
    case Start => {}
    case Then(past, Done(item, Failed(_))) => FailedItems(past) + {item}
    case Then(past, _) => FailedItems(past)
  }

  /** What item `item` of the pool has come to. */
  ghost predicate OneFate<R>(h: History<R>, item: nat) {
    && (item in InFlight(h) || item in Finishers(h) || item in FailedItems(h))
    && (item in FailedItems(h) ==> item !in InFlight(h) && item !in Finishers(h))
    && (item in Finishers(h) ==> item !in InFlight(h))
  }

  lemma SubmittedFate<R>(past: History<R>, n: nat, width: nat, next: nat, item: nat)
    requires Disciplined(Then(past, Submit(next)), n, width, READ_LIMIT) && item <= next
    requires item < next ==> OneFate(past, item)
    ensures OneFate(Then(past, Submit(next)), item)
  {
    FailedBefore(past, n, width);
    Accounting(past, n, width, READ_LIMIT);
    var h := Then(past, Submit(next));
    assert InFlight(h) == InFlight(past) + {next};
    assert Finishers(h) == Finishers(past) && FailedItems(h) == FailedItems(past);
    assert next !in Finishers(past) && next !in FailedItems(past);
  }

  lemma CompletedFate<R>(past: History<R>, done: nat, outcome: Outcome<R>, item: nat)
    requires done in InFlight(past) && !outcome.Quota? && OneFate(past, item)
    ensures OneFate(Then(past, Done(done, outcome)), item)
  {
  }

  /** While nothing has stopped the pool each submitted item is in flight, kept or failed,
      and exactly one of them. */
  lemma {:induction false} Fates<R>(h: History<R>, n: nat, width: nat, item: nat)
    requires Disciplined(h, n, width, READ_LIMIT) && HealthOf(h, READ_LIMIT).stop.None? && item < Submitted(h)
    ensures OneFate(h, item)
  {
    match h
    case Then(past, Submit(next)) =>
      if item < next {
        Fates(past, n, width, item);
      }
      SubmittedFate(past, n, width, next, item);
    case Then(past, Done(done, outcome)) =>
      Fates(past, n, width, item);
      CompletedFate(past, done, outcome, item);
  }

  lemma {:induction false} FailedBefore<R>(h: History<R>, n: nat, width: nat)
    requires Disciplined(h, n, width, READ_LIMIT)
    ensures forall item :: item in FailedItems(h) ==> item < Submitted(h)
  {
    if h.Then? {
      FailedBefore(h.past, n, width);
      InFlightBounded(h.past, n, width, READ_LIMIT);
    }
  }

  lemma {:induction false} LossesAreFailures<R>(h: History<R>)
    requires HealthOf(h, READ_LIMIT).stop.None?
    ensures Losses(h) == 0 <==> FailedItems(h) == {}
  {
    if h.Then? {
      LossesAreFailures(h.past);
    }
  }

  /** Each of its questions under `key` failed. */
  ghost predicate OnlyFailed(left: seq<Key>, h: History<Answer>, key: Key) {
    forall item: nat :: item < |left| && left[item] == key ==> item in FailedItems(h)
  }

  lemma ArmMisses(arm: seq<Key>, have: seq<Key>, h: History<Answer>, width: nat, key: Key)
    requires ArmRun(arm, have, h, width) && ArmDone(arm, have, h)
    ensures key !in AnswerKeys(Rows(h)) <==> OnlyFailed(Unanswered(arm, have), h, key)
  {
    var left, f, kept := Unanswered(arm, have), Finishers(h), AnswerKeys(Rows(h));
    assert forall k :: 0 <= k < |kept| ==> f[k] < |left| && kept[k] == left[f[k]];
    Accounting(h, |left|, width, READ_LIMIT);
    if key in kept {
      var k :| 0 <= k < |kept| && kept[k] == key;
      assert f[k] in f;
      Fates(h, |left|, width, f[k]);
    } else {
      forall item: nat | item < |left| && left[item] == key
        ensures item in FailedItems(h)
      {
        Fates(h, |left|, width, item);
        assert forall k :: 0 <= k < |f| ==> kept[k] != key && f[k] != item;
      }
    }
  }

  lemma {:induction false} RowsOfArms(asked: seq<History<Answer>>, key: Key)
    ensures key !in AnswerKeys(AllRows(asked)) <==> forall i :: 0 <= i < |asked| ==> key !in AnswerKeys(Rows(asked[i]))
  {
    if asked != [] {
      var n := |asked| - 1;
      RowsOfArms(asked[..n], key);
      KeysJoin(AllRows(asked[..n]), Rows(asked[n]));
      assert forall i :: 0 <= i < n ==> asked[..n][i] == asked[i];
    }
  }

  /** A phase that returns normally leaves a wanted question unanswered exactly when it was
      not recorded before and every call on it, in whichever arm, came back with an error. */
  lemma UnansweredExactlyWhen(arms: seq<seq<Key>>, before: seq<Answer>, after: seq<Answer>,
                              asked: seq<History<Answer>>, width: nat, key: Key)
    requires Answered(arms, before, after, asked, width, false) && PhaseStop(asked).None?
    ensures key !in AnswerKeys(after) <==>
      && key !in AnswerKeys(before)
      && forall i :: 0 <= i < |arms| ==> OnlyFailed(Unanswered(arms[i], AnswerKeys(before)), asked[i], key)
  {
    var have := AnswerKeys(before);
    LastDone(arms, have, asked);
    KeysJoin(before, AllRows(asked));
    RowsOfArms(asked, key);
    forall i | 0 <= i < |arms|
      ensures key !in AnswerKeys(Rows(asked[i])) <==> OnlyFailed(Unanswered(arms[i], have), asked[i], key)
    {
      ArmMisses(arms[i], have, asked[i], width, key);
    }
  }

  ghost predicate NoneFailed(asked: seq<History<Answer>>) {
    forall i :: 0 <= i < |asked| ==> FailedItems(asked[i]) == {}
  }

  lemma ArmCount(arm: seq<Key>, have: seq<Key>, h: History<Answer>, width: nat)
    requires ArmRun(arm, have, h, width) && ArmDone(arm, have, h)
    ensures |Rows(h)| + Losses(h) == |Unanswered(arm, have)|
  {
    Accounting(h, |Unanswered(arm, have)|, width, READ_LIMIT);
  }

  lemma LostAtLast(asked: seq<History<Answer>>)
    requires asked != []
    ensures var n := |asked| - 1; NothingLost(asked) <==> NothingLost(asked[..n]) && Losses(asked[n]) == 0
  {
    var n := |asked| - 1;
    assert forall i :: 0 <= i < n ==> asked[..n][i] == asked[i];
  }

  lemma ArmsBefore(arms: seq<seq<Key>>, have: seq<Key>, asked: seq<History<Answer>>, width: nat)
    requires AllRun(arms, have, asked, width) && DoneUpTo(arms, have, asked, |asked|) && asked != []
    ensures var n := |asked| - 1;
      && AllRun(arms, have, asked[..n], width) && DoneUpTo(arms, have, asked[..n], n)
      && ArmRun(arms[n], have, asked[n], width) && ArmDone(arms[n], have, asked[n])
  {
  }

  lemma {:induction false} PhaseCount(arms: seq<seq<Key>>, have: seq<Key>, asked: seq<History<Answer>>, width: nat)
    requires AllRun(arms, have, asked, width) && DoneUpTo(arms, have, asked, |asked|)
    ensures |AllRows(asked)| <= |Asked(arms[..|asked|], have)|
    ensures |AllRows(asked)| == |Asked(arms[..|asked|], have)| <==> NothingLost(asked)
  {
    if asked != [] {
      var n := |asked| - 1;
      ArmsBefore(arms, have, asked, width);
      PhaseCount(arms, have, asked[..n], width);
      AskedNext(arms, have, n);
      ArmCount(arms[n], have, asked[n], width);
      LostAtLast(asked);
    }
  }

  lemma LossesOfPhase(arms: seq<seq<Key>>, have: seq<Key>, asked: seq<History<Answer>>)
    requires DoneUpTo(arms, have, asked, |asked|)
    ensures NoneFailed(asked) <==> NothingLost(asked)
  {
    forall i | 0 <= i < |asked|
      ensures Losses(asked[i]) == 0 <==> FailedItems(asked[i]) == {}
    {
      assert ArmDone(arms[i], have, asked[i]);
      LossesAreFailures(asked[i]);
    }
  }

  lemma Longest(part: seq<Key>, whole: seq<Key>)
    requires Distinct(whole) && forall key :: key in whole ==> key in part
    ensures |whole| <= |part|
  {
    DistinctSize(whole);
    AtMost(part);
    Smaller(set x | x in whole, set x | x in part);
  }

  lemma {:induction false} AtMost(s: seq<Key>)
    ensures |set x | x in s| <= |s|
  {
    if s != [] {
      var t := s[..|s| - 1];
      AtMost(t);
      assert (set x | x in s) == (set x | x in t) + {s[|s| - 1]};
    }
  }

  /** Where a question is asked once at most, a phase that returns normally has answered
      everything exactly when no call failed. */
  lemma AllAnsweredExactlyWhen(arms: seq<seq<Key>>, before: seq<Answer>, after: seq<Answer>,
                               asked: seq<History<Answer>>, width: nat)
    requires Answered(arms, before, after, asked, width, false) && PhaseStop(asked).None?
    ensures NoneFailed(asked) ==> AllAnswered(Wanted(arms), after)
    ensures Distinct(Unanswered(Wanted(arms), AnswerKeys(before))) ==>
      (AllAnswered(Wanted(arms), after) <==> NoneFailed(asked))
  {
    var have := AnswerKeys(before);
    LastDone(arms, have, asked);
    LossesOfPhase(arms, have, asked);
    AskedMeans(arms, have);
    KeysJoin(before, AllRows(asked));
    assert arms[..|asked|] == arms;
    if NoneFailed(asked) {
      PhaseWhole(arms, have, asked, width);
    } else if Distinct(Asked(arms, have)) && AllAnswered(Wanted(arms), after) {
      PhaseCount(arms, have, asked, width);
      Longest(AnswerKeys(AllRows(asked)), Asked(arms, have));
    }
  }

  /** The histories over which the answer phase returns normally with questions
      unanswered are exactly those an offline pass reports as residual errors. */
  lemma SilentLoss<R>(h: History<R>, n: nat, width: nat)
    requires Disciplined(h, n, width, READ_LIMIT) && Drained(h, n, READ_LIMIT)
    ensures HealthOf(h, READ_LIMIT).stop.None? && Losses(h) > 0 <==>
      Report(h, n, READ_LIMIT).Some? && Report(h, n, READ_LIMIT).value.Residual?
  {
    Accounting(h, n, width, READ_LIMIT);
    BreakerTripsAtTheLimit(h, READ_LIMIT);
  }

  /** One reader error among otherwise healthy calls is such a history. */
  lemma SilentLossHappens(width: nat)
    requires width > 0
    ensures var h: History<Answer> := Then(Then(Start, Submit(0)), Done(0, Failed("timeout")));
      && Disciplined(h, 1, width, READ_LIMIT) && Drained(h, 1, READ_LIMIT)
      && HealthOf(h, READ_LIMIT).stop.None? && Rows(h) == []
  {
    var none: History<Answer> := Start;
    assert Submitted(none) == 0 && InFlight(none) == {} && HealthOf(none, READ_LIMIT).stop.None?;
    var asked := Then(none, Submit(0));
    assert Disciplined(asked, 1, width, READ_LIMIT) && InFlight(asked) == {0} && Submitted(asked) == 1;
    assert HealthOf(asked, READ_LIMIT) == Health(0, "", None) && Rows(asked) == [];
  }
}
