/** The outer loop that relaunches a pass until it is complete, with the reading of
    a cycle's output and the sleeps between cycles. */
module Supervise {
  import opened Options
  import opened Pool
  import opened Offline

  // ------------------------------------------------------- reading a cycle's output

  datatype Klass = Transient | Usage | Halt

  /** A line of captured output: a declared `[stop] class=...`, or prose that may or
      may not contain one of the usage-limit signs. */
  datatype Line = Declared(word: string) | Prose(usageSign: bool)

  function StopClass(reason: Stop): string {
    match reason
    case UsageLimit(_) => "usage"
    case Residual(_, _) => "transient"
    case Breaker(_, _) => "hard"
  }

  function KlassOf(word: string): Klass {
    if word == "transient" then Transient else if word == "usage" then Usage else Halt
  }

  function LastDeclared(tail: seq<Line>): Option<string> {
    if tail == [] then None
    else if tail[|tail| - 1].Declared? then Some(tail[|tail| - 1].word)
    else LastDeclared(tail[..|tail| - 1])
  }

  function ClassifyStop(tail: seq<Line>): Klass {
    match LastDeclared(tail)
    case Some(word) => KlassOf(word)
    case None => if exists line :: line in tail && line == Prose(true) then Usage else Halt
  }

  /** A clean stop ends its output with its class, after whatever it printed before;
      a killed or finished run declares nothing of its own. */
  function Output(exit: Exit, printed: seq<Line>): seq<Line> {
    if exit.Stopped? then printed + [Declared(StopClass(exit.reason))] else printed
  }

  /** Nothing printed before a stop can reroute it: a usage limit sleeps, failures
      left over back off, and a tripped breaker halts. */
  lemma DeclaredClassWins(reason: Stop, printed: seq<Line>)
    ensures ClassifyStop(Output(Stopped(reason), printed)) ==
      match reason { case UsageLimit(_) => Usage case Residual(_, _) => Transient case Breaker(_, _) => Halt }
    ensures Output(Stopped(reason), printed)[|printed|..] == [Declared(
      match reason { case UsageLimit(_) => "usage" case Residual(_, _) => "transient" case Breaker(_, _) => "hard" })]
  {
    var tail := Output(Stopped(reason), printed);
    assert tail[|tail| - 1] == Declared(StopClass(reason));
  }

  /** The last class line of a cycle decides; without one, the words of its prose do. */
  lemma {:induction false} LastLineDecides(tail: seq<Line>, k: nat)
    requires k < |tail| && tail[k].Declared?
    requires forall j :: k < j < |tail| ==> tail[j].Prose?
    ensures ClassifyStop(tail) ==
      match tail[k].word { case "transient" => Transient case "usage" => Usage case _ => Halt }
  {
    LastDeclaredIs(tail, k);
  }

  lemma {:induction false} LastDeclaredIs(tail: seq<Line>, k: nat)
    requires k < |tail| && tail[k].Declared? && forall j :: k < j < |tail| ==> tail[j].Prose?
    ensures LastDeclared(tail) == Some(tail[k].word)
  {
    if k < |tail| - 1 {
      LastDeclaredIs(tail[..|tail| - 1], k);
    }
  }

  lemma ProseDecides(tail: seq<Line>)
    requires forall j :: 0 <= j < |tail| ==> tail[j].Prose?
    ensures ClassifyStop(tail) == Usage <==> exists j :: 0 <= j < |tail| && tail[j].usageSign
    ensures ClassifyStop(tail) != Transient
  {
    NoneDeclared(tail);
    if j :| 0 <= j < |tail| && tail[j].usageSign {
      assert tail[j] in tail && tail[j] == Prose(true);
    }
  }

  lemma {:induction false} NoneDeclared(tail: seq<Line>)
    requires forall j :: 0 <= j < |tail| ==> tail[j].Prose?
    ensures LastDeclared(tail).None?
  {
    if tail != [] {
      NoneDeclared(tail[..|tail| - 1]);
    }
  }

  // ---------------------------------------------------------- backoff and its streak

  /** What a cycle's output says of a reset, and the times of day at which that is read and
      at which the sleep begins. */
  datatype Reset = Reset(text: Option<ResetText>, now: real, later: real)

  /** A cycle that ended incomplete. */
  datatype Cycle = Cycle(klass: Klass, progressed: bool, reset: Reset)

  const MAX_TRANSIENT_RETRIES: nat := 6
  const BACKOFF_CAP: nat := 300

  function Streak(cycles: seq<Cycle>): nat {
    if cycles == [] then 0 else
    var last := cycles[|cycles| - 1];
    if last.klass != Transient then 0
    else if last.progressed then 1
    else Streak(cycles[..|cycles| - 1]) + 1
  }

  function Pow2(n: nat): nat {
    if n == 0 then 1 else 2 * Pow2(n - 1)
  }

  function Backoff(streak: nat): nat
    requires streak > 0
  {
    if 30 * Pow2(streak - 1) < BACKOFF_CAP then 30 * Pow2(streak - 1) else BACKOFF_CAP
  }

  /** The first backoff of a streak is half a minute, and each later one doubles it, up to
      five minutes. */
  lemma BackoffDoubles(streak: nat)
    requires streak > 0
    ensures Backoff(1) == 30
    ensures Backoff(streak + 1) == if 2 * Backoff(streak) < 300 then 2 * Backoff(streak) else 300
  {
    PowPositive(streak - 1);
  }

  /** The streak reaches `m` exactly when the last `m` cycles were all transient and
      only the first of them may have added an answer. */
  lemma {:induction false} StreakMeaning(cycles: seq<Cycle>, m: nat)
    requires m > 0
    ensures Streak(cycles) >= m <==>
      && |cycles| >= m
      && (forall k :: |cycles| - m <= k < |cycles| ==> cycles[k].klass == Transient)
      && (forall k :: |cycles| - m < k < |cycles| ==> !cycles[k].progressed)
  {
    if cycles != [] && m > 1 {
      StreakMeaning(cycles[..|cycles| - 1], m - 1);
    }
  }

  lemma {:induction false} BackoffBounds(a: nat, b: nat)
    requires 0 < a <= b
    ensures 30 <= Backoff(a) <= Backoff(b) <= 300
  {
    if a < b {
      BackoffBounds(a, b - 1);
    } else {
      PowPositive(a - 1);
    }
  }

  lemma {:induction false} PowPositive(n: nat)
    ensures Pow2(n) >= 1
  {
    if n > 0 {
      PowPositive(n - 1);
    }
  }

  // ------------------------------------------------------------ sleeping to a reset

  datatype Meridiem = Am | Pm | Unstated

  /** The fields matched in "resets 5:50pm (Zone)"; an unknown zone is no match. */
  datatype ResetText = ResetText(hour: nat, minute: Option<nat>, meridiem: Meridiem)

  const DAY := 86400.0
  const MAX_PARSED_SLEEP := 43200.0

  function Hour24(r: ResetText): nat {
    if r.meridiem == Pm && r.hour != 12 then r.hour + 12
    else if r.meridiem == Am && r.hour == 12 then 0
    else r.hour
  }

  /** Seconds past midnight of the next reset, counted from today's midnight, given
      the time of day `now` in the reset's zone. */
  function ParseReset(text: Option<ResetText>, now: real): Option<real> {
    if text.None? then None else
    var r := text.value;
    var minute := if r.minute.Some? then r.minute.value else 0;
    if r.meridiem == Unstated && r.minute.None? then None
    else if Hour24(r) > 23 || minute > 59 then None
    else
      var target := (Hour24(r) * 3600 + minute * 60) as real;
      Some(if target <= now then target + DAY else target)
  }

  /** The sleep of a usage stop, decided at `later`, when the reset was parsed at `now`. */
  function UsageSleep(text: Option<ResetText>, now: real, later: real, fallback: real): real {
    match ParseReset(text, now)
    case None => fallback
    case Some(target) =>
      var parsed := target + 600.0 - later;
      if 0.0 < parsed <= MAX_PARSED_SLEEP then (if parsed < 60.0 then 60.0 else parsed) else fallback
  }

  /** A parsed reset lies within the next day, and a sleep taken from it ends no
      earlier than ten minutes after the reset and lasts at most twelve hours. */
  lemma ResetIsNext(text: Option<ResetText>, now: real, later: real, fallback: real)
    requires 0.0 <= now < DAY && now <= later
    ensures var target := ParseReset(text, now);
      target.Some? ==>
        && now < target.value <= now + DAY
        && (UsageSleep(text, now, later, fallback) != fallback ==>
              && later + UsageSleep(text, now, later, fallback) >= target.value + 600.0
              && 60.0 <= UsageSleep(text, now, later, fallback) <= MAX_PARSED_SLEEP)
  {
    var target := ParseReset(text, now);
    if target.Some? {
      var r := text.value;
      var seconds := Hour24(r) * 3600 + (if r.minute.Some? then r.minute.value else 0) * 60;
      assert seconds <= 23 * 3600 + 59 * 60;
      assert seconds as real <= 86340.0;
    }
  }

  /** The stated time is `hour`:`minute` of the day: as it stands on a 24-hour clock, which
      must name its minutes; and by the half of the day on a 12-hour one. */
  ghost predicate ReadsAs(r: ResetText, hour: nat, minute: nat) {
    && hour < 24 && minute < 60 && minute == (match r.minute case Some(m) => m case None => 0)
    && (r.meridiem == Unstated ==> r.minute.Some? && hour == r.hour)
    && (r.meridiem != Unstated && r.hour <= 12 ==> hour % 12 == r.hour % 12 && (hour >= 12 <==> r.meridiem == Pm))
    && (r.hour > 12 ==> r.meridiem != Pm && hour == r.hour)
  }

  /** `target` is the next time of day after `now` that the text states. */
  ghost predicate NextReset(reset: Reset, target: real) {
    && reset.text.Some?
    && exists hour: nat, minute: nat :: ReadsAs(reset.text.value, hour, minute)
         && target == NextTime(3600 * hour + 60 * minute, reset.now)
  }

  function NextTime(clock: nat, now: real): real {
    if clock as real > now then clock as real else clock as real + 86400.0
  }

  lemma ParsesAs(r: ResetText, hour: nat, minute: nat)
    ensures ReadsAs(r, hour, minute) <==>
      && !(r.meridiem == Unstated && r.minute.None?) && Hour24(r) <= 23
      && hour == Hour24(r) && minute < 60 && minute == (if r.minute.Some? then r.minute.value else 0)
  {
  }

  /** A reset is parsed exactly when the text states a time, and it is the next such time. */
  lemma ParsedExactlyWhen(reset: Reset, target: real)
    ensures ParseReset(reset.text, reset.now) == Some(target) <==> NextReset(reset, target)
  {
    if reset.text.Some? {
      var r := reset.text.value;
      var minute := if r.minute.Some? then r.minute.value else 0;
      if ParseReset(reset.text, reset.now) == Some(target) {
        ParsesAs(r, Hour24(r), minute);
      }
      if NextReset(reset, target) {
        var h: nat, m: nat :| ReadsAs(r, h, m) && target == NextTime(3600 * h + 60 * m, reset.now);
        ParsesAs(r, h, m);
      }
    }
  }

  /** How long a usage stop sleeps: to ten minutes past the next reset, at least a minute, if
      one is stated and that time is within twelve hours of the start of the sleep. */
  ghost predicate SleepsUntil(reset: Reset, fallback: real, length: real) {
    if exists target :: NextReset(reset, target) && InReach(target + 600.0 - reset.later)
    then exists target :: NextReset(reset, target) && InReach(target + 600.0 - reset.later)
           && length == if target + 600.0 - reset.later < 60.0 then 60.0 else target + 600.0 - reset.later
    else length == fallback
  }

  ghost predicate InReach(length: real) {
    0.0 < length <= 12.0 * 3600.0
  }

  lemma UsageSleepIs(reset: Reset, fallback: real)
    ensures SleepsUntil(reset, fallback, UsageSleep(reset.text, reset.now, reset.later, fallback))
  {
    forall target
      ensures ParseReset(reset.text, reset.now) == Some(target) <==> NextReset(reset, target)
    {
      ParsedExactlyWhen(reset, target);
    }
  }

  // ----------------------------------------------------------------------- the loop

  datatype Sleep = BackoffFor(seconds: nat) | UntilReset(length: real)

  /** Nothing so far called for a halt. */
  ghost predicate GoesOn(cycles: seq<Cycle>) {
    cycles == [] ||
    (&& GoesOn(cycles[..|cycles| - 1])
     && cycles[|cycles| - 1].klass != Halt
     && Streak(cycles) <= MAX_TRANSIENT_RETRIES)
  }

  /** What a cycle wrote besides its class line, and what that says of a reset. */
  datatype Printed = Printed(lines: seq<Line>, reset: Reset)

  /** The cycle that a launch from `d` to `e` is logged as. */
  ghost predicate LoggedAs(c: Cycle, d: Disk, e: Disk, exit: Exit, printed: Printed) {
    && c.klass == ClassifyStop(Output(exit, printed.lines)) && c.reset == printed.reset
    && (c.progressed <==> |d.answers| < |e.answers|)
    && !IsComplete(e)
  }

  ghost predicate Logged(cycles: seq<Cycle>, disks: seq<Disk>, exits: seq<Exit>, printed: nat -> Printed) {
    && |cycles| <= |exits| < |disks|
    && forall k: nat :: k < |cycles| ==> LoggedAs(cycles[k], disks[k], disks[k + 1], exits[k], printed(k))
  }

  /** The sleep after the last of these cycles. */
  function SleepAfter(cycles: seq<Cycle>, fallback: real): Sleep
    requires cycles != []
  {
    var last := cycles[|cycles| - 1];
    if last.klass == Transient then BackoffFor(Backoff(Streak(cycles)))
    else UntilReset(UsageSleep(last.reset.text, last.reset.now, last.reset.later, fallback))
  }

  function SleptThrough(cycles: seq<Cycle>, fallback: real): seq<Sleep> {
    if cycles == [] then [] else SleptThrough(cycles[..|cycles| - 1], fallback) + [SleepAfter(cycles, fallback)]
  }

  /** A sleep is a backoff between half a minute and five minutes, the fallback, or one that
      ends ten minutes after a reset, or later, and lasts from one minute to twelve hours. */
  ghost predicate RightSleep(s: Sleep, reset: Reset, fallback: real) {
    match s
    case BackoffFor(seconds) => 30 <= seconds <= 300
    case UntilReset(length) =>
      || length == fallback
      || (&& ParseReset(reset.text, reset.now).Some?
          && reset.later + length >= ParseReset(reset.text, reset.now).value + 600.0
          && 60.0 <= length <= MAX_PARSED_SLEEP)
  }

  /** The sleep after cycle `k`, by the cycles and the sleep before it. */
  ghost predicate SleptRight(cycles: seq<Cycle>, sleeps: seq<Sleep>, k: nat, fallback: real)
    requires k < |sleeps| <= |cycles|
  {
    match cycles[k].klass
    case Usage => sleeps[k].UntilReset? && SleepsUntil(cycles[k].reset, fallback, sleeps[k].length)
    case Transient =>
      if k > 0 && !cycles[k].progressed && cycles[k - 1].klass == Transient
      then sleeps[k - 1].BackoffFor? && sleeps[k] == BackoffFor(Doubled(sleeps[k - 1].seconds))
      else sleeps[k] == BackoffFor(30)
    case Halt => true
  }

  function Doubled(seconds: nat): nat {
    if 2 * seconds < 300 then 2 * seconds else 300
  }

  ghost predicate SleepsAs(cycles: seq<Cycle>, sleeps: seq<Sleep>, fallback: real) {
    |sleeps| <= |cycles| && forall k: nat :: k < |sleeps| ==> SleptRight(cycles, sleeps, k, fallback)
  }

  /** Another transient cycle in a row that adds nothing makes the streak one longer. */
  lemma LongerStreak(cycles: seq<Cycle>)
    requires |cycles| >= 2 && cycles[|cycles| - 1].klass == Transient == cycles[|cycles| - 2].klass
    requires !cycles[|cycles| - 1].progressed
    ensures Streak(cycles) == Streak(cycles[..|cycles| - 1]) + 1 && Streak(cycles[..|cycles| - 1]) > 0
  {
  }

  lemma LastSlept(cycles: seq<Cycle>, fallback: real)
    requires cycles != []
    ensures var sleeps := SleptThrough(cycles, fallback);
      |sleeps| == |cycles| && SleptRight(cycles, sleeps, |cycles| - 1, fallback)
  {
    var last := |cycles| - 1;
    SleptLength(cycles, fallback);
    if cycles[last].klass == Usage {
      UsageSleepIs(cycles[last].reset, fallback);
    } else if cycles[last].klass == Transient {
      if last > 0 && !cycles[last].progressed && cycles[last - 1].klass == Transient {
        SleptLength(cycles[..last], fallback);
        LongerStreak(cycles);
        BackoffDoubles(Streak(cycles[..last]));
        assert SleptThrough(cycles, fallback)[last - 1] == SleepAfter(cycles[..last], fallback);
      } else {
        BackoffDoubles(1);
        assert Streak(cycles) == 1;
      }
    }
  }

  lemma {:induction false} SleptLength(cycles: seq<Cycle>, fallback: real)
    ensures |SleptThrough(cycles, fallback)| == |cycles|
  {
    if cycles != [] {
      SleptLength(cycles[..|cycles| - 1], fallback);
    }
  }

  /** Over all the cycles of a loop: a usage stop sleeps to the reset it states, or the
      fallback; the backoff after a transient cycle starts at half a minute and doubles while
      no cycle adds anything. */
  lemma {:induction false} SleepsMean(cycles: seq<Cycle>, fallback: real)
    ensures SleepsAs(cycles, SleptThrough(cycles, fallback), fallback)
  {
    SleptLength(cycles, fallback);
    if cycles != [] {
      var init := cycles[..|cycles| - 1];
      SleepsMean(init, fallback);
      SleptLength(init, fallback);
      LastSlept(cycles, fallback);
      forall k: nat | k < |init|
        ensures SleptRight(cycles, SleptThrough(cycles, fallback), k, fallback)
      {
        assert SleptRight(init, SleptThrough(init, fallback), k, fallback);
      }
    }
  }

  lemma SleepsOfMore(cycles: seq<Cycle>, sleeps: seq<Sleep>, fallback: real)
    requires cycles != [] && SleepsAs(cycles[..|cycles| - 1], sleeps, fallback)
    ensures SleepsAs(cycles, sleeps, fallback)
  {
    var init := cycles[..|cycles| - 1];
    forall k: nat | k < |sleeps|
      ensures SleptRight(cycles, sleeps, k, fallback)
    {
      assert SleptRight(init, sleeps, k, fallback);
    }
  }

  lemma SleepIsRight(cycles: seq<Cycle>, fallback: real)
    requires cycles != [] && 0.0 <= cycles[|cycles| - 1].reset.now < DAY
    requires cycles[|cycles| - 1].reset.now <= cycles[|cycles| - 1].reset.later
    ensures RightSleep(SleepAfter(cycles, fallback), cycles[|cycles| - 1].reset, fallback)
  {
    var last := cycles[|cycles| - 1];
    if last.klass == Transient {
      BackoffBounds(Streak(cycles), Streak(cycles));
    } else {
      ResetIsNext(last.reset.text, last.reset.now, last.reset.later, fallback);
    }
  }

  /** There is one sleep for each cycle, and each is right for its cycle. */
  lemma {:induction false} SleepsAreRight(cycles: seq<Cycle>, fallback: real)
    requires forall k :: 0 <= k < |cycles| ==>
      0.0 <= cycles[k].reset.now < DAY && cycles[k].reset.now <= cycles[k].reset.later
    ensures |SleptThrough(cycles, fallback)| == |cycles|
    ensures forall k :: 0 <= k < |cycles| ==> RightSleep(SleptThrough(cycles, fallback)[k], cycles[k].reset, fallback)
  {
    if cycles != [] {
      SleepsAreRight(cycles[..|cycles| - 1], fallback);
      SleepIsRight(cycles, fallback);
    }
  }

  /** While transient cycles follow one another without progress the backoff never
      shortens, and it is always between half a minute and five minutes. */
  lemma {:induction false} BackoffsGrow(cycles: seq<Cycle>, i: nat, j: nat, fallback: real)
    requires i <= j < |cycles|
    requires forall k :: i <= k <= j ==> cycles[k].klass == Transient
    requires forall k :: i < k <= j ==> !cycles[k].progressed
    ensures SleepAfter(cycles[..i + 1], fallback).BackoffFor? && SleepAfter(cycles[..j + 1], fallback).BackoffFor?
    ensures 30 <= SleepAfter(cycles[..i + 1], fallback).seconds <= SleepAfter(cycles[..j + 1], fallback).seconds <= 300
  {
    StreakGrows(cycles, i, j);
    BackoffBounds(Streak(cycles[..i + 1]), Streak(cycles[..j + 1]));
  }

  lemma {:induction false} StreakGrows(cycles: seq<Cycle>, i: nat, j: nat)
    requires i <= j < |cycles|
    requires forall k :: i <= k <= j ==> cycles[k].klass == Transient
    requires forall k :: i < k <= j ==> !cycles[k].progressed
    ensures 0 < Streak(cycles[..i + 1]) <= Streak(cycles[..j + 1])
  {
    if i < j {
      StreakGrows(cycles, i, j - 1);
      assert cycles[..j + 1][..j] == cycles[..j];
    }
  }

  /** The supervisor goes on after these cycles, having slept after each. */
  ghost predicate Continues(cycles: seq<Cycle>, streak: nat, sleeps: seq<Sleep>, fallback: real) {
    streak == Streak(cycles) && GoesOn(cycles) && sleeps == SleptThrough(cycles, fallback)
  }

  /** It halts at the last of these cycles, having slept after each of the others. */
  ghost predicate HaltsAt(cycles: seq<Cycle>, sleeps: seq<Sleep>, fallback: real) {
    && cycles != [] && !GoesOn(cycles) && GoesOn(cycles[..|cycles| - 1])
    && sleeps == SleptThrough(cycles[..|cycles| - 1], fallback)
  }

  lemma SleptSoFar(cycles: seq<Cycle>, streak: nat, sleeps: seq<Sleep>, fallback: real)
    requires Continues(cycles, streak, sleeps, fallback) || HaltsAt(cycles, sleeps, fallback)
    ensures SleepsAs(cycles, sleeps, fallback)
  {
    if Continues(cycles, streak, sleeps, fallback) {
      SleepsMean(cycles, fallback);
    } else {
      SleepsMean(cycles[..|cycles| - 1], fallback);
      SleepsOfMore(cycles, sleeps, fallback);
    }
  }

  /** What one stopped cycle leads to: a halt, or one more sleep. */
  method React(c: Cycle, before: nat, slept: seq<Sleep>, fallback: real, ghost cycles: seq<Cycle>)
    returns (streak: nat, halted: bool, sleeps: seq<Sleep>)
    requires Continues(cycles, before, slept, fallback)
    ensures if halted then HaltsAt(cycles + [c], sleeps, fallback) else Continues(cycles + [c], streak, sleeps, fallback)
    ensures SleepsAs(cycles + [c], sleeps, fallback)
  {
    assert (cycles + [c])[..|cycles|] == cycles;
    streak, halted, sleeps := before, false, slept;
    if c.klass == Transient {
      if c.progressed {
        streak := 0;
      }
      streak := streak + 1;
      halted := streak > MAX_TRANSIENT_RETRIES;
      if !halted {
        sleeps := sleeps + [BackoffFor(Backoff(streak))];
      }
    } else {
      streak := 0;
      halted := c.klass != Usage;
      if !halted {
        sleeps := sleeps + [UntilReset(UsageSleep(c.reset.text, c.reset.now, c.reset.later, fallback))];
      }
    }
    SleptSoFar(cycles + [c], streak, sleeps, fallback);
  }

  ghost predicate Supervised(todo: seq<Key>, first: Disk, cycles: seq<Cycle>, disks: seq<Disk>, exits: seq<Exit>,
                             printed: nat -> Printed) {
    && RunOf(todo, disks, exits) && disks[0] == first
    && Logged(cycles, disks, exits, printed)
  }

  /** Only launches that something may kill crash. */
  ghost predicate KilledOnly(exits: seq<Exit>, mayDie: nat -> bool) {
    forall k :: 0 <= k < |exits| && exits[k].Crashed? ==> mayDie(k)
  }

  /** Launches once and classifies how the launch stopped. */
  method OneCycle(dir: RunDir, todo: seq<Key>, read: (nat, Key) -> Outcome<Answer>,
                  grade: (nat, Answer) -> Outcome<Grade>, readers: int, judges: int, mayDie: nat -> bool,
                  cycle: nat, printed: nat -> Printed,
                  ghost first: Disk, ghost cycles: seq<Cycle>, ghost disks: seq<Disk>, ghost exits: seq<Exit>)
    returns (c: Cycle, ghost exit: Exit)
    requires dir.Valid()
    requires forall tick, key :: read(tick, key).Ok? ==> read(tick, key).row.key == key
    requires |cycles| == |exits| == cycle && Supervised(todo, first, cycles, disks, exits, printed)
    requires disks[|exits|] == dir.View()
    modifies dir, dir.answers, dir.verdicts
    ensures Supervised(todo, first, if IsComplete(dir.View()) then cycles else cycles + [c],
                       disks + [dir.View()], exits + [exit], printed)
    ensures exit.Crashed? ==> mayDie(cycle)
  {
    var before := |dir.answers.rows|;
    var outcome;
    ghost var reading, grading;
    outcome, reading, grading := dir.Launch(todo, read, grade, readers, judges, mayDie(cycle));
    c := Cycle(ClassifyStop(Output(outcome, printed(cycle).lines)), before < |dir.answers.rows|, printed(cycle).reset);
    exit := outcome;
  }

  /** One turn of the loop: a launch, and unless it completed the run, a halt or a sleep. */
  method OneTurn(dir: RunDir, todo: seq<Key>, read: (nat, Key) -> Outcome<Answer>,
                 grade: (nat, Answer) -> Outcome<Grade>, readers: int, judges: int, mayDie: nat -> bool, cycle: nat,
                 fallback: real, printed: nat -> Printed, before: nat, slept: seq<Sleep>,
                 ghost first: Disk, ghost past: seq<Cycle>, ghost disks0: seq<Disk>, ghost exits0: seq<Exit>)
    returns (rc: int, streak: nat, sleeps: seq<Sleep>,
             ghost cycles: seq<Cycle>, ghost disks: seq<Disk>, ghost exits: seq<Exit>)
    requires dir.Valid()
    requires forall tick, key :: read(tick, key).Ok? ==> read(tick, key).row.key == key
    requires |past| == |exits0| == cycle && Supervised(todo, first, past, disks0, exits0, printed)
    requires disks0[|exits0|] == dir.View()
    requires Continues(past, before, slept, fallback) && KilledOnly(exits0, mayDie)
    modifies dir, dir.answers, dir.verdicts
    ensures Supervised(todo, first, cycles, disks, exits, printed)
    ensures |exits| == cycle + 1 && disks[cycle + 1] == dir.View()
    ensures KilledOnly(exits, mayDie)
    ensures rc == 0 || rc == 2 || rc == 3
    ensures rc == 0 <==> IsComplete(dir.View())
    ensures rc == 0 ==> |cycles| == cycle && Continues(cycles, streak, sleeps, fallback)
    ensures rc == 2 ==> |cycles| == cycle + 1 && HaltsAt(cycles, sleeps, fallback)
    ensures rc == 3 ==> |cycles| == cycle + 1 && Continues(cycles, streak, sleeps, fallback)
  {
    rc, streak, sleeps := 0, before, slept;
    var c;
    ghost var exit;
    c, exit := OneCycle(dir, todo, read, grade, readers, judges, mayDie, cycle, printed, first, past, disks0, exits0);
    cycles := if IsComplete(dir.View()) then past else past + [c];
    disks, exits := disks0 + [dir.View()], exits0 + [exit];
    if !IsComplete(dir.View()) {
      var halted;
      streak, halted, sleeps := React(c, before, slept, fallback, past);
      rc := if halted then 2 else 3;
    }
  }

  /** Supervises offline launches over one directory. `printed` is whatever each
      cycle wrote besides its class line, `fallback` the sleep when no reset is parsed, and
      `mayDie` which launches something may kill. */
  method SuperviseRun(dir: RunDir, todo: seq<Key>, read: (nat, Key) -> Outcome<Answer>,
                      grade: (nat, Answer) -> Outcome<Grade>, readers: int, judges: int, mayDie: nat -> bool,
                      maxCycles: nat, fallback: real, printed: nat -> Printed)
    returns (rc: int, sleeps: seq<Sleep>,
             ghost cycles: seq<Cycle>, ghost disks: seq<Disk>, ghost exits: seq<Exit>)
    requires dir.Valid()
    requires forall tick, key :: read(tick, key).Ok? ==> read(tick, key).row.key == key
    modifies dir, dir.answers, dir.verdicts
    ensures Supervised(todo, old(dir.View()), cycles, disks, exits, printed) && disks[|exits|] == dir.View()
    ensures |exits| <= maxCycles
    ensures rc == 0 || rc == 2 || rc == 3
    ensures rc == 0 <==> exits != [] && IsComplete(dir.View())
    ensures rc == 0 ==> |cycles| == |exits| - 1 && GoesOn(cycles) && sleeps == SleptThrough(cycles, fallback)
    ensures rc == 2 ==> |cycles| == |exits| && HaltsAt(cycles, sleeps, fallback)
    ensures rc == 3 ==> |cycles| == |exits| == maxCycles && GoesOn(cycles) && sleeps == SleptThrough(cycles, fallback)
    ensures SleepsAs(cycles, sleeps, fallback)
    ensures KilledOnly(exits, mayDie)
  {
    var streak, cycle := 0, 0;
    ghost var first := dir.View();
    sleeps, cycles, disks, exits := [], [], [first], [];
    while cycle < maxCycles
      invariant |cycles| == |exits| == cycle <= maxCycles
      invariant Supervised(todo, first, cycles, disks, exits, printed) && disks[cycle] == dir.View()
      invariant Continues(cycles, streak, sleeps, fallback)
      invariant cycle > 0 ==> !IsComplete(dir.View())
      invariant KilledOnly(exits, mayDie)
    {
      rc, streak, sleeps, cycles, disks, exits := OneTurn(dir, todo, read, grade, readers, judges, mayDie, cycle,
        fallback, printed, streak, sleeps, first, cycles, disks, exits);
      if rc != 3 {
        SleptSoFar(cycles, streak, sleeps, fallback);
        return;
      }
      cycle := cycle + 1;
    }
    rc := 3;
    SleptSoFar(cycles, streak, sleeps, fallback);
  }

  /** From a fresh directory, a supervisor that returns 0 leaves exactly one answer
      and one verdict for every item, however often its launches stopped or died. */
  lemma ZeroMeansDone(todo: seq<Key>, disks: seq<Disk>, exits: seq<Exit>)
    requires Distinct(todo) && RunOf(todo, disks, exits) && disks[0] == FRESH
    requires IsComplete(disks[|exits|])
    ensures AllDone(todo, disks[|exits|]) && Clean(disks[|exits|])
    ensures |disks[|exits|].answers| == |todo| == |disks[|exits|].verdicts|
  {
    WholeRun(todo, disks, exits, |exits|);
  }

  /** A supervisor that halts was last told to halt, or saw seven transient cycles
      of which the last six added no answer. */
  lemma WhyItHalted(cycles: seq<Cycle>)
    requires cycles != [] && GoesOn(cycles[..|cycles| - 1])
    ensures !GoesOn(cycles) <==>
      || cycles[|cycles| - 1].klass == Halt
      || (&& |cycles| >= 7
          && (forall k :: |cycles| - 7 <= k < |cycles| ==> cycles[k].klass == Transient)
          && (forall k :: |cycles| - 7 < k < |cycles| ==> !cycles[k].progressed))
  {
    StreakMeaning(cycles, 7);
  }
}
