/** Strict, fair and partial accuracy of one arm. */
module FairScores {
  import opened Counting
  import opened Scoring

  /** A graded row: the judge's verdict, whether abstaining was expected, the gold parts and
      the answer. */
  datatype Row = Row(arm: nat, correct: bool, abstainExpected: bool, parts: seq<Part>, answer: string)

  datatype Scores = Scores(strict: real, fair: real, partial: real, flips: nat)

  /** Correct by the judge, or by the rules where abstaining is not the point. */
  predicate Fair(r: Row, dates: DateRule, abstains: string -> bool) {
    r.correct || (!r.abstainExpected && ScoreAnswer(r.parts, r.answer, dates, abstains).strictCorrect)
  }

  function Credit(r: Row, dates: DateRule, abstains: string -> bool): real {
    if r.correct then 1.0
    else if r.abstainExpected then 0.0
    else Partial(ScoreAnswer(r.parts, r.answer, dates, abstains))
  }

  function Of(rows: seq<Row>, arm: nat): seq<Row> {
    if rows == [] then [] else
    Of(rows[..|rows| - 1], arm) + if rows[|rows| - 1].arm == arm then [rows[|rows| - 1]] else []
  }

  function Correct(rows: seq<Row>): nat {
    if rows == [] then 0 else Correct(rows[..|rows| - 1]) + if rows[|rows| - 1].correct then 1 else 0
  }

  function Fairs(rows: seq<Row>, dates: DateRule, abstains: string -> bool): nat {
    if rows == [] then 0
    else Fairs(rows[..|rows| - 1], dates, abstains) + if Fair(rows[|rows| - 1], dates, abstains) then 1 else 0
  }

  function Credits(rows: seq<Row>, dates: DateRule, abstains: string -> bool): real {
    if rows == [] then 0.0
    else Credits(rows[..|rows| - 1], dates, abstains) + Credit(rows[|rows| - 1], dates, abstains)
  }

  /** What one row counts: full marks in all three if the judge found it correct; none if
      abstaining was expected, or if it is no answer or has nothing to cover; and otherwise the
      share of the gold parts in it, and fair marks for all of them. */
  lemma RowScoresAre(r: Row, dates: DateRule, abstains: string -> bool)
    ensures r.correct ==> Fair(r, dates, abstains) && Credit(r, dates, abstains) == 1.0
    ensures !r.correct && (r.abstainExpected || r.parts == [] || Blank(r.answer) || abstains(r.answer)) ==>
      !Fair(r, dates, abstains) && Credit(r, dates, abstains) == 0.0
    ensures !r.correct && !(r.abstainExpected || r.parts == [] || Blank(r.answer) || abstains(r.answer)) ==>
      && Credit(r, dates, abstains) == HowMany(r.parts, r.answer, dates) as real / |r.parts| as real
      && (Fair(r, dates, abstains) <==> HowMany(r.parts, r.answer, dates) == |r.parts|)
  {
    if r.parts != [] {
      CreditIs(r.parts, r.answer, dates, abstains);
    }
  }

  function CorrectFlags(rows: seq<Row>): seq<bool> {
    seq(|rows|, i requires 0 <= i < |rows| => rows[i].correct)
  }

  function FairFlags(rows: seq<Row>, dates: DateRule, abstains: string -> bool): seq<bool> {
    seq(|rows|, i requires 0 <= i < |rows| => Fair(rows[i], dates, abstains))
  }

  lemma {:induction false} CorrectCounts(rows: seq<Row>)
    ensures Correct(rows) == CountTrue(CorrectFlags(rows))
  {
    if rows != [] {
      var last := |rows| - 1;
      CorrectCounts(rows[..last]);
      assert CorrectFlags(rows)[..last] == CorrectFlags(rows[..last]);
    }
  }

  lemma {:induction false} FairCounts(rows: seq<Row>, dates: DateRule, abstains: string -> bool)
    ensures Fairs(rows, dates, abstains) == CountTrue(FairFlags(rows, dates, abstains))
  {
    if rows != [] {
      var last := |rows| - 1;
      FairCounts(rows[..last], dates, abstains);
      assert FairFlags(rows, dates, abstains)[..last] == FairFlags(rows[..last], dates, abstains);
    }
  }

  /** The two counts, by the rows they count. */
  lemma CountsAre(rows: seq<Row>, dates: DateRule, abstains: string -> bool)
    ensures var correct, fair := CorrectFlags(rows), FairFlags(rows, dates, abstains);
      Correct(rows) == |TrueAt(correct)| && Fairs(rows, dates, abstains) == |TrueAt(fair)|
  {
    CorrectCounts(rows);
    FairCounts(rows, dates, abstains);
    TrueOnes(CorrectFlags(rows));
    TrueOnes(FairFlags(rows, dates, abstains));
  }

  /** The rows of an arm are all of its rows. */
  lemma {:induction false} OfAre(rows: seq<Row>, arm: nat, r: Row)
    ensures multiset(Of(rows, arm))[r] == if r.arm == arm then multiset(rows)[r] else 0
  {
    if rows != [] {
      OfAre(rows[..|rows| - 1], arm, r);
      assert rows == rows[..|rows| - 1] + [rows[|rows| - 1]];
    }
  }

  /** Each score is at most the next: full marks need every part present. */
  lemma {:induction false} Ordered(rows: seq<Row>, dates: DateRule, abstains: string -> bool)
    ensures Correct(rows) <= Fairs(rows, dates, abstains)
    ensures Fairs(rows, dates, abstains) as real <= Credits(rows, dates, abstains) <= |rows| as real
  {
    if rows != [] {
      var r := rows[|rows| - 1];
      Ordered(rows[..|rows| - 1], dates, abstains);
      ScoreIsFraction(r.parts, r.answer, dates, abstains);
    }
  }

  /** `s` holds the three averages of these totals, in ascending order and within [0, 1];
      the flips are what the fair count has over the strict one. Of no rows all are zero. */
  ghost predicate Averages(s: Scores, strict: nat, fair: nat, partial: real, n: nat) {
    && 0.0 <= s.strict <= s.fair <= s.partial <= 1.0
    && s.strict * n as real == strict as real && s.fair * n as real == fair as real && s.partial * n as real == partial
    && s.flips as real == (s.fair - s.strict) * n as real
    && (n == 0 ==> s == Scores(0.0, 0.0, 0.0, 0))
  }

  method Totals(mine: seq<Row>, dates: DateRule, abstains: string -> bool)
    returns (strict: nat, fair: nat, flips: nat, partial: real)
    ensures strict == Correct(mine) && fair == Fairs(mine, dates, abstains) && flips == fair - strict
    ensures partial == Credits(mine, dates, abstains)
  {
    strict, fair, flips, partial := 0, 0, 0, 0.0;
    for i := 0 to |mine|
      invariant strict == Correct(mine[..i]) && fair == Fairs(mine[..i], dates, abstains)
      invariant partial == Credits(mine[..i], dates, abstains) && flips == fair - strict
    {
      var r := mine[i];
      assert mine[..i + 1][..i] == mine[..i];
      strict := strict + if r.correct then 1 else 0;
      if r.abstainExpected {
        fair := fair + if r.correct then 1 else 0;
        partial := partial + if r.correct then 1.0 else 0.0;
      } else {
        var rule := ScoreAnswer(r.parts, r.answer, dates, abstains);
        var f := r.correct || rule.strictCorrect;
        fair := fair + if f then 1 else 0;
        flips := flips + if f && !r.correct then 1 else 0;
        partial := partial + if r.correct then 1.0 else Partial(rule);
      }
    }
    assert mine[..|mine|] == mine;
  }

  lemma NoRows(dates: DateRule, abstains: string -> bool)
    ensures Averages(Scores(0.0, 0.0, 0.0, 0), Correct([]), Fairs([], dates, abstains), Credits([], dates, abstains), 0)
  {
  }

  method Average(rows: seq<Row>, arm: nat, dates: DateRule, abstains: string -> bool) returns (s: Scores)
    ensures var mine := Of(rows, arm);
      Averages(s, Correct(mine), Fairs(mine, dates, abstains), Credits(mine, dates, abstains), |mine|)
  {
    var mine := Select(rows, arm);
    if mine == [] {
      s := Scores(0.0, 0.0, 0.0, 0);
      NoRows(dates, abstains);
      return;
    }
    var strict, fair, flips, partial := Totals(mine, dates, abstains);
    Ordered(mine, dates, abstains);
    s := Divide(strict, fair, partial, flips, |mine|);
  }

  method Divide(strict: nat, fair: nat, partial: real, flips: nat, n: nat) returns (s: Scores)
    requires n > 0 && strict <= fair && fair as real <= partial <= n as real && flips == fair - strict
    ensures Averages(s, strict, fair, partial, n)
  {
    var d := n as real;
    Quotients(strict as real, fair as real, d);
    Quotients(fair as real, partial, d);
    Quotients(partial, d, d);
    s := Scores(strict as real / d, fair as real / d, partial / d, flips);
  }

  lemma Quotients(x: real, y: real, d: real)
    requires 0.0 <= x <= y && d > 0.0
    ensures 0.0 <= x / d <= y / d && (y / d - x / d) * d == y - x && (x / d) * d == x && d / d == 1.0
  {
  }

  method Select(rows: seq<Row>, arm: nat) returns (mine: seq<Row>)
    ensures mine == Of(rows, arm)
  {
    mine := [];
    for i := 0 to |rows|
      invariant mine == Of(rows[..i], arm)
    {
      assert rows[..i + 1][..i] == rows[..i];
      if rows[i].arm == arm {
        mine := mine + [rows[i]];
      }
    }
    assert rows[..|rows|] == rows;
  }
}
