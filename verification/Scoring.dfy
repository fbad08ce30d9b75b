/** Rule-based re-scoring of an answer against its gold parts, on ASCII text. */
module Scoring {
  import opened Options
  import opened Counting

  // ------------------------------------------------------------------- normalising

  predicate IsDigit(c: char) {
    '0' <= c <= '9'
  }

  function Lower(c: char): char {
    if 'A' <= c <= 'Z' then (c as int + 32) as char else c
  }

  /** The characters that a regular expression counts as part of a word. */
  predicate WordChar(c: char) {
    'a' <= c <= 'z' || IsDigit(c) || c == '_'
  }

  function Flush(current: string): seq<string> {
    if current == "" then [] else [current]
  }

  /** The maximal runs of word characters, in lower case. */
  function Runs(text: string, current: string): seq<string> {
    if text == "" then Flush(current)
    else if WordChar(Lower(text[0])) then Runs(text[1..], current + [Lower(text[0])])
    else Flush(current) + Runs(text[1..], "")
  }

  /** "2nd" is "2": an ordinal suffix that ends a run goes. */
  function StripOrdinal(run: string): string {
    var n := |run|;
    if n >= 3 && IsDigit(run[n - 3]) && run[n - 2..] in {"st", "nd", "rd", "th"} then run[..n - 2] else run
  }

  /** A run without its underscores. */
  function Pieces(run: string, current: string): seq<string> {
    if run == "" then Flush(current)
    else if run[0] == '_' then Flush(current) + Pieces(run[1..], "")
    else Pieces(run[1..], current + [run[0]])
  }

  const NUM_WORDS: map<string, string> := map[
    "zero" := "0", "one" := "1", "two" := "2", "three" := "3", "four" := "4", "five" := "5",
    "six" := "6", "seven" := "7", "eight" := "8", "nine" := "9", "ten" := "10",
    "eleven" := "11", "twelve" := "12", "thirteen" := "13", "fourteen" := "14",
    "fifteen" := "15", "sixteen" := "16", "seventeen" := "17", "eighteen" := "18",
    "nineteen" := "19", "twenty" := "20", "thirty" := "30", "forty" := "40",
    "fifty" := "50", "sixty" := "60", "seventy" := "70", "eighty" := "80", "ninety" := "90"]

  const DROP: set<string> := {
    "the", "a", "an", "of", "in", "on", "at", "and", "or", "to", "her", "his",
    "she", "he", "they", "about", "around", "approximately", "roughly",
    "early", "mid", "late", "beginning", "end", "start", "middle"}

  function Keep(tokens: seq<string>): seq<string> {
    if tokens == [] then [] else
    (if tokens[0] in DROP then [] else [if tokens[0] in NUM_WORDS then NUM_WORDS[tokens[0]] else tokens[0]])
    + Keep(tokens[1..])
  }

  function FromRuns(runs: seq<string>): seq<string> {
    if runs == [] then [] else Keep(Pieces(StripOrdinal(runs[0]), "")) + FromRuns(runs[1..])
  }

  /** The words that `normalize` joins with spaces. */
  function Normal(text: string): seq<string> {
    FromRuns(Runs(text, ""))
  }

  function Spaced(words: seq<string>): string {
    if words == [] then "" else if |words| == 1 then words[0] else words[0] + " " + Spaced(words[1..])
  }

  function Normalize(text: string): string {
    Spaced(Normal(text))
  }

  predicate IsContent(word: string) {
    |word| >= 3 || (word != "" && forall i :: 0 <= i < |word| ==> IsDigit(word[i]))
  }

  function ContentWords(text: string): set<string> {
    set w | w in Normal(text) && IsContent(w)
  }

  predicate At(s: string, t: string, i: int) {
    0 <= i <= |s| - |t| && s[i..i + |t|] == t
  }

  predicate Contains(s: string, t: string) {
    exists i :: 0 <= i <= |s| && At(s, t, i)
  }

  // ----------------------------------------------------------------------- scoring

  /** A gold part: with a date in it, matching is left to the date rules. */
  datatype Part = Part(text: string, dated: bool)

  type DateRule = (string, string) -> bool

  predicate Present(part: Part, answer: string, dates: DateRule) {
    if part.dated then dates(part.text, answer)
    else if Normalize(part.text) == "" then true
    else if Contains(Normalize(answer), Normalize(part.text)) then true
    else
      var words := ContentWords(part.text);
      words != {} && words <= ContentWords(answer)
  }

  function PresentCount(parts: seq<Part>, answer: string, dates: DateRule): (n: nat)
    ensures n <= |parts|
  {
    if parts == [] then 0
    else PresentCount(parts[..|parts| - 1], answer, dates) + if Present(parts[|parts| - 1], answer, dates) then 1 else 0
  }

  datatype RuleScore = RuleScore(coverage: real, strictCorrect: bool, isAnswer: bool)

  predicate Blank(text: string) {
    forall i :: 0 <= i < |text| ==> text[i] in WHITESPACE
  }

  const WHITESPACE: set<char> := {
    ' ', '\t', '\n', '\r', '\U{0B}', '\U{0C}', '\U{1C}', '\U{1D}', '\U{1E}', '\U{1F}'}

  function ScoreAnswer(parts: seq<Part>, answer: string, dates: DateRule, abstains: string -> bool): RuleScore {
    var isAnswer := !Blank(answer) && !abstains(answer);
    if !isAnswer || parts == [] then RuleScore(0.0, false, isAnswer)
    else
      var present := PresentCount(parts, answer, dates);
      RuleScore(present as real / |parts| as real, present == |parts|, isAnswer)
  }

  function Partial(s: RuleScore): real {
    if s.isAnswer then s.coverage else 0.0
  }

  /** Coverage is a fraction, and full exactly when every part is present. */
  lemma ScoreIsFraction(parts: seq<Part>, answer: string, dates: DateRule, abstains: string -> bool)
    ensures var s := ScoreAnswer(parts, answer, dates, abstains);
      0.0 <= Partial(s) <= 1.0 && (s.strictCorrect <==> Partial(s) == 1.0)
  {
    if parts != [] {
      Fraction(PresentCount(parts, answer, dates), |parts|);
    }
  }

  lemma Scaled(x: real, y: real, d: real)
    requires x < y && d > 0.0
    ensures x * d < y * d
  {
  }

  lemma Fraction(a: nat, b: nat)
    requires a <= b && b > 0
    ensures 0.0 <= a as real / b as real <= 1.0 && (a as real / b as real == 1.0 <==> a == b)
  {
    var d := b as real;
    var q := a as real / d;
    assert q * d == a as real && 0.0 * d == 0.0 && 1.0 * d == d;
    if q < 0.0 {
      Scaled(q, 0.0, d);
    } else if q > 1.0 {
      Scaled(1.0, q, d);
    } else if q < 1.0 {
      Scaled(q, 1.0, d);
    }
  }

  // ------------------------------------------------- what normalising does to a word

  ghost predicate Letters(w: string) {
    forall i :: 0 <= i < |w| ==> 'a' <= w[i] <= 'z'
  }

  ghost predicate Digits(w: string) {
    forall i :: 0 <= i < |w| ==> '0' <= w[i] <= '9'
  }

  ghost predicate LettersOrDigits(w: string) {
    forall i :: 0 <= i < |w| ==> 'a' <= w[i] <= 'z' || '0' <= w[i] <= '9'
  }

  lemma {:induction false} OneRun(w: string, current: string)
    requires forall i :: 0 <= i < |w| ==> 'a' <= w[i] <= 'z' || '0' <= w[i] <= '9' || w[i] == '_'
    ensures Runs(w, current) == Flush(current + w)
  {
    if w == "" {
      assert current + w == current;
    } else {
      OneRun(w[1..], current + [w[0]]);
      assert current + [w[0]] + w[1..] == current + w;
    }
  }

  lemma {:induction false} OnePiece(w: string, current: string)
    requires LettersOrDigits(w)
    ensures Pieces(w, current) == Flush(current + w)
  {
    if w == "" {
      assert current + w == current;
    } else {
      OnePiece(w[1..], current + [w[0]]);
      assert current + [w[0]] + w[1..] == current + w;
    }
  }

  lemma RunNormal(w: string)
    requires w != "" && forall i :: 0 <= i < |w| ==> 'a' <= w[i] <= 'z' || '0' <= w[i] <= '9' || w[i] == '_'
    ensures Normal(w) == Keep(Pieces(StripOrdinal(w), ""))
  {
    OneRun(w, "");
    assert "" + w == w;
    assert [w][1..] == [];
    assert FromRuns([w]) == Keep(Pieces(StripOrdinal(w), "")) + [];
  }

  lemma OneWord(w: string)
    requires w != "" && LettersOrDigits(w) && LettersOrDigits(StripOrdinal(w)) && StripOrdinal(w) != ""
    ensures Normal(w) == Keep([StripOrdinal(w)])
  {
    RunNormal(w);
    OnePiece(StripOrdinal(w), "");
    assert "" + StripOrdinal(w) == StripOrdinal(w);
  }

  /** A word is dropped, written in digits, or kept as it is. */
  lemma WordNormal(w: string)
    requires w != "" && Letters(w)
    ensures w in DROP ==> Normal(w) == []
    ensures w !in DROP && w in NUM_WORDS ==> Normal(w) == [NUM_WORDS[w]]
    ensures w !in DROP && w !in NUM_WORDS ==> Normal(w) == [w]
  {
    OneWord(w);
    assert [w][1..] == [];
  }

  /** A number keeps its digits, and an ordinal loses its suffix. */
  lemma NumberNormal(d: string, suffix: string)
    requires d != "" && Digits(d) && (suffix == "" || suffix in {"st", "nd", "rd", "th"})
    ensures Normal(d + suffix) == [d]
  {
    var w := d + suffix;
    NotAWord(d);
    assert [d][1..] == [];
    if suffix == "" {
      assert w == d;
      assert w[|w| - 1] == d[|d| - 1];
    } else {
      assert w[|w| - 2..] == suffix && w[..|w| - 2] == d && w[|w| - 3] == d[|d| - 1];
      assert suffix[0] in "snrt" && suffix[1] in "tdh";
    }
    assert StripOrdinal(w) == d;
    OneWord(w);
  }

  lemma NotAWord(d: string)
    requires d != "" && Digits(d)
    ensures d !in DROP && d !in NUM_WORDS
  {
    assert '0' <= d[0] <= '9';
    FillersAreLetters();
    NumbersAreLetters();
  }

  lemma FillersAreLetters()
    ensures forall w :: w in DROP ==> w != "" && 'a' <= w[0] <= 'z'
  {
  }

  lemma NumbersAreLetters()
    ensures forall w :: w in NUM_WORDS ==> w != "" && 'a' <= w[0] <= 'z'
  {
  }

  function Decimal(n: nat): string {
    if n < 10 then [('0' as int + n) as char] else Decimal(n / 10) + [('0' as int + n % 10) as char]
  }

  const UNITS := [
    "zero", "one", "two", "three", "four", "five", "six", "seven", "eight", "nine", "ten", "eleven", "twelve",
    "thirteen", "fourteen", "fifteen", "sixteen", "seventeen", "eighteen", "nineteen"]

  const TENS := ["twenty", "thirty", "forty", "fifty", "sixty", "seventy", "eighty", "ninety"]

  /** Number words are read as their digits: the first twenty, and the tens. */
  lemma UnitNormal(n: nat)
    requires n < 20
    ensures Normal(UNITS[n]) == [Decimal(n)] == Normal(Decimal(n))
  {
    UnitValue(n);
    WordNormal(UNITS[n]);
    DecimalDigits(n);
    NumberNormal(Decimal(n), "");
    assert Decimal(n) + "" == Decimal(n);
  }

  lemma TenNormal(n: nat)
    requires n < 8
    ensures Normal(TENS[n]) == [Decimal(10 * (n + 2))] == Normal(Decimal(10 * (n + 2)))
  {
    TenValue(n);
    WordNormal(TENS[n]);
    DecimalDigits(10 * (n + 2));
    NumberNormal(Decimal(10 * (n + 2)), "");
    assert Decimal(10 * (n + 2)) + "" == Decimal(10 * (n + 2));
  }

  lemma {:induction false} DecimalDigits(n: nat)
    ensures Decimal(n) != "" && Digits(Decimal(n))
  {
    if n >= 10 {
      DecimalDigits(n / 10);
    }
  }

  ghost predicate ReadAs(w: string, n: nat) {
    Letters(w) && w != "" && w !in DROP && w in NUM_WORDS && NUM_WORDS[w] == Decimal(n)
  }

  lemma UnitValue(n: nat)
    requires n < 20
    ensures ReadAs(UNITS[n], n)
  {
    if n < 5 {
      FirstUnits(n);
    } else if n < 10 {
      MoreUnits(n);
    } else if n < 15 {
      FirstTeens(n);
    } else {
      MoreTeens(n);
    }
  }

  lemma FirstUnits(n: nat)
    requires n < 5
    ensures ReadAs(UNITS[n], n)
  {
  }

  lemma MoreUnits(n: nat)
    requires 5 <= n < 10
    ensures ReadAs(UNITS[n], n)
  {
  }

  lemma FirstTeens(n: nat)
    requires 10 <= n < 15
    ensures ReadAs(UNITS[n], n)
  {
  }

  lemma MoreTeens(n: nat)
    requires 15 <= n < 20
    ensures ReadAs(UNITS[n], n)
  {
  }

  lemma TenValue(n: nat)
    requires n < 8
    ensures ReadAs(TENS[n], 10 * (n + 2))
  {
    if n < 4 {
      FirstTens(n);
    } else {
      MoreTens(n);
    }
  }

  lemma FirstTens(n: nat)
    requires n < 4
    ensures ReadAs(TENS[n], 10 * (n + 2))
  {
  }

  lemma MoreTens(n: nat)
    requires 4 <= n < 8
    ensures ReadAs(TENS[n], 10 * (n + 2))
  {
  }

  /** The same character, but for its case. */
  ghost predicate SameButCase(c: char, d: char) {
    || c == d
    || ('a' <= c <= 'z' && 'A' <= d <= 'Z' && c - 'a' == d - 'A')
    || ('A' <= c <= 'Z' && 'a' <= d <= 'z' && c - 'A' == d - 'a')
  }

  lemma {:induction false} RunsIgnoreCase(a: string, b: string, current: string)
    requires |a| == |b| && forall i :: 0 <= i < |a| ==> SameButCase(a[i], b[i])
    ensures Runs(a, current) == Runs(b, current)
  {
    if a != "" {
      assert Lower(a[0]) == Lower(b[0]);
      if WordChar(Lower(a[0])) {
        RunsIgnoreCase(a[1..], b[1..], current + [Lower(a[0])]);
      } else {
        RunsIgnoreCase(a[1..], b[1..], "");
      }
    }
  }

  /** Case does not matter to what a text normalises to. */
  lemma NormalIgnoresCase(a: string, b: string)
    requires |a| == |b| && forall i :: 0 <= i < |a| ==> SameButCase(a[i], b[i])
    ensures Normal(a) == Normal(b)
  {
    RunsIgnoreCase(a, b, "");
  }

  // ------------------------------------------------------------ what credit stands for

  /** A word that matching looks at: three characters or more, or a number. */
  ghost predicate Matters(word: string) {
    |word| >= 3 || (word != "" && Digits(word))
  }

  lemma FoundExactlyWhen(s: string, t: string)
    ensures Contains(s, t) <==> exists before, after :: s == before + t + after
  {
    if Contains(s, t) {
      var i :| 0 <= i <= |s| && At(s, t, i);
      assert s == s[..i] + t + s[i + |t|..];
    }
    if before, after :| s == before + t + after {
      assert At(s, t, |before|);
    }
  }

  lemma ContentIs(text: string)
    ensures forall w :: w in ContentWords(text) <==> w in Normal(text) && Matters(w)
  {
  }

  /** A part without dates is in an answer exactly when nothing is left of it, or it is found
      in the answer as it stands, or it has words that matter and the answer has each. With
      dates it is exactly when the date rule finds it there. */
  lemma PresentExactlyWhen(part: Part, answer: string, dates: DateRule)
    ensures part.dated ==> (Present(part, answer, dates) <==> dates(part.text, answer))
    ensures !part.dated ==> (Present(part, answer, dates) <==>
      || Normalize(part.text) == ""
      || (exists before, after :: Normalize(answer) == before + Normalize(part.text) + after)
      || (&& (exists w :: w in Normal(part.text) && Matters(w))
          && forall w :: w in Normal(part.text) && Matters(w) ==> w in Normal(answer)))
  {
    FoundExactlyWhen(Normalize(answer), Normalize(part.text));
    ContentIs(part.text);
    ContentIs(answer);
    var words := ContentWords(part.text);
    if w :| w in Normal(part.text) && Matters(w) {
      assert w in words;
    } else {
      assert words == {};
    }
    assert words <= ContentWords(answer) <==> forall w :: w in words ==> w in ContentWords(answer);
  }

  /** Which of the gold parts are in the answer. */
  function Found(parts: seq<Part>, answer: string, dates: DateRule): seq<bool> {
    seq(|parts|, i requires 0 <= i < |parts| => Present(parts[i], answer, dates))
  }

  lemma {:induction false} PresentCounts(parts: seq<Part>, answer: string, dates: DateRule)
    ensures PresentCount(parts, answer, dates) == CountTrue(Found(parts, answer, dates))
  {
    if parts != [] {
      var last := |parts| - 1;
      PresentCounts(parts[..last], answer, dates);
      assert Found(parts, answer, dates)[..last] == Found(parts[..last], answer, dates);
    }
  }

  /** How many of the gold parts are in the answer. */
  ghost function HowMany(parts: seq<Part>, answer: string, dates: DateRule): nat {
    |TrueAt(Found(parts, answer, dates))|
  }

  lemma CountIsHowMany(parts: seq<Part>, answer: string, dates: DateRule)
    ensures PresentCount(parts, answer, dates) == HowMany(parts, answer, dates)
  {
    PresentCounts(parts, answer, dates);
    TrueOnes(Found(parts, answer, dates));
  }

  /** The credit of an answer is the share of the gold parts in it, and none for a text that
      is blank or declines. */
  lemma CreditIs(parts: seq<Part>, answer: string, dates: DateRule, abstains: string -> bool)
    requires parts != []
    ensures var s := ScoreAnswer(parts, answer, dates, abstains);
      && (s.isAnswer <==> !abstains(answer) && !Blank(answer))
      && (s.isAnswer ==> Partial(s) == HowMany(parts, answer, dates) as real / |parts| as real)
      && (!s.isAnswer ==> Partial(s) == 0.0)
      && (s.strictCorrect <==> s.isAnswer && HowMany(parts, answer, dates) == |parts|)
  {
    CountIsHowMany(parts, answer, dates);
  }

  // -------------------------------------------------------- appending to an answer

  /** A character that is in no word. */
  ghost predicate Separates(c: char) {
    !('a' <= c <= 'z') && !('A' <= c <= 'Z') && !('0' <= c <= '9') && c != '_'
  }

  lemma {:induction false} RunsJoin(a: string, c: char, b: string, current: string)
    requires Separates(c)
    ensures Runs(a + [c] + b, current) == Runs(a, current) + Runs(b, "")
  {
    var s := a + [c] + b;
    if a == "" {
      assert s[0] == c && s[1..] == b;
    } else {
      assert s[0] == a[0] && s[1..] == a[1..] + [c] + b;
      if WordChar(Lower(a[0])) {
        RunsJoin(a[1..], c, b, current + [Lower(a[0])]);
      } else {
        RunsJoin(a[1..], c, b, "");
      }
    }
  }

  lemma {:induction false} FromRunsJoin(a: seq<string>, b: seq<string>)
    ensures FromRuns(a + b) == FromRuns(a) + FromRuns(b)
  {
    if a == [] {
      assert a + b == b;
    } else {
      var head := Keep(Pieces(StripOrdinal(a[0]), ""));
      assert (a + b)[1..] == a[1..] + b && (a + b)[0] == a[0];
      FromRunsJoin(a[1..], b);
      assert FromRuns(a + b) == head + FromRuns(a[1..] + b);
      assert head + (FromRuns(a[1..]) + FromRuns(b)) == (head + FromRuns(a[1..])) + FromRuns(b);
    }
  }

  /** No word straddles a character that is in none. */
  lemma NormalSplits(a: string, c: char, b: string)
    requires Separates(c)
    ensures Normal(a + [c] + b) == Normal(a) + Normal(b)
  {
    RunsJoin(a, c, b, "");
    FromRunsJoin(Runs(a, ""), Runs(b, ""));
  }

  /** Normalising is a homomorphism: no word straddles a space. */
  lemma NormalJoin(a: string, b: string)
    ensures Normal(a + " " + b) == Normal(a) + Normal(b)
  {
    NormalSplits(a, ' ', b);
  }

  lemma {:induction false} PiecesJoin(a: string, b: string, current: string)
    ensures Pieces(a + "_" + b, current) == Pieces(a, current) + Pieces(b, "")
  {
    var s := a + "_" + b;
    if a == "" {
      assert s[0] == '_' && s[1..] == b;
    } else {
      assert s[0] == a[0] && s[1..] == a[1..] + "_" + b;
      if a[0] == '_' {
        PiecesJoin(a[1..], b, "");
      } else {
        PiecesJoin(a[1..], b, current + [a[0]]);
      }
    }
  }

  lemma KeepTwo(a: string, b: string)
    ensures Keep([a, b]) == Keep([a]) + Keep([b])
  {
    var pair, none: seq<string> := [a, b], [];
    assert pair[1..] == [b] && [a][1..] == none;
  }

  lemma LettersStay(w: string)
    requires forall i :: 0 <= i < |w| ==> 'a' <= w[i] <= 'z' || w[i] == '_'
    ensures StripOrdinal(w) == w
  {
  }

  lemma PiecesOfTwo(a: string, b: string)
    requires a != "" && b != "" && Letters(a) && Letters(b)
    ensures Pieces(a + "_" + b, "") == [a, b]
  {
    PiecesJoin(a, b, "");
    OnePiece(a, "");
    OnePiece(b, "");
    assert "" + a == a && "" + b == b;
  }

  /** Nor does one straddle an underscore. */
  lemma UnderscoreSplits(a: string, b: string)
    requires a != "" && b != "" && Letters(a) && Letters(b)
    ensures Normal(a + "_" + b) == Normal(a) + Normal(b)
  {
    LettersStay(a + "_" + b);
    LettersStay(a);
    LettersStay(b);
    RunNormal(a + "_" + b);
    PiecesOfTwo(a, b);
    OneWord(a);
    OneWord(b);
    KeepTwo(a, b);
  }

  lemma {:induction false} SpacedJoin(a: seq<string>, b: seq<string>)
    ensures Spaced(a + b) == if a == [] then Spaced(b) else if b == [] then Spaced(a) else Spaced(a) + " " + Spaced(b)
  {
    if a == [] {
      assert a + b == b;
    } else if b == [] {
      assert a + b == a;
    } else {
      assert (a + b)[1..] == a[1..] + b;
      SpacedJoin(a[1..], b);
      if |a| == 1 {
        assert a[1..] == [];
      }
    }
  }

  lemma ContainsInside(s: string, t: string, before: string, after: string)
    requires Contains(s, t)
    ensures Contains(before + s + after, t)
  {
    var i :| 0 <= i <= |s| && At(s, t, i);
    assert (before + s + after)[|before| + i..|before| + i + |t|] == s[i..i + |t|];
    assert At(before + s + after, t, |before| + i);
  }

  lemma ContainsItself(s: string)
    ensures Contains(s, s)
  {
    assert At(s, s, 0);
  }

  lemma ContainsJoined(s: string, u: string, t: string)
    ensures Contains(s, t) ==> Contains(s + " " + u, t)
    ensures Contains(u, t) ==> Contains(s + " " + u, t)
  {
    if Contains(s, t) {
      ContainsInside(s, t, "", " " + u);
      assert "" + s + (" " + u) == s + " " + u;
    }
    if Contains(u, t) {
      ContainsInside(u, t, s + " ", "");
      assert (s + " ") + u + "" == s + " " + u;
    }
  }

  lemma SpacedContains(a: seq<string>, b: seq<string>, t: string)
    requires t != "" && (Contains(Spaced(a), t) || Contains(Spaced(b), t))
    ensures Contains(Spaced(a + b), t)
  {
    SpacedJoin(a, b);
    ContainsJoined(Spaced(a), Spaced(b), t);
  }

  /** A part without dates that one text holds, any text that includes it holds. */
  lemma PresentInEither(part: Part, a: string, b: string, dates: DateRule)
    requires !part.dated && (Present(part, a, dates) || Present(part, b, dates))
    ensures Present(part, a + " " + b, dates)
  {
    NormalJoin(a, b);
    var t := Normalize(part.text);
    if t != "" {
      if Contains(Normalize(a), t) || Contains(Normalize(b), t) {
        SpacedContains(Normal(a), Normal(b), t);
      } else {
        assert ContentWords(a) <= ContentWords(a + " " + b);
        assert ContentWords(b) <= ContentWords(a + " " + b);
      }
    }
  }

  ghost predicate DateFree(parts: seq<Part>) {
    forall i :: 0 <= i < |parts| ==> !parts[i].dated
  }

  lemma {:induction false} CountGrows(parts: seq<Part>, answer: string, more: string, dates: DateRule)
    requires DateFree(parts)
    ensures PresentCount(parts, answer, dates) <= PresentCount(parts, answer + " " + more, dates)
  {
    if parts != [] {
      CountGrows(parts[..|parts| - 1], answer, more, dates);
      if Present(parts[|parts| - 1], answer, dates) {
        PresentInEither(parts[|parts| - 1], answer, more, dates);
      }
    }
  }

  lemma SmallerShare(a: nat, b: nat, n: nat)
    requires a <= b && n > 0
    ensures a as real / n as real <= b as real / n as real
  {
  }

  /** Saying more never lowers the score of an answer that stays an answer. */
  lemma AppendingNeverHurts(parts: seq<Part>, answer: string, more: string, dates: DateRule, abstains: string -> bool)
    requires DateFree(parts) && !abstains(answer + " " + more)
    ensures Partial(ScoreAnswer(parts, answer, dates, abstains))
      <= Partial(ScoreAnswer(parts, answer + " " + more, dates, abstains))
    ensures ScoreAnswer(parts, answer, dates, abstains).strictCorrect
      ==> ScoreAnswer(parts, answer + " " + more, dates, abstains).strictCorrect
  {
    CountGrows(parts, answer, more, dates);
    ScoreIsFraction(parts, answer + " " + more, dates, abstains);
    if !Blank(answer) {
      var i :| 0 <= i < |answer| && answer[i] !in WHITESPACE;
      assert (answer + " " + more)[i] == answer[i];
      if parts != [] {
        SmallerShare(PresentCount(parts, answer, dates), PresentCount(parts, answer + " " + more, dates), |parts|);
      }
    }
  }

  function Recital(parts: seq<Part>): string {
    if parts == [] then "" else Recital(parts[..|parts| - 1]) + " " + parts[|parts| - 1].text
  }

  /** An answer that recites the gold parts has them all. */
  lemma {:induction false} RecitalIsComplete(parts: seq<Part>, dates: DateRule)
    requires DateFree(parts)
    ensures PresentCount(parts, Recital(parts), dates) == |parts|
  {
    if parts != [] {
      var last := |parts| - 1;
      RecitalIsComplete(parts[..last], dates);
      CountGrows(parts[..last], Recital(parts[..last]), parts[last].text, dates);
      ContainsItself(Normalize(parts[last].text));
      PresentInEither(parts[last], Recital(parts[..last]), parts[last].text, dates);
    }
  }
}
