/** The novelty verdict: two texts are compared as sets of words, and a text is novel
    when the sets overlap in less than four fifths of their union. */
module Jaccard {
  import opened Options

  /** What one character contributes to a word: its lower case if that is
      alphanumeric, else nothing, which ends the word. A space never contributes. */
  type Folding = fold: char -> Option<char> | fold(' ') == None
    witness (c: char) => if 'a' <= c <= 'z' || '0' <= c <= '9' then Some(c) else None

  function Flush(current: string): set<string> {
    if current == "" then {} else {current}
  }

  function Scan(fold: Folding, text: string, current: string): set<string> {
    if text == "" then Flush(current)
    else match fold(text[0])
      case Some(c) => Scan(fold, text[1..], current + [c])
      case None => Flush(current) + Scan(fold, text[1..], "")
  }

  function Words(fold: Folding, text: string): set<string> {
    Scan(fold, text, "")
  }

  method Tokenize(fold: Folding, text: string) returns (tokens: set<string>)
    ensures tokens == Words(fold, text)
  {
    tokens := {};
    var current := "";
    for i := 0 to |text|
      invariant tokens + Scan(fold, text[i..], current) == Words(fold, text)
    {
      assert text[i..][1..] == text[i + 1..];
      var folded := fold(text[i]);
      if folded.Some? {
        current := current + [folded.value];
      } else if current != "" {
        tokens := tokens + {current};
        current := "";
      }
    }
    if current != "" {
      tokens := tokens + {current};
    }
  }

  /** `w` is what a maximal run of word characters, `text[i..j]`, folds to. */
  ghost predicate WordAt(fold: Folding, text: string, i: nat, j: nat, w: string) {
    && i < j <= |text| && Folds(fold, text, i, j, w)
    && (i == 0 || fold(text[i - 1]).None?) && (j == |text| || fold(text[j]).None?)
  }

  ghost predicate Folds(fold: Folding, text: string, i: nat, j: nat, w: string) {
    i <= j <= |text| && |w| == j - i && forall k :: 0 <= k < |w| ==> fold(text[i + k]) == Some(w[k])
  }

  lemma AllInside(fold: Folding, text: string, i: nat, j: nat, w: string)
    requires Folds(fold, text, i, j, w)
    ensures forall x :: i <= x < j ==> fold(text[x]) == Some(w[x - i])
  {
    forall x | i <= x < j
      ensures fold(text[x]) == Some(w[x - i])
    {
      assert fold(text[i + (x - i)]) == Some(w[x - i]);
    }
  }

  /** A run that reaches `n` and ends there is the only word that starts in it. */
  lemma RunEnds(fold: Folding, text: string, s: nat, n: nat, run: string, w: string)
    requires Folds(fold, text, s, n, run) && (s == 0 || fold(text[s - 1]).None?)
    requires n == |text| || fold(text[n]).None?
    ensures (exists i: nat, j: nat :: s <= i <= n && WordAt(fold, text, i, j, w)) <==> run != "" && w == run
  {
    AllInside(fold, text, s, n, run);
    if run != "" {
      assert WordAt(fold, text, s, n, run);
    }
    if i: nat, j: nat :| s <= i <= n && WordAt(fold, text, i, j, w) {
      AllInside(fold, text, i, j, w);
      assert i == s && j == n;
      assert forall k :: 0 <= k < |w| ==> fold(text[i + k]) == Some(w[k]) && fold(text[s + k]) == Some(run[k]);
      assert w == run;
    }
  }

  lemma {:induction false} ScanFinds(fold: Folding, text: string, s: nat, n: nat, run: string, w: string)
    requires Folds(fold, text, s, n, run) && (s == 0 || fold(text[s - 1]).None?)
    ensures w in Scan(fold, text[n..], run) <==> exists i: nat, j: nat :: s <= i && WordAt(fold, text, i, j, w)
    decreases |text| - n
  {
    if n == |text| {
      RunEnds(fold, text, s, n, run, w);
    } else {
      assert text[n..][0] == text[n] && text[n..][1..] == text[n + 1..];
      match fold(text[n])
      case Some(c) =>
        ScanFinds(fold, text, s, n + 1, run + [c], w);
      case None =>
        RunEnds(fold, text, s, n, run, w);
        ScanFinds(fold, text, n + 1, n + 1, "", w);
    }
  }

  /** The words of a text are its maximal runs of word characters, folded. */
  lemma WordsAre(fold: Folding, text: string, w: string)
    ensures w in Words(fold, text) <==> exists i: nat, j: nat :: WordAt(fold, text, i, j, w)
  {
    ScanFinds(fold, text, 0, 0, "", w);
    assert text[0..] == text;
  }

  /** Less than four fifths, in whole numbers; two wordless texts are the same text. */
  predicate Novel(incoming: set<string>, corpus: set<string>) {
    (incoming != {} || corpus != {}) && 5 * |incoming * corpus| < 4 * |incoming + corpus|
  }

  method IsNovel(fold: Folding, incoming: string, corpus: string) returns (novel: bool)
    ensures novel == Novel(Words(fold, incoming), Words(fold, corpus))
  {
    var a := Tokenize(fold, incoming);
    var b := Tokenize(fold, corpus);
    novel := (|a| != 0 || |b| != 0) && 5 * |a * b| < 4 * |a + b|;
  }

  function Join(parts: seq<string>): string {
    if parts == [] then ""
    else if |parts| == 1 then parts[0]
    else parts[0] + " " + Join(parts[1..])
  }

  function AllWords(fold: Folding, parts: seq<string>): set<string> {
    if parts == [] then {} else Words(fold, parts[0]) + AllWords(fold, parts[1..])
  }

  lemma {:induction false} ScanJoin(fold: Folding, a: string, b: string, current: string)
    ensures Scan(fold, a + " " + b, current) == Scan(fold, a, current) + Words(fold, b)
  {
    var s := a + " " + b;
    if a == "" {
      assert s[0] == ' ' && s[1..] == b;
    } else {
      assert s[0] == a[0] && s[1..] == a[1..] + " " + b;
      match fold(a[0])
      case Some(c) => ScanJoin(fold, a[1..], b, current + [c]);
      case None => ScanJoin(fold, a[1..], b, "");
    }
  }

  /** The words of a joined corpus are the words of its parts: no word straddles a
      seam, and the order of the parts does not matter. */
  lemma {:induction false} JoinedWords(fold: Folding, parts: seq<string>)
    ensures Words(fold, Join(parts)) == AllWords(fold, parts)
  {
    if |parts| == 1 {
      assert AllWords(fold, parts[1..]) == {};
    } else if |parts| > 1 {
      JoinedWords(fold, parts[1..]);
      ScanJoin(fold, parts[0], Join(parts[1..]), "");
    }
  }

  lemma {:induction false} AllWordsJoin(fold: Folding, a: seq<string>, b: seq<string>)
    ensures AllWords(fold, a + b) == AllWords(fold, a) + AllWords(fold, b)
  {
    if a == [] {
      assert a + b == b;
    } else {
      assert (a + b)[1..] == a[1..] + b;
      AllWordsJoin(fold, a[1..], b);
    }
  }

  lemma {:induction false} WordsOfAPart(fold: Folding, parts: seq<string>, word: string)
    ensures word in AllWords(fold, parts) <==> exists k :: 0 <= k < |parts| && word in Words(fold, parts[k])
  {
    if parts != [] {
      WordsOfAPart(fold, parts[1..], word);
      if exists k :: 0 <= k < |parts| && word in Words(fold, parts[k]) {
        var k :| 0 <= k < |parts| && word in Words(fold, parts[k]);
        if k > 0 {
          assert parts[1..][k - 1] == parts[k];
        }
      }
      if word in AllWords(fold, parts[1..]) {
        var k :| 0 <= k < |parts[1..]| && word in Words(fold, parts[1..][k]);
        assert parts[k + 1] == parts[1..][k];
      }
    }
  }

  lemma Apart(a: set<string>, b: set<string>)
    requires a !! b
    ensures |a + b| == |a| + |b|
  {
  }

  /** The words a grown corpus shares with a text, and those of both. */
  lemma GrownWords(incoming: set<string>, corpus: set<string>, more: set<string>)
    ensures |incoming * (corpus + more)| == |incoming * corpus| + |(more - corpus) * incoming|
    ensures |incoming + (corpus + more)| == |incoming + corpus| + |more - corpus - incoming|
  {
    var gained, outside := (more - corpus) * incoming, more - corpus - incoming;
    assert incoming * (corpus + more) == incoming * corpus + gained;
    assert incoming + (corpus + more) == (incoming + corpus) + outside;
    Apart(incoming * corpus, gained);
    Apart(incoming + corpus, outside);
  }

  /** Growing the corpus by `more` can make a text that was not novel novel: each new
      word it does not share dilutes the overlap. It stays not novel exactly when the
      new words outside it are few enough for the overlap it has and gains. */
  lemma GrownCorpus(incoming: set<string>, corpus: set<string>, more: set<string>)
    ensures !Novel(incoming, corpus + more) <==>
      4 * |more - corpus - incoming| <=
        5 * (|incoming * corpus| + |(more - corpus) * incoming|) - 4 * |incoming + corpus|
  {
    GrownWords(incoming, corpus, more);
    if incoming == {} && corpus == {} {
      assert more - corpus - incoming == more;
    } else {
      assert incoming != {} || corpus + more != {};
    }
  }
}
