/** Ids derived from names: the lossy slug, the collision check that makes a lossy
    slug safe, and what keeps the stores of two arms apart. */
module Space {
  import opened Options

  const ID_MAX: nat := 63

  predicate Usable(c: char) {
    'a' <= c <= 'z' || '0' <= c <= '9'
  }

  function Lower(s: string): string {
    if s == "" then ""
    else [if 'A' <= s[0] <= 'Z' then s[0] - 'A' + 'a' else s[0]] + Lower(s[1..])
  }

  /** Every maximal run of unusable characters becomes one hyphen. */
  function Collapse(s: string): string {
    if s == "" then ""
    else if Usable(s[0]) then [s[0]] + Collapse(s[1..])
    else Hyphened(Collapse(s[1..]))
  }

  function Hyphened(rest: string): string {
    if rest != "" && rest[0] == '-' then rest else "-" + rest
  }

  function StripLeft(s: string): string {
    if s != "" && s[0] == '-' then StripLeft(s[1..]) else s
  }

  function StripRight(s: string): string {
    if s != "" && s[|s| - 1] == '-' then StripRight(s[..|s| - 1]) else s
  }

  /** Surrounding whitespace is unusable, so trimming it first changes nothing. */
  function Slug(raw: string): string {
    StripRight(StripLeft(Collapse(Lower(raw))))
  }

  function IdFor(prefix: string, raw: string): Option<string> {
    var slug := Slug(raw);
    if slug == "" then None else
    var id := prefix + slug;
    Some(StripRight(if |id| > ID_MAX then id[..ID_MAX] else id))
  }

  function ScopeIdFor(key: string): Option<string> {
    IdFor("hs-", key)
  }

  function SpaceIdFor(run: string): Option<string> {
    IdFor("bench-", run)
  }

  // ------------------------------------------------------------------ id shape

  /** `^[a-z0-9][a-z0-9-]{1,62}$`, which the database demands of an id. */
  ghost predicate WellFormedId(id: string) {
    && 2 <= |id| <= 63 && Usable(id[0])
    && forall i :: 0 <= i < |id| ==> Usable(id[i]) || id[i] == '-'
  }

  ghost predicate IdChars(s: string) {
    forall i :: 0 <= i < |s| ==> Usable(s[i]) || s[i] == '-'
  }

  /** Nothing to strip, and only single hyphens inside. */
  ghost predicate Core(s: string) {
    && IdChars(s)
    && (s != "" ==> s[0] != '-' && s[|s| - 1] != '-')
    && forall i :: 0 < i < |s| ==> s[i - 1] != '-' || s[i] != '-'
  }

  ghost predicate Edge(s: string) {
    s == "" || s == "-"
  }

  lemma CoreGrows(first: char, lead: string, core: string)
    requires Usable(first) && Edge(lead) && Core(core) && core != ""
    ensures Core([first] + lead + core)
  {
    var s := [first] + lead + core;
    assert forall i :: 1 + |lead| <= i < |s| ==> s[i] == core[i - 1 - |lead|];
  }

  lemma HyphenFirst(lead: string, core: string, trail: string)
    requires Edge(lead) && Edge(trail) && Core(core) && (core == "" ==> trail == "")
    ensures Hyphened(lead + core + trail) == "-" + core + trail
  {
    if lead == "" {
      assert lead + core + trail == core + trail;
      assert "-" + core + trail == "-" + (core + trail);
    }
  }

  lemma Prefixed(first: char, lead: string, core: string, trail: string)
    ensures "" + ([first] + lead + core) + trail == [first] + (lead + core + trail)
    ensures "" + [first] + lead == [first] + (lead + "" + "")
  {
  }

  /** A collapsed string is a core with at most one hyphen at each end. */
  lemma {:induction false} CollapseShape(s: string) returns (lead: string, core: string, trail: string)
    ensures Collapse(s) == lead + core + trail
    ensures Edge(lead) && Edge(trail) && Core(core) && (core == "" ==> trail == "")
  {
    if s == "" {
      lead, core, trail := "", "", "";
    } else {
      var l, c, t := CollapseShape(s[1..]);
      if Usable(s[0]) {
        Prefixed(s[0], l, c, t);
        if c == "" {
          lead, core, trail := "", [s[0]], l;
        } else {
          CoreGrows(s[0], l, c);
          lead, core, trail := "", [s[0]] + l + c, t;
        }
      } else {
        lead, core, trail := "-", c, t;
        HyphenFirst(l, c, t);
      }
    }
  }

  lemma StripsLead(lead: string, body: string)
    requires Edge(lead) && (body != "" ==> body[0] != '-')
    ensures StripLeft(lead + body) == body
  {
    if lead == "" {
      assert lead + body == body;
    } else {
      assert (lead + body)[1..] == body;
    }
  }

  lemma StripsTrail(body: string, trail: string)
    requires Edge(trail) && (body == "" ==> trail == "") && (body != "" ==> body[|body| - 1] != '-')
    ensures StripRight(body + trail) == body
  {
    if trail == "" {
      assert body + trail == body;
    } else {
      assert (body + trail)[..|body|] == body;
    }
  }

  lemma StripShape(lead: string, core: string, trail: string)
    requires Edge(lead) && Edge(trail) && Core(core) && (core == "" ==> trail == "")
    ensures StripRight(StripLeft(lead + core + trail)) == core
  {
    if core == "" {
      assert lead + core + trail == lead;
      assert lead == "-" ==> lead[1..] == "";
    } else {
      assert lead + core + trail == lead + (core + trail);
      StripsLead(lead, core + trail);
      StripsTrail(core, trail);
    }
  }

  lemma SlugIsCore(raw: string)
    ensures Core(Slug(raw))
  {
    var lead, core, trail := CollapseShape(Lower(raw));
    StripShape(lead, core, trail);
  }

  lemma {:induction false} StripRightShape(s: string)
    ensures StripRight(s) <= s
    ensures forall i :: |StripRight(s)| <= i < |s| ==> s[i] == '-'
    ensures StripRight(s) != "" ==> StripRight(s)[|StripRight(s)| - 1] != '-'
  {
    if s != "" && s[|s| - 1] == '-' {
      StripRightShape(s[..|s| - 1]);
    }
  }

  /** Every id the harness derives is one the database accepts. */
  lemma IdsAreWellFormed(raw: string)
    ensures ScopeIdFor(raw).Some? ==> WellFormedId(ScopeIdFor(raw).value)
    ensures SpaceIdFor(raw).Some? ==> WellFormedId(SpaceIdFor(raw).value)
  {
    if Slug(raw) != "" {
      PrefixedIdWellFormed("hs-", raw);
      PrefixedIdWellFormed("bench-", raw);
    }
  }

  lemma PrefixedIdWellFormed(prefix: string, raw: string)
    requires 2 <= |prefix| <= 6 && IdChars(prefix) && Usable(prefix[0]) && Usable(prefix[1]) && Slug(raw) != ""
    ensures WellFormedId(IdFor(prefix, raw).value)
  {
    SlugIsCore(raw);
    var id := prefix + Slug(raw);
    var cut := if |id| > ID_MAX then id[..ID_MAX] else id;
    StripRightShape(cut);
    assert cut[0] == prefix[0] && cut[1] == prefix[1];
  }

  /** The same character, but for its case. */
  ghost predicate SameButCase(c: char, d: char) {
    || c == d
    || ('a' <= c <= 'z' && 'A' <= d <= 'Z' && c - 'a' == d - 'A')
    || ('A' <= c <= 'Z' && 'a' <= d <= 'z' && c - 'A' == d - 'a')
  }

  lemma {:induction false} LowerIgnoresCase(a: string, b: string)
    requires |a| == |b| && forall i :: 0 <= i < |a| ==> SameButCase(a[i], b[i])
    ensures Lower(a) == Lower(b)
  {
    if a != "" {
      LowerIgnoresCase(a[1..], b[1..]);
    }
  }

  /** Names that differ in case alone have the same ids. */
  lemma IdsIgnoreCase(a: string, b: string)
    requires |a| == |b| && forall i :: 0 <= i < |a| ==> SameButCase(a[i], b[i])
    ensures Slug(a) == Slug(b) && ScopeIdFor(a) == ScopeIdFor(b) && SpaceIdFor(a) == SpaceIdFor(b)
  {
    LowerIgnoresCase(a, b);
  }

  /** Letters and digits survive: a name that is a slug already is its own slug. */
  lemma SlugFixes(s: string)
    requires forall i :: 0 <= i < |s| ==> 'a' <= s[i] <= 'z' || '0' <= s[i] <= '9' || s[i] == '-'
    requires s != "" ==> s[0] != '-' && s[|s| - 1] != '-'
    requires forall i :: 0 < i < |s| ==> s[i - 1] != '-' || s[i] != '-'
    ensures Slug(s) == s
  {
    LowerFixes(s);
    CollapseFixes(s);
    assert Core(s);
    StripsTrail(s, "");
    assert s + "" == s;
  }

  lemma {:induction false} LowerFixes(s: string)
    requires forall i :: 0 <= i < |s| ==> !('A' <= s[i] <= 'Z')
    ensures Lower(s) == s
  {
    if s != "" {
      LowerFixes(s[1..]);
      assert s == [s[0]] + s[1..];
    }
  }

  lemma {:induction false} CollapseFixes(s: string)
    requires forall i :: 0 <= i < |s| ==> 'a' <= s[i] <= 'z' || '0' <= s[i] <= '9' || s[i] == '-'
    requires forall i :: 0 < i < |s| ==> s[i - 1] != '-' || s[i] != '-'
    ensures Collapse(s) == s
  {
    if s != "" {
      CollapseFixes(s[1..]);
      assert s == [s[0]] + s[1..];
      assert |s| > 1 ==> s[1..][0] == s[1];
    }
  }

  /** An id is its prefix and the slug, cut to 63 characters and then of any hyphen at the end. */
  lemma IdIs(raw: string)
    requires Slug(raw) != ""
    ensures |Slug(raw)| <= 60 ==> ScopeIdFor(raw) == Some("hs-" + Slug(raw))
    ensures |Slug(raw)| <= 57 ==> SpaceIdFor(raw) == Some("bench-" + Slug(raw))
    ensures |Slug(raw)| > 60 ==> ScopeIdFor(raw).value == StripRight("hs-" + Slug(raw)[..60])
    ensures |Slug(raw)| > 57 ==> SpaceIdFor(raw).value == StripRight("bench-" + Slug(raw)[..57])
  {
    SlugIsCore(raw);
    var slug := Slug(raw);
    StripsTrail("hs-" + slug, "");
    StripsTrail("bench-" + slug, "");
    assert "hs-" + slug + "" == "hs-" + slug && "bench-" + slug + "" == "bench-" + slug;
    assert |slug| > 60 ==> ("hs-" + slug)[..63] == "hs-" + slug[..60];
    assert |slug| > 57 ==> ("bench-" + slug)[..63] == "bench-" + slug[..57];
  }

  // ------------------------------------------------- run spaces of different packs

  function DropHyphen(s: string): string {
    if s != "" && s[|s| - 1] == '-' then s[..|s| - 1] else s
  }

  lemma HyphenedJoin(rest: string, tail: string)
    requires tail != "" && tail[0] == '-'
    ensures Hyphened(DropHyphen(rest) + tail) == DropHyphen(Hyphened(rest)) + tail
  {
    if DropHyphen(rest) == "" {
      assert DropHyphen(rest) + tail == tail && DropHyphen(Hyphened(rest)) == "";
    } else {
      assert (DropHyphen(rest) + tail)[0] == rest[0];
      assert DropHyphen("-" + rest) == "-" + DropHyphen(rest);
      assert "-" + (DropHyphen(rest) + tail) == "-" + DropHyphen(rest) + tail;
    }
  }

  lemma UsableJoin(c: char, rest: string, tail: string)
    requires c != '-'
    ensures [c] + (DropHyphen(rest) + tail) == DropHyphen([c] + rest) + tail
  {
    if rest == "" {
      assert [c] + rest == [c];
    } else {
      assert DropHyphen([c] + rest) == [c] + DropHyphen(rest);
    }
  }

  lemma {:induction false} CollapseJoin(a: string, b: string)
    requires b != "" && !Usable(b[0])
    ensures Collapse(a + b) == DropHyphen(Collapse(a)) + Collapse(b)
  {
    if a == "" {
      assert a + b == b;
      assert Collapse(a) == "";
    } else {
      assert (a + b)[1..] == a[1..] + b && (a + b)[0] == a[0];
      CollapseJoin(a[1..], b);
      if Usable(a[0]) {
        UsableJoin(a[0], Collapse(a[1..]), Collapse(b));
      } else {
        HyphenedJoin(Collapse(a[1..]), Collapse(b));
      }
    }
  }

  lemma {:induction false} LowerJoin(a: string, b: string)
    ensures Lower(a + b) == Lower(a) + Lower(b)
  {
    if a == "" {
      assert a + b == b;
    } else {
      assert (a + b)[1..] == a[1..] + b;
      LowerJoin(a[1..], b);
    }
  }

  lemma AfterHyphen(y: string, lead: string, core: string, trail: string)
    requires Collapse(y) == lead + core + trail && Edge(lead) && Edge(trail) && Core(core) && core != ""
    ensures Collapse("-" + y) == "-" + core + trail
  {
    assert ("-" + y)[1..] == y;
    if lead == "-" {
      assert Collapse(y) == "-" + core + trail;
    } else {
      assert Collapse(y) == core + trail;
    }
  }

  lemma LowerOfHyphen()
    ensures Lower("-") == "-"
  {
    assert "-"[1..] == "";
  }

  lemma LowerHyphenated(a: string, b: string)
    ensures Lower(a + "-" + b) == Lower(a) + ("-" + Lower(b))
  {
    LowerJoin(a, "-" + b);
    LowerJoin("-", b);
    LowerOfHyphen();
    assert a + "-" + b == a + ("-" + b);
  }

  lemma CoreJoin(c: string, d: string)
    requires Core(c) && c != "" && Core(d) && d != ""
    ensures Core(c + "-" + d)
  {
    var s := c + "-" + d;
    assert s[0] == c[0] && s[|s| - 1] == d[|d| - 1];
    forall i | 0 < i < |s|
      ensures s[i - 1] != '-' || s[i] != '-'
    {
      if i == |c| {
        assert s[i - 1] == c[|c| - 1];
      } else if i == |c| + 1 {
        assert s[i] == d[0];
      }
    }
  }

  lemma DropTrail(body: string, trail: string)
    requires body != "" && body[|body| - 1] != '-' && Edge(trail)
    ensures DropHyphen(body + trail) == body
  {
    if trail == "" {
      assert body + trail == body;
    } else {
      assert (body + trail)[..|body|] == body;
    }
  }

  /** Joining two names with a hyphen joins their slugs with one. */
  lemma SlugJoin(a: string, b: string)
    requires Slug(a) != "" && Slug(b) != ""
    ensures Slug(a + "-" + b) == Slug(a) + "-" + Slug(b)
  {
    var l1, t1 := SlugParts(a);
    var l2, t2 := SlugParts(b);
    var c1, c2 := Slug(a), Slug(b);
    LowerHyphenated(a, b);
    CollapseJoin(Lower(a), "-" + Lower(b));
    AfterHyphen(Lower(b), l2, c2, t2);
    DropTrail(l1 + c1, t1);
    Regroup(l1, c1, c2, t2);
    CoreJoin(c1, c2);
    StripShape(l1, c1 + "-" + c2, t2);
  }

  /** What slugging cuts off: at most a hyphen at each end. */
  lemma SlugParts(raw: string) returns (lead: string, trail: string)
    ensures Collapse(Lower(raw)) == lead + Slug(raw) + trail
    ensures Edge(lead) && Edge(trail) && Core(Slug(raw))
  {
    var core;
    lead, core, trail := CollapseShape(Lower(raw));
    StripShape(lead, core, trail);
  }

  lemma Regroup(l: string, c: string, d: string, t: string)
    ensures l + c + ("-" + d + t) == l + (c + "-" + d) + t
  {
  }

  function Cut(id: string): string {
    if |id| > ID_MAX then id[..ID_MAX] else id
  }

  /** What follows a short enough base keeps its first letter. */
  lemma LetterKept(base: string, rest: string)
    requires |base| < ID_MAX && rest != "" && rest[0] != '-'
    ensures |StripRight(Cut(base + rest))| > |base| && StripRight(Cut(base + rest))[|base|] == rest[0]
  {
    var x := Cut(base + rest);
    assert x[|base|] == rest[0];
    StripRightShape(x);
  }

  lemma LetterLost(base: string, rest: string)
    requires |base| >= ID_MAX && rest != ""
    ensures Cut(base + rest) == base[..ID_MAX]
  {
  }

  lemma SpaceIdIs(run: string, pack: string)
    requires Slug(run) != "" && Slug(pack) != ""
    ensures SpaceIdFor(run + "-" + pack) == Some(StripRight(Cut("bench-" + Slug(run) + "-" + Slug(pack))))
  {
    SlugJoin(run, pack);
    assert "bench-" + (Slug(run) + "-" + Slug(pack)) == "bench-" + Slug(run) + "-" + Slug(pack);
  }

  /** Space ids are not checked for collisions. Two packs whose names start
      differently get distinct spaces under one run id exactly when the run's slug
      leaves room for the first letter of the pack. */
  lemma PackSpacesDistinctExactlyWhen(run: string, p: string, q: string)
    requires Slug(run) != "" && Slug(p) != "" && Slug(q) != "" && Slug(p)[0] != Slug(q)[0]
    ensures SpaceIdFor(run + "-" + p) != SpaceIdFor(run + "-" + q) <==> |Slug(run)| <= 55
  {
    SlugIsCore(p);
    SlugIsCore(q);
    SpaceIdIs(run, p);
    SpaceIdIs(run, q);
    var base := "bench-" + Slug(run) + "-";
    if |Slug(run)| <= 55 {
      LetterKept(base, Slug(p));
      LetterKept(base, Slug(q));
    } else {
      LetterLost(base, Slug(p));
      LetterLost(base, Slug(q));
    }
  }

  // ---------------------------------------------------------------- provisioning

  /** Scope derivation is usable on `keys` and separates them. */
  ghost predicate Apart(keys: set<string>) {
    && (forall key :: key in keys ==> ScopeIdFor(key).Some?)
    && forall a, b :: a in keys && b in keys && ScopeIdFor(a) == ScopeIdFor(b) ==> a == b
  }

  ghost predicate Separates(keys: seq<string>) {
    Apart(set key | key in keys)
  }

  // ---------------------------------------------------------------- arm isolation

  /** What one ingest is for. */
  datatype Triple = Triple(haystack: string, extractor: string, pack: string)

  datatype Place = Place(space: Option<string>, scope: Option<string>)

  function ScopeKey(t: Triple): string {
    t.haystack + ":" + t.extractor
  }

  function PlaceOf(run: string, t: Triple): Place {
    Place(SpaceIdFor(run + "-" + t.pack), ScopeIdFor(ScopeKey(t)))
  }

  /** An extractor name holds no colon, so the key determines both of its parts. */
  lemma ScopeKeyInjective(a: Triple, b: Triple)
    requires ':' !in a.extractor && ':' !in b.extractor && ScopeKey(a) == ScopeKey(b)
    ensures a.haystack == b.haystack && a.extractor == b.extractor
  {
    var key, m, n := ScopeKey(a), |a.extractor|, |b.extractor|;
    assert key[|key| - m - 1] == ':' && key[|key| - n - 1] == ':';
    forall i | |key| - m <= i < |key|
      ensures key[i] != ':'
    {
      assert key[i] == a.extractor[i - (|key| - m)];
    }
    forall i | |key| - n <= i < |key|
      ensures key[i] != ':'
    {
      assert key[i] == b.extractor[i - (|key| - n)];
    }
    assert m == n;
    assert key[|key| - m..] == a.extractor && key[|key| - n..] == b.extractor;
    assert key[..|key| - m - 1] == a.haystack && key[..|key| - n - 1] == b.haystack;
  }

  /** The scope keys one pack's space is provisioned with are those of its triples. */
  ghost predicate Provisions(keys: seq<string>, triples: set<Triple>, pack: string) {
    forall t :: t in triples && t.pack == pack ==> ScopeKey(t) in keys
  }

  /** If each pack was provisioned and the packs' spaces differ, distinct triples
      address distinct places in every later phase. */
  lemma ArmIsolation(run: string, triples: set<Triple>, keys: map<string, seq<string>>, a: Triple, b: Triple)
    requires forall t :: t in triples ==> ':' !in t.extractor && t.pack in keys
    requires forall pack :: pack in keys ==> Separates(keys[pack]) && Provisions(keys[pack], triples, pack)
    requires forall p, q :: p in keys && q in keys && p != q ==> SpaceIdFor(run + "-" + p) != SpaceIdFor(run + "-" + q)
    requires a in triples && b in triples && a != b
    ensures PlaceOf(run, a) != PlaceOf(run, b)
  {
    if a.pack == b.pack && ScopeKey(a) == ScopeKey(b) {
      ScopeKeyInjective(a, b);
    }
  }

  lemma {:induction false} FirstLetter(name: string)
    requires name != "" && 'a' <= name[0] <= 'z'
    ensures Slug(name) != "" && Slug(name)[0] == name[0]
  {
    var lead, core, trail := CollapseShape(Lower(name));
    StripShape(lead, core, trail);
    assert Collapse(Lower(name))[0] == name[0];
    assert core != "" && (lead + core + trail)[0] == core[0];
  }

  /** With a longer run id the check has nothing to say: two packs share a space, and
      one haystack and extractor address the same place under both, although each
      pack's scope keys separate. */
  lemma SharedSpace(run: string, haystack: string, extractor: string, p: string, q: string)
    requires p != "" && q != "" && 'a' <= p[0] <= 'z' && 'a' <= q[0] <= 'z' && p[0] != q[0]
    requires Slug(run) != ""
    ensures PlaceOf(run, Triple(haystack, extractor, p)) == PlaceOf(run, Triple(haystack, extractor, q))
      <==> |Slug(run)| > 55
  {
    FirstLetter(p);
    FirstLetter(q);
    PackSpacesDistinctExactlyWhen(run, p, q);
  }
}
