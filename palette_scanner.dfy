/**
 * `extractPalettesFromBody` in `src/CommunityPalettesService.ts`: the global regular
 * expression `\b([0-9a-fA-F]{6}(?:-[0-9a-fA-F]{6})+)\b` run over a comment body,
 * each match lowercased into an insertion-ordered set; and the `colors` a palette
 * value turns into. The regular expression is written out as a scanner: a match
 * starts at a word boundary with six hex digits, takes as many `-` groups as it can
 * (at least one), and, when no word boundary follows, gives the last group back.
 */
module PaletteScanner {
  import opened Seqs
  import opened Strings

  predicate IsHexDigit(c: char) {
    '0' <= c <= '9' || 'a' <= c <= 'f' || 'A' <= c <= 'F'
  }

  /** `\w`: the characters a word boundary separates from the rest. */
  predicate IsWordChar(c: char) {
    '0' <= c <= '9' || 'a' <= c <= 'z' || 'A' <= c <= 'Z' || c == '_'
  }

  /** Six hex digits from position `p`. */
  predicate HexRun(s: string, p: nat) {
    p + 6 <= |s| && forall j :: p <= j < p + 6 ==> IsHexDigit(s[j])
  }

  /** How many `-` + six hex digits follow one another from `p`: the greedy `(?:-[0-9a-fA-F]{6})+`. */
  function Groups(s: string, p: nat): (k: nat)
    ensures k == 0 || p + 7 * k <= |s|
    decreases |s| - p
  {
    if p + 7 <= |s| && s[p] == '-' && HexRun(s, p + 1) then 1 + Groups(s, p + 7) else 0
  }

  /** The end of the match that starts at `p`, if one does. */
  function MatchAt(s: string, p: nat): (r: Option<nat>)
    ensures r.Some? ==> p + 13 <= r.value <= |s|
  {
    if p >= |s| || !(p == 0 || !IsWordChar(s[p - 1])) || !HexRun(s, p) then None
    else
      var k := Groups(s, p + 6);
      var e := p + 6 + 7 * k;
      if k == 0 then None
      else if e == |s| || !IsWordChar(s[e]) then Some(e)
      else if k >= 2 then Some(e - 7)
      else None
  }

  /** `regex.exec` from `lastIndex`: the leftmost match at or after `from`, as (start, end). */
  function NextMatch(s: string, from: nat): (r: Option<(nat, nat)>)
    ensures r.Some? ==> from <= r.value.0 && MatchAt(s, r.value.0) == Some(r.value.1)
    decreases |s| - from
  {
    if from >= |s| then None
    else match MatchAt(s, from)
      case Some(e) => Some((from, e))
      case None => NextMatch(s, from + 1)
  }

  /** The match `NextMatch` finds is the leftmost one; when it finds none, there is none. */
  lemma {:induction false} NextMatchLeftmost(s: string, from: nat)
    ensures NextMatch(s, from).Some? ==> forall q :: from <= q < NextMatch(s, from).value.0 ==> MatchAt(s, q).None?
    ensures NextMatch(s, from).None? ==> forall q :: from <= q < |s| ==> MatchAt(s, q).None?
    decreases |s| - from
  {
    if from < |s| && MatchAt(s, from).None? {
      NextMatchLeftmost(s, from + 1);
    }
  }

  /** Every match from `from` on, in order; each search starts where the last match ended. */
  function Matches(s: string, from: nat): seq<string>
    decreases |s| - from
  {
    match NextMatch(s, from)
    case None => []
    case Some((p, e)) => [s[p..e]] + Matches(s, e)
  }

  function LowerAll(ms: seq<string>): (r: seq<string>)
    ensures |r| == |ms|
    decreases |ms|
  {
    if |ms| == 0 then [] else LowerAll(ms[..|ms| - 1]) + [ToLower(ms[|ms| - 1])]
  }

  /** The palettes of a body: matches lowercased, each kept at its first occurrence. */
  function Extracted(body: string): seq<string> {
    Dedup(LowerAll(Matches(body, 0)))
  }

  method ExtractPalettesFromBody(body: string) returns (results: seq<string>)
    ensures results == Extracted(body)
  {
    results := [];
    ghost var found: seq<string> := [];
    var lastIndex := 0;
    var searching := true;
    while searching
      invariant searching ==> found + Matches(body, lastIndex) == Matches(body, 0)
      invariant !searching ==> found == Matches(body, 0)
      invariant results == Dedup(LowerAll(found))
      decreases searching, |body| - lastIndex
    {
      var next := NextMatch(body, lastIndex);
      if next.None? {
        searching := false;
        assert found + [] == found;
      } else {
        var m := body[next.value.0..next.value.1];
        var lower := ToLower(m);
        ExtractStep(body, lastIndex, found, m, next.value.1);
        LowerDedupSnoc(found, m);
        results := AddLast(results, lower);
        found := found + [m];
        lastIndex := next.value.1;
      }
    }
  }

  /** One round of the `regex.exec` loop: the match found is the next one in `Matches`. */
  lemma ExtractStep(body: string, lastIndex: nat, found: seq<string>, m: string, e: nat)
    requires found + Matches(body, lastIndex) == Matches(body, 0)
    requires NextMatch(body, lastIndex).Some? && NextMatch(body, lastIndex).value.1 == e
    requires m == body[NextMatch(body, lastIndex).value.0..e]
    ensures (found + [m]) + Matches(body, e) == Matches(body, 0)
  {
    assert Matches(body, lastIndex) == [m] + Matches(body, e);
  }

  lemma LowerDedupSnoc(found: seq<string>, m: string)
    ensures Dedup(LowerAll(found + [m])) == AddLast(Dedup(LowerAll(found)), ToLower(m))
  {
    assert (found + [m])[..|found|] == found;
    var lowered := LowerAll(found + [m]);
    assert lowered == LowerAll(found) + [ToLower(m)];
    assert lowered[..|lowered| - 1] == LowerAll(found);
  }

  // ---------------------------------------------------------------------------
  // The shape of a palette value

  /** Groups of six hex digits separated by single dashes. */
  predicate HexGroups(v: string)
    decreases |v|
  {
    HexRun(v, 0) && (|v| == 6 || (|v| >= 13 && v[6] == '-' && HexGroups(v[7..])))
  }

  /** What the regular expression matches: at least two groups. */
  predicate IsPaletteValue(v: string) {
    HexGroups(v) && |v| > 6
  }

  predicate NoUpper(v: string) {
    forall j :: 0 <= j < |v| ==> !('A' <= v[j] <= 'Z')
  }

  /** Six hex digits at `p` followed by `k` groups read by `Groups` make a run of groups. */
  lemma {:induction false} GroupsShape(s: string, p: nat, k: nat)
    requires HexRun(s, p) && k <= Groups(s, p + 6)
    ensures p + 6 + 7 * k <= |s| && HexGroups(s[p..p + 6 + 7 * k])
    decreases k
  {
    var v := s[p..p + 6 + 7 * k];
    if k > 0 {
      assert Groups(s, p + 6) == 1 + Groups(s, p + 13);
      GroupsShape(s, p + 7, k - 1);
      assert v[7..] == s[p + 7..p + 7 + 6 + 7 * (k - 1)];
    }
  }

  lemma MatchAtShape(s: string, p: nat)
    requires MatchAt(s, p).Some?
    ensures IsPaletteValue(s[p..MatchAt(s, p).value])
  {
    var k := Groups(s, p + 6);
    var e := p + 6 + 7 * k;
    if e == |s| || !IsWordChar(s[e]) {
      GroupsShape(s, p, k);
    } else {
      GroupsShape(s, p, k - 1);
    }
  }

  lemma {:induction false} MatchesShape(s: string, from: nat)
    ensures forall m :: m in Matches(s, from) ==> IsPaletteValue(m)
    decreases |s| - from
  {
    match NextMatch(s, from)
    case None =>
    case Some((p, e)) =>
      MatchAtShape(s, p);
      MatchesShape(s, e);
  }

  lemma {:induction false} LowerShape(v: string)
    requires HexGroups(v)
    ensures HexGroups(ToLower(v)) && NoUpper(ToLower(v))
    decreases |v|
  {
    var w := ToLower(v);
    if |v| > 6 {
      LowerShape(v[7..]);
      assert w[7..] == ToLower(v[7..]);
    }
  }

  lemma {:induction false} LowerAllShape(ms: seq<string>)
    requires forall m :: m in ms ==> IsPaletteValue(m)
    ensures forall m :: m in LowerAll(ms) ==> IsPaletteValue(m) && NoUpper(m)
    decreases |ms|
  {
    if |ms| > 0 {
      var init, last := ms[..|ms| - 1], ms[|ms| - 1];
      assert forall m :: m in init ==> m in ms;
      assert last in ms;
      LowerAllShape(init);
      LowerShape(last);
      assert LowerAll(ms) == LowerAll(init) + [ToLower(last)];
    }
  }

  /** Every extracted palette is a lowercase run of at least two groups, and none repeats. */
  lemma ExtractedShape(body: string)
    ensures NoDup(Extracted(body))
    ensures forall v :: v in Extracted(body) ==> IsPaletteValue(v) && NoUpper(v)
  {
    MatchesShape(body, 0);
    LowerAllShape(Matches(body, 0));
    var all := LowerAll(Matches(body, 0));
    forall v | v in Extracted(body)
      ensures v in all
    {
      assert v in Elems(Extracted(body));
    }
  }

  /** The first extracted palette is the first match, lowercased. */
  lemma ExtractedFirst(body: string)
    ensures |Extracted(body)| > 0 <==> |Matches(body, 0)| > 0
    ensures |Extracted(body)| > 0 ==> Extracted(body)[0] == ToLower(Matches(body, 0)[0])
  {
    var ms := Matches(body, 0);
    DedupFirst(LowerAll(ms));
    if |ms| > 0 {
      LowerAllFirst(ms);
    }
  }

  lemma {:induction false} LowerAllFirst(ms: seq<string>)
    requires |ms| > 0
    ensures LowerAll(ms)[0] == ToLower(ms[0])
    decreases |ms|
  {
    if |ms| > 1 {
      LowerAllFirst(ms[..|ms| - 1]);
    }
  }

  lemma {:induction false} DedupFirst<T>(s: seq<T>)
    ensures |Dedup(s)| > 0 <==> |s| > 0
    ensures |s| > 0 ==> Dedup(s)[0] == s[0]
    decreases |s|
  {
    if |s| > 0 {
      var init := s[..|s| - 1];
      DedupFirst(init);
      if |init| == 0 {
        assert Dedup(init) == [];
      }
    }
  }

  // ---------------------------------------------------------------------------
  // colors

  function IsNonEmpty(): string -> bool {
    s => s != ""
  }

  function PrefixHash(groups: seq<string>): (r: seq<string>)
    ensures |r| == |groups|
    decreases |groups|
  {
    if |groups| == 0 then [] else ["#" + groups[0]] + PrefixHash(groups[1..])
  }

  /** `value.split("-").filter(Boolean).map((hex) => `#${hex}`)`. */
  function Colors(value: string): seq<string> {
    PrefixHash(Filter(Split(value, '-'), IsNonEmpty()))
  }

  lemma {:induction false} SplitNone(g: string, sep: char)
    requires sep !in g
    ensures Split(g, sep) == [g]
    decreases |g|
  {
    if |g| > 0 {
      SplitNone(g[1..], sep);
      assert g == [g[0]] + g[1..];
    }
  }

  lemma {:induction false} SplitAfter(g: string, rest: string, sep: char)
    requires sep !in g
    ensures Split(g + [sep] + rest, sep) == [g] + Split(rest, sep)
    decreases |g|
  {
    var s := g + [sep] + rest;
    if |g| == 0 {
      assert s[1..] == rest;
    } else {
      assert s[1..] == g[1..] + [sep] + rest;
      SplitAfter(g[1..], rest, sep);
      assert [g[0]] + g[1..] == g;
    }
  }

  /** The colours of a run of groups: the first group's colour, then the rest's. */
  lemma ColorsCons(v: string)
    requires HexGroups(v)
    ensures |v| == 6 ==> Colors(v) == ["#" + v]
    ensures |v| > 6 ==> Colors(v) == ["#" + v[..6]] + Colors(v[7..])
  {
    var g := v[..6];
    assert '-' !in g by {
      forall j | 0 <= j < 6
        ensures g[j] != '-'
      {
        assert IsHexDigit(v[j]);
      }
    }
    if |v| == 6 {
      assert g == v;
      SplitNone(v, '-');
      assert [v][1..] == [];
    } else {
      var rest := v[7..];
      assert v == g + ['-'] + rest;
      SplitAfter(g, rest, '-');
      var split := [g] + Split(rest, '-');
      assert split[1..] == Split(rest, '-');
      var kept := Filter(split, IsNonEmpty());
      assert kept == [g] + Filter(Split(rest, '-'), IsNonEmpty());
      assert kept[1..] == Filter(Split(rest, '-'), IsNonEmpty());
    }
  }

  /** A palette value gives one colour per group: `#` and the group's six hex digits. */
  lemma {:induction false} ColorsOfGroups(v: string)
    requires HexGroups(v)
    ensures |Colors(v)| == (|v| + 1) / 7
    ensures forall i :: 0 <= i < |Colors(v)| ==> 7 * i + 6 <= |v| && Colors(v)[i] == "#" + v[7 * i..7 * i + 6]
    decreases |v|
  {
    ColorsCons(v);
    if |v| > 6 {
      var rest := v[7..];
      ColorsOfGroups(rest);
      forall i | 0 < i < |Colors(v)|
        ensures 7 * i + 6 <= |v| && Colors(v)[i] == "#" + v[7 * i..7 * i + 6]
      {
        assert Colors(v)[i] == Colors(rest)[i - 1];
        assert rest[7 * (i - 1)..7 * (i - 1) + 6] == v[7 * i..7 * i + 6];
      }
    }
  }
}
