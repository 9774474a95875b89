/**
 * The community palette list of `src/CommunityPalettesService.ts`: comments of a
 * discussion are read page by page, scored by their reactions, and each comment
 * with a non-negative score offers the first palette found in its body. An author
 * gets at most one palette and a value is taken once; the list is then ordered by
 * score, highest first, with ties in the order the palettes were taken.
 *
 * The pages the server answers with are a parameter: `Failed` for a non-200 status
 * or a thrown request, `Received(json)` otherwise.
 */
module CommunityPalettes {
  import opened Seqs
  import opened Strings
  import opened PaletteScanner

  const PerPage: nat := 100
  const PositiveReactions: seq<string> := ["+1", "heart", "hooray", "rocket", "eyes", "laugh"]
  const NegativeReactions: seq<string> := ["-1", "confused"]

  datatype User = User(login: Option<string>, htmlUrl: Option<string>)

  /** A discussion comment; a reaction key holding `undefined` is an absent key. */
  datatype Comment = Comment(id: nat, body: Option<string>, htmlUrl: Option<string>, user: Option<User>,
                             reactions: Option<map<string, int>>)

  datatype CommunityPalette = CommunityPalette(id: string, value: string, colors: seq<string>, author: string,
                                               authorUrl: Option<string>, commentUrl: Option<string>, score: int)

  /** A palette with the `order` it was taken in. */
  datatype Ranked = Ranked(palette: CommunityPalette, order: nat)

  datatype PageResult = Failed | Received(json: Option<seq<Comment>>)

  // ---------------------------------------------------------------------------
  // Scoring

  /** `reactions[key] ?? 0`. */
  function ReactionCount(reactions: map<string, int>, key: string): int {
    if key in reactions then reactions[key] else 0
  }

  /** The `reduce` over a list of reaction keys. */
  function Total(reactions: map<string, int>, keys: seq<string>): int
    decreases |keys|
  {
    if |keys| == 0 then 0 else Total(reactions, keys[..|keys| - 1]) + ReactionCount(reactions, keys[|keys| - 1])
  }

  function ReactionScore(reactions: Option<map<string, int>>): int {
    match reactions
    case None => 0
    case Some(r) => Total(r, PositiveReactions) - Total(r, NegativeReactions)
  }

  /** The score written out key by key; an absent key counts zero. */
  lemma ReactionScoreSpelledOut(r: map<string, int>)
    ensures ReactionScore(Some(r)) ==
              ReactionCount(r, "+1") + ReactionCount(r, "heart") + ReactionCount(r, "hooray") +
              ReactionCount(r, "rocket") + ReactionCount(r, "eyes") + ReactionCount(r, "laugh") -
              ReactionCount(r, "-1") - ReactionCount(r, "confused")
  {
    var p, n := PositiveReactions, NegativeReactions;
    assert p == p[..6];
    forall k | 0 < k <= 6
      ensures p[..k][..k - 1] == p[..k - 1]
    {
    }
    assert n == n[..2] && n[..2][..1] == n[..1] && n[..1][..0] == n[..0];
    assert Total(r, p[..1]) == ReactionCount(r, "+1");
    assert Total(r, p[..2]) == Total(r, p[..1]) + ReactionCount(r, "heart");
    assert Total(r, p[..3]) == Total(r, p[..2]) + ReactionCount(r, "hooray");
    assert Total(r, p[..4]) == Total(r, p[..3]) + ReactionCount(r, "rocket");
    assert Total(r, p[..5]) == Total(r, p[..4]) + ReactionCount(r, "eyes");
    assert Total(r, p[..6]) == Total(r, p[..5]) + ReactionCount(r, "laugh");
    assert Total(r, n[..2]) == Total(r, n[..1]) + ReactionCount(r, "confused");
  }

  lemma {:induction false} TotalIgnores(r: map<string, int>, keys: seq<string>, k: string, v: int)
    requires k !in keys
    ensures Total(r[k := v], keys) == Total(r, keys)
    decreases |keys|
  {
    if |keys| > 0 {
      TotalIgnores(r, keys[..|keys| - 1], k, v);
    }
  }

  /** Reactions other than the eight counted ones do not move the score. */
  lemma ScoreIgnoresOtherReactions(r: map<string, int>, k: string, v: int)
    requires k !in PositiveReactions && k !in NegativeReactions
    ensures ReactionScore(Some(r[k := v])) == ReactionScore(Some(r))
  {
    TotalIgnores(r, PositiveReactions, k, v);
    TotalIgnores(r, NegativeReactions, k, v);
  }

  // ---------------------------------------------------------------------------
  // One comment

  /** `comment.user?.login || "unknown"`. */
  function AuthorOf(c: Comment): string {
    if c.user.Some? && c.user.value.login.Some? && c.user.value.login.value != "" then c.user.value.login.value else "unknown"
  }

  function AuthorUrlOf(c: Comment): Option<string> {
    if c.user.Some? then c.user.value.htmlUrl else None
  }

  /** `comment.body || ""`. */
  function BodyOf(c: Comment): string {
    if c.body.Some? then c.body.value else ""
  }

  function Digit(d: nat): char
    requires d < 10
  {
    (48 + d) as char
  }

  /** A whole number as JavaScript writes it in a template literal. */
  function Decimal(n: nat): (r: string)
    ensures |r| > 0 && forall j :: 0 <= j < |r| ==> '0' <= r[j] <= '9'
  {
    if n < 10 then [Digit(n)] else Decimal(n / 10) + [Digit(n % 10)]
  }

  function PaletteOf(c: Comment, value: string, author: string, score: int): CommunityPalette {
    CommunityPalette(Decimal(c.id) + "-0", value, Colors(value), author, AuthorUrlOf(c), c.htmlUrl, score)
  }

  // ---------------------------------------------------------------------------
  // Collecting

  /** The accumulators `palettes`, `uniqueValues` and `authorsWithPalette`. */
  datatype Gathered = Gathered(palettes: seq<Ranked>, values: set<string>, authors: set<string>)

  /** `comments.map(...).filter(({ score }) => score >= 0)`. */
  function Scored(comments: seq<Comment>): seq<(Comment, int)>
    decreases |comments|
  {
    if |comments| == 0 then []
    else
      var c := comments[|comments| - 1];
      Scored(comments[..|comments| - 1]) + (if ReactionScore(c.reactions) >= 0 then [(c, ReactionScore(c.reactions))] else [])
  }

  /** One round of the loop in `appendPalettesFromComments`. */
  function Admit(g: Gathered, c: Comment, score: int): Gathered {
    var author := AuthorOf(c);
    if author in g.authors then g
    else
      var found := Extracted(BodyOf(c));
      if |found| == 0 || found[0] == "" || found[0] in g.values then g
      else Gathered(g.palettes + [Ranked(PaletteOf(c, found[0], author, score), |g.palettes|)],
                    g.values + {found[0]}, g.authors + {author})
  }

  function AdmitAll(g: Gathered, scored: seq<(Comment, int)>): Gathered
    decreases |scored|
  {
    if |scored| == 0 then g
    else
      var last := scored[|scored| - 1];
      Admit(AdmitAll(g, scored[..|scored| - 1]), last.0, last.1)
  }

  function AppendAll(g: Gathered, comments: seq<Comment>): Gathered {
    AdmitAll(g, Scored(comments))
  }

  /** `response.json ?? []`. */
  function CommentsOf(json: Option<seq<Comment>>): seq<Comment> {
    if json.Some? then json.value else []
  }

  /** A page after which `collectPalettes` requests no more. */
  predicate LastPage(p: PageResult) {
    p.Failed? || |CommentsOf(p.json)| < PerPage
  }

  /**
   * `collectPalettes` from the first page of `pages` on. A page the model has no answer
   * for ends the walk as a failed one would.
   */
  function CollectAll(g: Gathered, pages: seq<PageResult>): Gathered
    decreases |pages|
  {
    if |pages| == 0 then g
    else match pages[0]
      case Failed => g
      case Received(json) =>
        var comments := CommentsOf(json);
        if |comments| == 0 then g
        else
          var next := AppendAll(g, comments);
          if |comments| < PerPage then next else CollectAll(next, pages[1..])
  }

  // ---------------------------------------------------------------------------
  // Ordering

  /** The comparator of `fetchCommunityPalettes`: higher score first, then lower `order`. */
  predicate Before(a: Ranked, b: Ranked) {
    a.palette.score > b.palette.score || (a.palette.score == b.palette.score && a.order < b.order)
  }

  function Insert(x: Ranked, s: seq<Ranked>): (r: seq<Ranked>)
    ensures multiset(r) == multiset(s) + multiset{x}
    decreases |s|
  {
    if |s| == 0 then [x]
    else if Before(s[0], x) then
      assert s == [s[0]] + s[1..];
      [s[0]] + Insert(x, s[1..])
    else [x] + s
  }

  /** `Array.prototype.sort` with that comparator, as an insertion sort. */
  function SortByScore(s: seq<Ranked>): seq<Ranked>
    decreases |s|
  {
    if |s| == 0 then [] else Insert(s[0], SortByScore(s[1..]))
  }

  function Unranked(s: seq<Ranked>): (r: seq<CommunityPalette>)
    ensures |r| == |s| && forall i :: 0 <= i < |s| ==> r[i] == s[i].palette
    decreases |s|
  {
    if |s| == 0 then [] else [s[0].palette] + Unranked(s[1..])
  }

  // ---------------------------------------------------------------------------
  // The service

  class PaletteCollector {
    var palettes: seq<Ranked>
    var uniqueValues: set<string>
    var authorsWithPalette: set<string>

    function State(): Gathered
      reads this
    {
      Gathered(palettes, uniqueValues, authorsWithPalette)
    }

    /** The empty accumulators `fetchCommunityPalettes` starts from. */
    constructor ()
      ensures State() == Gathered([], {}, {})
    {
      palettes := [];
      uniqueValues := {};
      authorsWithPalette := {};
    }

    method AppendPalettesFromComments(comments: seq<Comment>)
      modifies this
      ensures State() == AppendAll(old(State()), comments)
    {
      var scoredComments := Scored(comments);
      ghost var start := State();
      var i := 0;
      assert scoredComments[..0] == [];
      while i < |scoredComments|
        invariant i <= |scoredComments|
        invariant State() == AdmitAll(start, scoredComments[..i])
      {
        assert scoredComments[..i + 1][..i] == scoredComments[..i];
        AdmitComment(scoredComments[i].0, scoredComments[i].1);
        i := i + 1;
      }
      assert scoredComments[..|scoredComments|] == scoredComments;
    }

    /** The `forEach` callback for one scored comment: its first palette is kept if author and value are new. */
    method AdmitComment(comment: Comment, score: int)
      modifies this
      ensures State() == Admit(old(State()), comment, score)
    {
      var author := AuthorOf(comment);
      if author !in authorsWithPalette {
        var palettesFromComment := ExtractPalettesFromBody(BodyOf(comment));
        if |palettesFromComment| > 0 && palettesFromComment[0] != "" && palettesFromComment[0] !in uniqueValues {
          var value := palettesFromComment[0];
          uniqueValues := uniqueValues + {value};
          authorsWithPalette := authorsWithPalette + {author};
          palettes := palettes + [Ranked(PaletteOf(comment, value, author, score), |palettes|)];
        }
      }
    }

    /** `collectPalettes`: the recursion over page numbers, as a loop over the answers. */
    method CollectPalettes(pages: seq<PageResult>)
      modifies this
      ensures State() == CollectAll(old(State()), pages)
    {
      ghost var start := State();
      var page := 0;
      var done := false;
      while !done && page < |pages|
        invariant page <= |pages|
        invariant CollectAll(start, pages) == if done then State() else CollectAll(State(), pages[page..])
        decreases !done, |pages| - page
      {
        assert pages[page..][1..] == pages[page + 1..];
        var response := pages[page];
        if response.Failed? {
          done := true;
        } else {
          var comments := CommentsOf(response.json);
          if |comments| == 0 {
            done := true;
          } else {
            AppendPalettesFromComments(comments);
            if |comments| < PerPage {
              done := true;
            } else {
              page := page + 1;
            }
          }
        }
      }
    }
  }

  /** `fetchCommunityPalettes`: collect from page one, order, and drop `order`. */
  method FetchCommunityPalettes(pages: seq<PageResult>) returns (result: seq<CommunityPalette>)
    ensures result == Unranked(SortByScore(CollectAll(Gathered([], {}, {}), pages).palettes))
  {
    var collector := new PaletteCollector();
    collector.CollectPalettes(pages);
    result := Unranked(SortByScore(collector.palettes));
  }

  // ---------------------------------------------------------------------------
  // What collecting keeps

  /** Scoring keeps exactly the comments whose score is not negative, each with its score. */
  lemma {:induction false} ScoredMembers(comments: seq<Comment>)
    ensures forall x :: x in Scored(comments) <==> x.0 in comments && x.1 == ReactionScore(x.0.reactions) && x.1 >= 0
    decreases |comments|
  {
    if |comments| > 0 {
      var init, c := comments[..|comments| - 1], comments[|comments| - 1];
      ScoredMembers(init);
      assert comments == init + [c];
      assert forall y :: y in comments <==> y in init || y == c;
    }
  }

  /**
   * The accumulators agree: `order` is the position, no score is negative, no two
   * palettes share a value or an author, and the two sets hold exactly the values and
   * the authors of the palettes.
   */
  ghost predicate Consistent(g: Gathered) {
    (forall i :: 0 <= i < |g.palettes| ==> g.palettes[i].order == i && g.palettes[i].palette.score >= 0) &&
    (forall i, j :: 0 <= i < j < |g.palettes| ==>
       g.palettes[i].palette.value != g.palettes[j].palette.value &&
       g.palettes[i].palette.author != g.palettes[j].palette.author) &&
    g.values == (set r | r in g.palettes :: r.palette.value) &&
    g.authors == (set r | r in g.palettes :: r.palette.author)
  }

  lemma AdmitConsistent(g: Gathered, c: Comment, score: int)
    requires Consistent(g) && score >= 0
    ensures Consistent(Admit(g, c, score))
  {
    var g' := Admit(g, c, score);
    if g' != g {
      var r := g'.palettes[|g.palettes|];
      assert g'.palettes == g.palettes + [r];
      TakenSnoc(g.palettes, r);
      forall i | 0 <= i < |g.palettes|
        ensures g.palettes[i].palette.value != r.palette.value && g.palettes[i].palette.author != r.palette.author
      {
        assert g.palettes[i] in g.palettes;
      }
    }
  }

  lemma TakenSnoc(ps: seq<Ranked>, r: Ranked)
    ensures (set x | x in ps + [r] :: x.palette.value) == (set x | x in ps :: x.palette.value) + {r.palette.value}
    ensures (set x | x in ps + [r] :: x.palette.author) == (set x | x in ps :: x.palette.author) + {r.palette.author}
  {
    assert forall x :: x in ps + [r] <==> x in ps || x == r;
  }

  lemma {:induction false} AdmitAllConsistent(g: Gathered, scored: seq<(Comment, int)>)
    requires Consistent(g) && forall x :: x in scored ==> x.1 >= 0
    ensures Consistent(AdmitAll(g, scored))
    decreases |scored|
  {
    if |scored| > 0 {
      var init, last := scored[..|scored| - 1], scored[|scored| - 1];
      assert forall x :: x in init ==> x in scored;
      AdmitAllConsistent(g, init);
      assert last in scored;
      AdmitConsistent(AdmitAll(g, init), last.0, last.1);
    }
  }

  lemma AppendAllConsistent(g: Gathered, comments: seq<Comment>)
    requires Consistent(g)
    ensures Consistent(AppendAll(g, comments))
  {
    ScoredMembers(comments);
    AdmitAllConsistent(g, Scored(comments));
  }

  /** Collecting from empty accumulators yields consistent ones, whatever the pages say. */
  lemma {:induction false} CollectConsistent(g: Gathered, pages: seq<PageResult>)
    requires Consistent(g)
    ensures Consistent(CollectAll(g, pages))
    decreases |pages|
  {
    if |pages| > 0 && pages[0].Received? {
      var comments := CommentsOf(pages[0].json);
      if |comments| > 0 {
        AppendAllConsistent(g, comments);
        if |comments| >= PerPage {
          CollectConsistent(AppendAll(g, comments), pages[1..]);
        }
      }
    }
  }

  /**
   * Palettes are only ever appended: a palette once taken stays where it is, so the
   * first qualifying comment of an author keeps the slot even when a later one scores higher.
   */
  lemma {:induction false} AdmitAllExtends(g: Gathered, scored: seq<(Comment, int)>)
    ensures g.palettes <= AdmitAll(g, scored).palettes
    ensures g.values <= AdmitAll(g, scored).values && g.authors <= AdmitAll(g, scored).authors
    decreases |scored|
  {
    if |scored| > 0 {
      AdmitAllExtends(g, scored[..|scored| - 1]);
    }
  }

  /**
   * What one comment adds: a palette exactly when its author has none yet and the
   * first match in its body, lowercased, is a value not yet taken. That palette has
   * the id `<comment id>-0`, a lowercase value of at least two groups, one colour
   * per group, and the next `order`.
   */
  lemma AdmitOutcome(g: Gathered, c: Comment, score: int)
    ensures var ms := Matches(BodyOf(c), 0);
            |Admit(g, c, score).palettes| == |g.palettes| + 1 <==>
              AuthorOf(c) !in g.authors && |ms| > 0 && ToLower(ms[0]) !in g.values
    ensures |Admit(g, c, score).palettes| != |g.palettes| + 1 ==> Admit(g, c, score) == g
    ensures var g', ms := Admit(g, c, score), Matches(BodyOf(c), 0);
            |g'.palettes| == |g.palettes| + 1 ==>
              var r := g'.palettes[|g.palettes|];
              var v := r.palette.value;
              v == ToLower(ms[0]) && IsPaletteValue(v) && NoUpper(v) &&
              r.palette.id == Decimal(c.id) + "-0" && r.palette.author == AuthorOf(c) && r.palette.score == score &&
              r.order == |g.palettes| &&
              |r.palette.colors| == (|v| + 1) / 7 &&
              (forall i :: 0 <= i < |r.palette.colors| ==> r.palette.colors[i] == "#" + v[7 * i..7 * i + 6])
  {
    var body := BodyOf(c);
    ExtractedFirst(body);
    ExtractedShape(body);
    var found := Extracted(body);
    if |found| > 0 {
      assert found[0] in found;
      ColorsOfGroups(found[0]);
    }
  }

  /**
   * A value already taken does not use up the author's slot: after such a comment, a
   * later comment by the same author with a fresh value is still taken.
   */
  lemma SeenValueLeavesSlot(g: Gathered, c1: Comment, s1: int, c2: Comment, s2: int)
    requires AuthorOf(c1) == AuthorOf(c2) && AuthorOf(c1) !in g.authors
    requires |Extracted(BodyOf(c1))| > 0 && Extracted(BodyOf(c1))[0] in g.values
    requires |Extracted(BodyOf(c2))| > 0 && Extracted(BodyOf(c2))[0] !in g.values
    ensures Admit(g, c1, s1) == g
    ensures |Admit(Admit(g, c1, s1), c2, s2).palettes| == |g.palettes| + 1
  {
    ExtractedShape(BodyOf(c2));
    assert Extracted(BodyOf(c2))[0] in Extracted(BodyOf(c2));
  }

  /**
   * The paging rule: after a failed page, a page without comments or a page of fewer
   * than `PerPage` comments, nothing further is read; a full page is followed by the next.
   */
  lemma {:induction false} CollectStopsAt(g: Gathered, pages: seq<PageResult>, k: nat)
    requires k < |pages| && LastPage(pages[k])
    ensures CollectAll(g, pages) == CollectAll(g, pages[..k + 1])
    decreases k
  {
    assert pages[..k + 1][0] == pages[0];
    if k > 0 && pages[0].Received? && |CommentsOf(pages[0].json)| >= PerPage {
      assert pages[..k + 1][1..] == pages[1..][..k];
      CollectStopsAt(AppendAll(g, CommentsOf(pages[0].json)), pages[1..], k - 1);
    }
  }

  lemma CollectFullPage(g: Gathered, pages: seq<PageResult>)
    requires |pages| > 0 && !LastPage(pages[0])
    ensures CollectAll(g, pages) == CollectAll(AppendAll(g, CommentsOf(pages[0].json)), pages[1..])
  {
  }

  // ---------------------------------------------------------------------------
  // What ordering keeps

  ghost predicate Sorted(s: seq<Ranked>) {
    forall i, j :: 0 <= i < j < |s| ==> Before(s[i], s[j])
  }

  lemma InsertSorted(x: Ranked, s: seq<Ranked>)
    requires Sorted(s) && forall y :: y in s ==> y.order != x.order
    ensures Sorted(Insert(x, s))
    decreases |s|
  {
    if |s| > 0 {
      if Before(s[0], x) {
        var rest := Insert(x, s[1..]);
        assert forall y :: y in s[1..] ==> y in s;
        InsertSorted(x, s[1..]);
        var r := [s[0]] + rest;
        forall j | 0 < j < |r|
          ensures Before(s[0], r[j])
        {
          assert r[j] in multiset(rest);
          if r[j] != x {
            assert r[j] in multiset(s[1..]);
            var k :| 0 <= k < |s[1..]| && s[1..][k] == r[j];
            assert s[k + 1] == r[j];
          }
        }
      } else {
        assert s[0] in s;
      }
    }
  }

  lemma {:induction false} SortPermutation(s: seq<Ranked>)
    ensures multiset(SortByScore(s)) == multiset(s)
    decreases |s|
  {
    if |s| > 0 {
      SortPermutation(s[1..]);
      assert s == [s[0]] + s[1..];
    }
  }

  lemma TailOrdersDiffer(s: seq<Ranked>)
    requires |s| > 0 && forall i, j :: 0 <= i < j < |s| ==> s[i].order != s[j].order
    ensures forall y :: y in s[1..] ==> y.order != s[0].order
  {
    forall y | y in s[1..]
      ensures y.order != s[0].order
    {
      var k :| 0 <= k < |s[1..]| && s[1..][k] == y;
      assert s[k + 1] == y;
    }
  }

  lemma {:induction false} SortSorted(s: seq<Ranked>)
    requires forall i, j :: 0 <= i < j < |s| ==> s[i].order != s[j].order
    ensures Sorted(SortByScore(s))
    decreases |s|
  {
    if |s| > 0 {
      var rest := SortByScore(s[1..]);
      SortSorted(s[1..]);
      SortPermutation(s[1..]);
      TailOrdersDiffer(s);
      assert forall y :: y in rest ==> y in multiset(s[1..]);
      InsertSorted(s[0], rest);
    }
  }

  /** Rearranging a list whose entries differ in value and author, into a strictly ordered one, keeps them apart. */
  lemma RankedApart(collected: seq<Ranked>, ranked: seq<Ranked>)
    requires multiset(ranked) == multiset(collected) && Sorted(ranked)
    requires forall i, j :: 0 <= i < j < |collected| ==>
               collected[i].palette.value != collected[j].palette.value &&
               collected[i].palette.author != collected[j].palette.author
    ensures forall i, j :: 0 <= i < j < |ranked| ==>
              ranked[i].palette.author != ranked[j].palette.author && ranked[i].palette.value != ranked[j].palette.value
  {
    forall i, j | 0 <= i < j < |ranked|
      ensures ranked[i].palette.author != ranked[j].palette.author && ranked[i].palette.value != ranked[j].palette.value
    {
      assert ranked[i] in multiset(collected) && ranked[j] in multiset(collected);
      var a :| 0 <= a < |collected| && collected[a] == ranked[i];
      var b :| 0 <= b < |collected| && collected[b] == ranked[j];
      assert a != b by {
        assert Before(ranked[i], ranked[j]);
      }
      if a > b {
        assert collected[b].palette.author != collected[a].palette.author;
      }
    }
  }

  /**
   * The list `fetchCommunityPalettes` returns, before `order` is dropped: the collected
   * palettes rearranged, scores never increasing, equal scores in the order they were
   * taken, and no author or value twice.
   */
  lemma FetchRanked(pages: seq<PageResult>)
    ensures var collected := CollectAll(Gathered([], {}, {}), pages).palettes;
            var ranked := SortByScore(collected);
            multiset(ranked) == multiset(collected) &&
            forall i, j :: 0 <= i < j < |ranked| ==>
              ranked[i].palette.score >= ranked[j].palette.score &&
              (ranked[i].palette.score == ranked[j].palette.score ==> ranked[i].order < ranked[j].order) &&
              ranked[i].palette.author != ranked[j].palette.author &&
              ranked[i].palette.value != ranked[j].palette.value
  {
    var g := CollectAll(Gathered([], {}, {}), pages);
    CollectConsistent(Gathered([], {}, {}), pages);
    SortSorted(g.palettes);
    SortPermutation(g.palettes);
    RankedApart(g.palettes, SortByScore(g.palettes));
  }
}
