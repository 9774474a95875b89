/**
 * `src/i18n/index.ts`: translation lookup. Each locale is a tree of JSON objects whose
 * leaves are strings; a key such as `settings.palette.heading` is split on `.` and walked
 * from the locale's root. A walk that falls off the tree falls back to the English tree,
 * and the English fallback is returned without interpolation.
 */
module I18n {
  import opened Seqs
  import opened Strings

  /** A value of a `TranslationTree`: a string leaf or a nested object. */
  datatype Entry = Text(s: string) | Tree(children: map<string, Entry>)

  /** The bundled locales (`en`, `ru`, `de`, `zh`), keyed by language code, each a JSON object. */
  type Locales = map<string, map<string, Entry>>

  /** The locale whose tree `t` starts from: the stored language if it names a bundled locale, else `en`. */
  function ActiveRoot(locales: Locales, stored: Option<string>): (root: map<string, Entry>)
    requires "en" in locales
    ensures stored.Some? && stored.value != "" && stored.value in locales ==> root == locales[stored.value]
    ensures stored.None? || stored.value == "" || stored.value !in locales ==> root == locales["en"]
  {
    var locale := if stored.Some? && stored.value != "" then stored.value else "en";
    if locale in locales then locales[locale] else locales["en"]
  }

  /**
   * Walk `keys` from `e`: `None` when a segment is missing or the walk has to descend into
   * a string, otherwise the entry reached.
   */
  function Lookup(e: Entry, keys: seq<string>): Option<Entry>
    decreases |keys|
  {
    if |keys| == 0 then Some(e)
    else if e.Text? || keys[0] !in e.children then None
    else Lookup(e.children[keys[0]], keys[1..])
  }

  /** `extractEnglishValue`: the English string at the path, or the original key. */
  function EnglishValue(en: map<string, Entry>, keys: seq<string>, originalKey: string): string {
    match Lookup(Tree(en), keys)
    case Some(Text(s)) => s
    case _ => originalKey
  }

  /** The text that `{{name}}` placeholders are written as. */
  function Placeholder(name: string): (p: string)
    ensures |p| == |name| + 4
  {
    "{{" + name + "}}"
  }

  /** `pat` occurs in `s` starting at position `i`. */
  predicate OccursAt(s: string, pat: string, i: nat) {
    i <= |s| && StartsWith(s[i..], pat)
  }

  /**
   * `s.replace(new RegExp(pat, "g"), val)` for a literal pattern: every leftmost,
   * non-overlapping occurrence of `pat`, scanning left to right, becomes `val`.
   */
  function ReplaceAll(s: string, pat: string, val: string): string
    requires |pat| > 0
    decreases |s|
  {
    if |s| < |pat| then s
    else if StartsWith(s, pat) then val + ReplaceAll(s[|pat|..], pat, val)
    else [s[0]] + ReplaceAll(s[1..], pat, val)
  }

  /** The `forEach` over `Object.entries(params)`, in insertion order. */
  function Interpolated(s: string, params: seq<(string, string)>): string
    decreases |params|
  {
    if |params| == 0 then s
    else
      var last := params[|params| - 1];
      ReplaceAll(Interpolated(s, params[..|params| - 1]), Placeholder(last.0), last.1)
  }

  /** `I18n.t(key, params)` with the stored `language` given as `stored`. */
  function Translate(locales: Locales, stored: Option<string>, key: string, params: Option<seq<(string, string)>>): string
    requires "en" in locales
  {
    var keys := Split(key, '.');
    match Lookup(Tree(ActiveRoot(locales, stored)), keys)
    case None => EnglishValue(locales["en"], keys, key)
    case Some(Tree(_)) => key
    case Some(Text(s)) => if params.Some? then Interpolated(s, params.value) else s
  }

  // ---------------------------------------------------------------------------
  // The loops of `index.ts`

  /** `extractEnglishValue`: the cursor walks the English tree and stops at the first dead end. */
  method ExtractEnglishValue(en: map<string, Entry>, keys: seq<string>, originalKey: string) returns (r: string)
    ensures r == EnglishValue(en, keys, originalKey)
  {
    var engValue: Option<Entry> := Some(Tree(en));
    var i := 0;
    while i < |keys|
      invariant i <= |keys| && engValue.Some?
      invariant Lookup(Tree(en), keys) == Lookup(engValue.value, keys[i..])
    {
      var cur := engValue.value;
      if cur.Text? || keys[i] !in cur.children {
        engValue := None;
        break;
      }
      assert keys[i..][1..] == keys[i + 1..];
      engValue := Some(cur.children[keys[i]]);
      i := i + 1;
    }
    if engValue.Some? && engValue.value.Text? {
      assert keys[i..] == [];
      return engValue.value.s;
    }
    return originalKey;
  }

  /** `I18n.t`: walk the active locale, fall back on a dead end, then interpolate. */
  method T(locales: Locales, stored: Option<string>, key: string, params: Option<seq<(string, string)>>) returns (r: string)
    requires "en" in locales
    ensures r == Translate(locales, stored, key, params)
  {
    var locale := if stored.Some? && stored.value != "" then stored.value else "en";
    var keys := Split(key, '.');
    var root := if locale in locales then locales[locale] else locales["en"];
    var translations := Tree(root);
    var i := 0;
    while i < |keys|
      invariant i <= |keys|
      invariant Lookup(Tree(ActiveRoot(locales, stored)), keys) == Lookup(translations, keys[i..])
    {
      if translations.Text? || keys[i] !in translations.children {
        r := ExtractEnglishValue(locales["en"], keys, key);
        return;
      }
      assert keys[i..][1..] == keys[i + 1..];
      translations := translations.children[keys[i]];
      i := i + 1;
    }
    assert keys[i..] == [];
    if translations.Tree? {
      return key;
    }
    var result := translations.s;
    if params.Some? {
      var ps := params.value;
      var j := 0;
      while j < |ps|
        invariant j <= |ps|
        invariant result == Interpolated(translations.s, ps[..j])
      {
        assert ps[..j + 1][..j] == ps[..j];
        result := ReplaceAll(result, Placeholder(ps[j].0), ps[j].1);
        j := j + 1;
      }
      assert ps[..j] == ps;
    }
    return result;
  }

  // ---------------------------------------------------------------------------
  // Lemmas

  /** Walking `a + b` is walking `a`, then walking `b` from where that ended. */
  lemma {:induction false} LookupAppend(e: Entry, a: seq<string>, b: seq<string>)
    ensures Lookup(e, a + b) == match Lookup(e, a) { case None => None case Some(x) => Lookup(x, b) }
    decreases |a|
  {
    if |a| == 0 {
      assert a + b == b;
    } else if e.Tree? && a[0] in e.children {
      assert (a + b)[0] == a[0];
      assert (a + b)[1..] == a[1..] + b;
      LookupAppend(e.children[a[0]], a[1..], b);
    }
  }

  /** Any language that is not a bundled locale, an empty one, or none at all, reads exactly as English. */
  lemma UnsupportedLocaleIsEnglish(locales: Locales, stored: Option<string>, key: string, params: Option<seq<(string, string)>>)
    requires "en" in locales
    requires stored.None? || stored.value == "" || stored.value !in locales
    ensures Translate(locales, stored, key, params) == Translate(locales, Some("en"), key, params)
  {
  }

  /** A path that ends on a string gives that string, interpolated when params are given. */
  lemma FoundString(locales: Locales, stored: Option<string>, key: string, params: Option<seq<(string, string)>>, s: string)
    requires "en" in locales
    requires Lookup(Tree(ActiveRoot(locales, stored)), Split(key, '.')) == Some(Text(s))
    ensures Translate(locales, stored, key, None) == s
    ensures params.Some? ==> Translate(locales, stored, key, params) == Interpolated(s, params.value)
  {
  }

  /** A path that ends on a subtree gives the key itself. */
  lemma SubtreeGivesKey(locales: Locales, stored: Option<string>, key: string, params: Option<seq<(string, string)>>)
    requires "en" in locales
    requires Lookup(Tree(ActiveRoot(locales, stored)), Split(key, '.')).Some?
    requires Lookup(Tree(ActiveRoot(locales, stored)), Split(key, '.')).value.Tree?
    ensures Translate(locales, stored, key, params) == key
  {
  }

  /**
   * A dead end in the active locale gives the English string at the same path when there
   * is one and the key otherwise, and the params play no part in either.
   */
  lemma DeadEndFallsBack(locales: Locales, stored: Option<string>, key: string, params: Option<seq<(string, string)>>)
    requires "en" in locales
    requires Lookup(Tree(ActiveRoot(locales, stored)), Split(key, '.')).None?
    ensures var english := Lookup(Tree(locales["en"]), Split(key, '.'));
            Translate(locales, stored, key, params) == if english.Some? && english.value.Text? then english.value.s else key
    ensures Translate(locales, stored, key, params) == Translate(locales, stored, key, None)
  {
  }

  /**
   * With English active, a dead end always gives the key: the fallback walks the same tree
   * and fails at the same segment.
   */
  lemma EnglishDeadEndGivesKey(locales: Locales, key: string, params: Option<seq<(string, string)>>)
    requires "en" in locales
    requires Lookup(Tree(locales["en"]), Split(key, '.')).None?
    ensures Translate(locales, Some("en"), key, params) == key
  {
  }

  /** An occurrence one position further into `s` is an occurrence in `s[1..]`. */
  lemma OccursShift(s: string, pat: string, i: nat)
    requires 0 < |s|
    ensures OccursAt(s, pat, i + 1) <==> OccursAt(s[1..], pat, i)
  {
    if i + 1 <= |s| {
      assert s[1..][i..] == s[i + 1..];
    }
  }

  /** A string with no occurrence of the pattern comes back unchanged. */
  lemma {:induction false} ReplaceAbsent(s: string, pat: string, val: string)
    requires |pat| > 0
    requires forall i :: 0 <= i <= |s| ==> !OccursAt(s, pat, i)
    ensures ReplaceAll(s, pat, val) == s
    decreases |s|
  {
    if |s| >= |pat| {
      assert s[0..] == s && !OccursAt(s, pat, 0);
      forall i | 0 <= i <= |s[1..]|
        ensures !OccursAt(s[1..], pat, i)
      {
        OccursShift(s, pat, i);
      }
      ReplaceAbsent(s[1..], pat, val);
      assert s == [s[0]] + s[1..];
    }
  }

  /**
   * The first occurrence is replaced and the scan resumes after it: if `pat` first occurs
   * in `a + pat + b` at `|a|`, the result is `a`, then `val`, then `b` with its own
   * occurrences replaced. With `ReplaceAbsent` this gives every occurrence replaced.
   */
  lemma {:induction false} ReplaceFirst(a: string, pat: string, b: string, val: string)
    requires |pat| > 0
    requires forall i :: 0 <= i < |a| ==> !OccursAt(a + pat + b, pat, i)
    ensures ReplaceAll(a + pat + b, pat, val) == a + val + ReplaceAll(b, pat, val)
    decreases |a|
  {
    var s := a + pat + b;
    if |a| == 0 {
      assert s == pat + b;
      assert s[..|pat|] == pat && s[|pat|..] == b;
    } else {
      assert s[0..] == s && !OccursAt(s, pat, 0);
      var t := a[1..] + pat + b;
      assert s[1..] == t;
      forall i | 0 <= i < |a[1..]|
        ensures !OccursAt(t, pat, i)
      {
        OccursShift(s, pat, i);
      }
      ReplaceFirst(a[1..], pat, b, val);
      assert !StartsWith(s, pat) && |s| >= |pat|;
      assert ReplaceAll(s, pat, val) == [s[0]] + ReplaceAll(t, pat, val);
      assert s[0] == a[0] && a == [a[0]] + a[1..];
    }
  }

  /** With no params, or params whose placeholders do not occur, interpolation changes nothing. */
  lemma {:induction false} InterpolatedAbsent(s: string, params: seq<(string, string)>)
    requires forall k, i :: 0 <= k < |params| && 0 <= i <= |s| ==> !OccursAt(s, Placeholder(params[k].0), i)
    ensures Interpolated(s, params) == s
    decreases |params|
  {
    if |params| > 0 {
      var last := params[|params| - 1];
      InterpolatedAbsent(s, params[..|params| - 1]);
      ReplaceAbsent(s, Placeholder(last.0), last.1);
    }
  }
}
