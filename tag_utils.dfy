/** Tag-name and palette-index normalisation shared by the resolver and the plugin. */
module TagUtils {
  import opened Seqs
  import opened Strings

  /**
   * `normalizeTagName`: every `#` removed, surrounding and inner whitespace removed,
   * and the trailing run of `/` stripped. Letter case is kept.
   */
  function NormalizeTagName(tagName: string): (r: string)
    ensures '#' !in r
    ensures NoSpace(r)
    ensures !EndsWith(r, '/')
  {
    var noHash := RemoveChar(tagName, '#');
    var noSpace := RemoveSpaces(Trim(noHash));
    var r := StripTrailing(noSpace, '/');
    assert forall i :: 0 <= i < |r| ==> r[i] == noSpace[i];
    assert forall i :: 0 <= i < |r| ==> r[i] in noHash by {
      forall i | 0 <= i < |r| ensures r[i] in noHash {
        assert noSpace[i] in noSpace;
        TrimSub(noHash, noSpace[i]);
      }
    }
    r
  }

  lemma TrimSub(s: string, c: char)
    requires c in RemoveSpaces(Trim(s))
    ensures c in s
  {
    var t := TrimStart(s);
    assert c in Trim(s);
    assert c in t;
  }

  lemma {:induction false} FilterNone<T>(s: seq<T>, p: T -> bool)
    requires forall i :: 0 <= i < |s| ==> !p(s[i])
    ensures Filter(s, p) == []
    decreases |s|
  {
    if |s| > 0 {
      FilterNone(s[1..], p);
    }
  }

  /** Removing whitespace after trimming is the same as removing it from the untrimmed text. */
  lemma RemoveSpacesTrim(s: string)
    ensures RemoveSpaces(Trim(s)) == RemoveSpaces(s)
  {
    var t := TrimStart(s);
    TrimStartPrefix(s);
    FilterDropPrefix(s, |s| - |t|, NotSpace);
    var u := TrimEnd(t);
    TrimEndSuffix(t);
    FilterDropSuffix(t, |u|, NotSpace);
  }

  /** A prefix of rejected elements does not change the filter. */
  lemma FilterDropPrefix<T>(s: seq<T>, k: nat, p: T -> bool)
    requires k <= |s|
    requires forall i :: 0 <= i < k ==> !p(s[i])
    ensures Filter(s, p) == Filter(s[k..], p)
  {
    assert s == s[..k] + s[k..];
    FilterAppend(s[..k], s[k..], p);
    FilterNone(s[..k], p);
  }

  /** A suffix of rejected elements does not change the filter. */
  lemma FilterDropSuffix<T>(s: seq<T>, k: nat, p: T -> bool)
    requires k <= |s|
    requires forall i :: k <= i < |s| ==> !p(s[i])
    ensures Filter(s, p) == Filter(s[..k], p)
  {
    assert s == s[..k] + s[k..];
    FilterAppend(s[..k], s[k..], p);
    FilterNone(s[k..], p);
  }

  lemma {:induction false} TrimStartPrefix(s: string)
    ensures forall i :: 0 <= i < |s| - |TrimStart(s)| ==> IsSpace(s[i])
    decreases |s|
  {
    if |s| > 0 && IsSpace(s[0]) {
      TrimStartPrefix(s[1..]);
    }
  }

  lemma {:induction false} TrimEndSuffix(s: string)
    ensures forall i :: |TrimEnd(s)| <= i < |s| ==> IsSpace(s[i])
    decreases |s|
  {
    if |s| > 0 && IsSpace(s[|s| - 1]) {
      TrimEndSuffix(s[..|s| - 1]);
    }
  }

  /**
   * Only a trailing run of `/` is lost: the result followed by some slashes is exactly
   * the input with `#` and whitespace removed, so interior slashes and letter case survive.
   */
  lemma NormalizeStripsOnlyTrailingSlashes(tagName: string)
    ensures var core := RemoveSpaces(RemoveChar(tagName, '#'));
            var r := NormalizeTagName(tagName);
            |r| <= |core| && core[..|r|] == r &&
            forall i :: |r| <= i < |core| ==> core[i] == '/'
  {
    RemoveSpacesTrim(RemoveChar(tagName, '#'));
  }

  /** Normalising twice is normalising once. */
  lemma NormalizeIdempotent(tagName: string)
    ensures NormalizeTagName(NormalizeTagName(tagName)) == NormalizeTagName(tagName)
  {
    var r := NormalizeTagName(tagName);
    assert forall i :: 0 <= i < |r| ==> r[i] != '#';
    FilterAll(r, Except('#'));
    assert RemoveChar(r, '#') == r;
    TrimNoSpace(r);
    FilterAll(r, NotSpace);
    assert RemoveSpaces(r) == r;
  }

  /** A name that is already clean is a fixed point. */
  lemma NormalizeCleanName(s: string)
    requires '#' !in s && NoSpace(s) && !EndsWith(s, '/')
    ensures NormalizeTagName(s) == s
  {
    RemoveAbsentChar(s, '#');
    CleanSteps(s);
    NormalizeSteps(s);
  }

  /** Writing a clean name as `#name/` normalises back to the name: case and inner slashes survive. */
  lemma NormalizeDecoratedName(s: string)
    requires '#' !in s && NoSpace(s) && !EndsWith(s, '/')
    ensures NormalizeTagName("#" + s + "/") == s
  {
    var w := s + "/";
    assert "#" + s + "/" == "#" + w;
    DropLeadingHash(w);
    NormalizeSteps("#" + w);
    assert !IsSpace('/');
    NoSpaceAppend(s, '/');
    CleanSteps(w);
    assert RemoveSpaces(Trim(RemoveChar("#" + w, '#'))) == w;
    StripOneSlash(s);
  }

  lemma StripOneSlash(s: string)
    requires !EndsWith(s, '/')
    ensures StripTrailing(s + "/", '/') == s
  {
    assert (s + "/")[..|s|] == s;
  }

  lemma DropLeadingHash(w: string)
    requires '#' !in w
    ensures RemoveChar("#" + w, '#') == w
  {
    FilterAppend("#", w, Except('#'));
    FilterNone("#", Except('#'));
    FilterAll(w, Except('#'));
  }

  lemma NoSpaceAppend(s: string, c: char)
    requires NoSpace(s) && !IsSpace(c)
    ensures NoSpace(s + [c])
  {
    assert forall i :: 0 <= i < |s| ==> (s + [c])[i] == s[i];
  }

  lemma NormalizeSteps(s: string)
    ensures NormalizeTagName(s) == StripTrailing(RemoveSpaces(Trim(RemoveChar(s, '#'))), '/')
  {
  }

  lemma CleanSteps(s: string)
    requires NoSpace(s)
    ensures RemoveSpaces(Trim(s)) == s
  {
    TrimNoSpace(s);
    FilterAll(s, NotSpace);
  }

  /** JavaScript's `%`: the remainder takes the sign of the dividend. */
  function JsRem(a: int, b: int): (r: int)
    requires b > 0
    ensures -b < r < b
    ensures a >= 0 ==> r >= 0
    ensures a < 0 ==> r <= 0
  {
    if a >= 0 then a % b else -((-a) % b)
  }

  /**
   * `normalizePaletteIndex`: 0 for a non-positive length, otherwise the index brought
   * into `[0, length)` by adding `length` to a negative JavaScript remainder.
   */
  function NormalizePaletteIndex(index: int, length: int): (r: int)
    ensures length <= 0 ==> r == 0
    ensures length > 0 ==> 0 <= r < length && r == index % length
  {
    if length <= 0 then 0
    else
      var normalized := JsRem(index, length);
      var r := if normalized < 0 then normalized + length else normalized;
      assert r == index % length by { JsRemEuclidean(index, length); }
      r
  }

  /** Division with remainder in `[0, b)` is unique. */
  lemma ModUnique(a: int, b: int, m: int, r: int)
    requires b > 0 && 0 <= r < b && a == b * m + r
    ensures a % b == r
  {
    var q, s := a / b, a % b;
    assert a == b * q + s;
    var d := m - q;
    assert b * d == s - r;
    MulBound(b, d);
  }

  lemma MulBound(b: int, d: int)
    requires b > 0 && -b < b * d < b
    ensures d == 0
  {
  }

  lemma JsRemEuclidean(a: int, b: int)
    requires b > 0
    ensures (if JsRem(a, b) < 0 then JsRem(a, b) + b else JsRem(a, b)) == a % b
  {
    if a < 0 {
      var k, q := (-a) / b, (-a) % b;
      assert -a == b * k + q;
      if q > 0 {
        ModUnique(a, b, -k - 1, b - q);
      } else {
        ModUnique(a, b, -k, 0);
      }
    }
  }

  lemma NormalizePaletteIndexExamples()
    ensures NormalizePaletteIndex(6, 5) == 1
    ensures NormalizePaletteIndex(-1, 5) == 4
    ensures NormalizePaletteIndex(3, 0) == 0
  {
  }
}
