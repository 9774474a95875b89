/**
 * The first release of the plugin (the repository's root `main.ts`): tag names are read
 * from the metadata cache or the editor, kept in an insertion-ordered set, and each tag
 * is coloured from a fixed 36-entry LCH palette chosen by a 32-bit string hash.
 */
module LegacyMain {
  import opened Seqs
  import opened Strings
  import opened ColorMath

  // ---------------------------------------------------------------------------
  // Tag names

  /** A cleaned name is kept when it is non-empty and does not end in `/`. */
  function IsTagName(): string -> bool {
    t => t != "" && !EndsWith(t, '/')
  }

  /** Every `#` removed from each text (`tag.replace(/\#/g, "")`). */
  function WithoutHashes(texts: seq<string>): (r: seq<string>)
    ensures |r| == |texts|
    ensures forall i :: 0 <= i < |r| ==> r[i] == RemoveChar(texts[i], '#')
  {
    seq(|texts|, i requires 0 <= i < |texts| => RemoveChar(texts[i], '#'))
  }

  /**
   * `getTagsFromApp` (and `getTagsFromDOM`, which runs the same chain over inner texts):
   * strip every `#`, drop names ending in `/`, drop empty names, keep the order.
   */
  function CleanTags(texts: seq<string>): (r: seq<string>)
    ensures forall i :: 0 <= i < |r| ==> '#' !in r[i] && r[i] != "" && !EndsWith(r[i], '/')
  {
    Filter(WithoutHashes(texts), IsTagName())
  }

  /** A cleaned text is kept exactly when it is a non-empty name not ending in `/`. */
  lemma CleanTagsMembers(texts: seq<string>)
    ensures forall t :: t in CleanTags(texts) <==>
              (exists i :: 0 <= i < |texts| && t == RemoveChar(texts[i], '#')) && t != "" && !EndsWith(t, '/')
  {
    var cleaned := WithoutHashes(texts);
    FilterKeeps(cleaned, IsTagName());
    forall t | t in CleanTags(texts)
      ensures exists i :: 0 <= i < |texts| && t == RemoveChar(texts[i], '#')
    {
      var i :| 0 <= i < |cleaned| && cleaned[i] == t;
      assert t == RemoveChar(texts[i], '#');
    }
  }

  // ---------------------------------------------------------------------------
  // The set of known tags

  /** `tagsList.find(tag => !tagsSet.has(tag))`: the first tag not yet known. */
  function FirstNew(known: seq<string>, tagsList: seq<string>): (r: Option<string>)
    ensures r.Some? ==> r.value in tagsList && r.value !in known
    ensures r.None? <==> forall t :: t in tagsList ==> t in known
    decreases |tagsList|
  {
    if |tagsList| == 0 then None
    else if tagsList[0] !in known then Some(tagsList[0])
    else
      var rest := FirstNew(known, tagsList[1..]);
      assert forall t :: t in tagsList ==> t == tagsList[0] || t in tagsList[1..];
      rest
  }

  /** `update` acts only when `find` returns a truthy value: a new tag that is not `""`. */
  predicate Triggers(known: seq<string>, tagsList: seq<string>) {
    var first := FirstNew(known, tagsList);
    first.Some? && first.value != ""
  }

  /** The known tags after every tag of `tagsList` is added, in order. */
  function AddAll(known: seq<string>, tagsList: seq<string>): (r: seq<string>)
    ensures Elems(r) == Elems(known) + Elems(tagsList)
    ensures NoDup(known) ==> NoDup(r)
    decreases |tagsList|
  {
    if |tagsList| == 0 then known
    else
      var init := tagsList[..|tagsList| - 1];
      assert Elems(tagsList) == Elems(init) + {tagsList[|tagsList| - 1]} by {
        assert tagsList == init + [tagsList[|tagsList| - 1]];
      }
      AddLast(AddAll(known, init), tagsList[|tagsList| - 1])
  }

  /** The plugin's state: `tagsSet` in insertion order, and every argument passed to `colorizeTags`. */
  class LegacyPlugin {
    var tagsSet: seq<string>
    var colorized: seq<seq<string>>

    ghost predicate Valid()
      reads this
    {
      NoDup(tagsSet)
    }

    constructor ()
      ensures Valid() && tagsSet == [] && colorized == []
    {
      tagsSet := [];
      colorized := [];
    }

    /**
     * `update`: when some tag is new (and the first new one is not `""`), every tag is
     * added and the whole set is colourized; otherwise nothing happens.
     */
    method Update(tagsList: seq<string>)
      requires Valid()
      modifies this
      ensures Valid()
      ensures Triggers(old(tagsSet), tagsList) ==>
                tagsSet == AddAll(old(tagsSet), tagsList) && colorized == old(colorized) + [tagsSet]
      ensures !Triggers(old(tagsSet), tagsList) ==> tagsSet == old(tagsSet) && colorized == old(colorized)
    {
      var first := FirstNew(tagsSet, tagsList);
      if first.None? || first.value == "" {
        return;
      }
      AddTags(tagsList);
      colorized := colorized + [tagsSet];
    }

    /** The `forEach` of `update`: each tag is added to the set in turn. */
    method AddTags(tagsList: seq<string>)
      requires Valid()
      modifies this
      ensures Valid()
      ensures tagsSet == AddAll(old(tagsSet), tagsList) && colorized == old(colorized)
    {
      var i := 0;
      while i < |tagsList|
        invariant i <= |tagsList|
        invariant tagsSet == AddAll(old(tagsSet), tagsList[..i])
        invariant NoDup(tagsSet) && colorized == old(colorized)
      {
        assert tagsList[..i + 1][..i] == tagsList[..i];
        if tagsList[i] !in tagsSet {
          tagsSet := tagsSet + [tagsList[i]];
        }
        i := i + 1;
      }
      assert tagsList[..i] == tagsList;
    }

    /** On load and on `active-leaf-change`: the set is cleared, then updated from the metadata cache's tags. */
    method Reload(cacheTags: seq<string>)
      modifies this
      ensures Valid()
      ensures tagsSet == (if Triggers([], CleanTags(cacheTags)) then AddAll([], CleanTags(cacheTags)) else [])
      ensures colorized == old(colorized) + (if Triggers([], CleanTags(cacheTags)) then [tagsSet] else [])
    {
      tagsSet := [];
      Update(CleanTags(cacheTags));
    }
  }

  /**
   * With names from `getTagsFromApp` or `getTagsFromDOM`, which are never empty, `update`
   * acts exactly when some tag is not yet known.
   */
  lemma TriggersOnNewTag(known: seq<string>, tagsList: seq<string>)
    requires forall t :: t in tagsList ==> t != ""
    ensures Triggers(known, tagsList) <==> exists t :: t in tagsList && t !in known
  {
  }

  /** Cleaned names always satisfy that condition. */
  lemma CleanTagsNonEmpty(texts: seq<string>)
    ensures forall t :: t in CleanTags(texts) ==> t != ""
  {
    var r := CleanTags(texts);
    forall t | t in r
      ensures t != ""
    {
      var i :| 0 <= i < |r| && r[i] == t;
    }
  }

  /** Adding keeps the tags already known at the front, in their order. */
  lemma {:induction false} AddAllKeepsPrefix(known: seq<string>, tagsList: seq<string>)
    ensures |known| <= |AddAll(known, tagsList)| && AddAll(known, tagsList)[..|known|] == known
    decreases |tagsList|
  {
    if |tagsList| > 0 {
      var init := tagsList[..|tagsList| - 1];
      AddAllKeepsPrefix(known, init);
      var r0 := AddAll(known, init);
      var x := tagsList[|tagsList| - 1];
      if x !in r0 {
        assert (r0 + [x])[..|known|] == r0[..|known|];
      }
    }
  }

  /**
   * The `find` guard on its own is on truthiness: an empty first new tag would hide the new
   * tags after it. `getTagsFromApp` never hands `update` an empty name (`CleanTagsNonEmpty`),
   * so this input cannot reach the guard from the plugin.
   */
  lemma EmptyFirstNewSkips()
    ensures !Triggers([], ["", "a"]) && Triggers([], ["a"])
  {
    assert FirstNew([], ["", "a"]) == Some("");
  }

  // ---------------------------------------------------------------------------
  // The string hash

  const Two31: int := 0x8000_0000
  const Two32: int := 0x1_0000_0000

  /** ECMAScript `ToInt32` of an integer-valued number. */
  function ToInt32(x: int): (r: int)
    ensures -Two31 <= r < Two31
    ensures (r - x) % Two32 == 0
    ensures -Two31 <= x < Two31 ==> r == x
  {
    var m := x % Two32;
    if m >= Two31 then m - Two32 else m
  }

  /** One step of the loop: `charCode + ((hashCode << 5) - hashCode)`; only the shift wraps. */
  function HashStep(h: int, c: char): int {
    c as int + (ToInt32(ToInt32(h) * 32) - h)
  }

  /** The hash of `s`, characters folded from the left. */
  function Hash(s: string): int
    decreases |s|
  {
    if |s| == 0 then 0 else HashStep(Hash(s[..|s| - 1]), s[|s| - 1])
  }

  /** Java's `String.hashCode` polynomial `31 * h + c`, without any wrap-around. */
  function Poly31(s: string): int
    decreases |s|
  {
    if |s| == 0 then 0 else 31 * Poly31(s[..|s| - 1]) + s[|s| - 1] as int
  }

  /** The hash loop of `generateUniqueColor`. */
  method HashCode(s: string) returns (hashCode: int)
    ensures hashCode == Hash(s)
  {
    hashCode := 0;
    var i := 0;
    while i < |s|
      invariant i <= |s|
      invariant hashCode == Hash(s[..i])
    {
      assert s[..i + 1][..i] == s[..i];
      hashCode := s[i] as int + (ToInt32(ToInt32(hashCode) * 32) - hashCode);
      i := i + 1;
    }
    assert s[..i] == s;
  }

  /**
   * While every intermediate hash times 32 fits in 32 bits, the shift does not wrap and
   * the hash is Java's `31 * h + c` polynomial.
   */
  lemma {:induction false} HashIsPoly31(s: string)
    requires forall k :: 0 <= k < |s| ==> -0x400_0000 <= Poly31(s[..k]) < 0x400_0000
    ensures Hash(s) == Poly31(s)
    decreases |s|
  {
    if |s| > 0 {
      var init := s[..|s| - 1];
      forall k | 0 <= k < |init|
        ensures -0x400_0000 <= Poly31(init[..k]) < 0x400_0000
      {
        assert init[..k] == s[..k];
      }
      HashIsPoly31(init);
      assert s[..|s| - 1] == init;
      var h := Hash(init);
      assert ToInt32(h) == h;
      assert ToInt32(h * 32) == h * 32;
    }
  }

  // ---------------------------------------------------------------------------
  // The palette

  const PaletteSize: nat := 36

  /** `Math.round(BASE_CHROMA * 1.8)` in the dark theme, `BASE_CHROMA` (16) otherwise. */
  function Chroma(isDarkTheme: bool): (r: int)
    ensures r == if isDarkTheme then 29 else 16
  {
    if isDarkTheme then JsRound(16.0 * 1.8) else 16
  }

  /** `Math.round(BASE_LIGHTNESS / 2.5)` in the dark theme, `BASE_LIGHTNESS` (87) otherwise. */
  function Lightness(isDarkTheme: bool): (r: int)
    ensures r == if isDarkTheme then 35 else 87
  {
    if isDarkTheme then JsRound(87.0 / 2.5) else 87
  }

  /** `generateColorPalette`: entry `i` is the LCH colour at hue `i * (360 / 36)`. */
  function ColorPalette(ops: Ops, isDarkTheme: bool): (r: seq<string>)
    ensures |r| == PaletteSize
    ensures forall i :: 0 <= i < PaletteSize ==> r[i] == PaletteEntry(ops, isDarkTheme, i)
  {
    seq(PaletteSize, i requires 0 <= i < PaletteSize => PaletteEntry(ops, isDarkTheme, i))
  }

  function PaletteEntry(ops: Ops, isDarkTheme: bool, i: nat): string {
    ops.show(Lch(Lightness(isDarkTheme) as real, Chroma(isDarkTheme) as real, i as real * (360.0 / 36.0)))
  }

  /** The loop of `generateColorPalette`. */
  method GenerateColorPalette(ops: Ops, isDarkTheme: bool) returns (colorPalette: seq<string>)
    ensures colorPalette == ColorPalette(ops, isDarkTheme)
  {
    var hueIncrement := 360.0 / 36.0;
    colorPalette := [];
    var i := 0;
    while i < PaletteSize
      invariant i <= PaletteSize
      invariant |colorPalette| == i
      invariant forall k :: 0 <= k < i ==> colorPalette[k] == PaletteEntry(ops, isDarkTheme, k)
    {
      var hue := i as real * hueIncrement;
      var chroma := 16;
      var lightness := 87;
      if isDarkTheme {
        chroma := JsRound(16.0 * 1.8);
        lightness := JsRound(87.0 / 2.5);
      }
      assert chroma == Chroma(isDarkTheme) && lightness == Lightness(isDarkTheme);
      colorPalette := colorPalette + [ops.show(Lch(lightness as real, chroma as real, hue))];
      i := i + 1;
    }
    assert colorPalette == ColorPalette(ops, isDarkTheme);
  }

  /** 36 colours, 10 degrees of hue apart; dark theme lightness 35 and chroma 29, light theme 87 and 16. */
  lemma PaletteEntries(ops: Ops, isDarkTheme: bool, i: nat)
    requires i < PaletteSize
    ensures isDarkTheme ==> ColorPalette(ops, isDarkTheme)[i] == ops.show(Lch(35.0, 29.0, 10.0 * i as real))
    ensures !isDarkTheme ==> ColorPalette(ops, isDarkTheme)[i] == ops.show(Lch(87.0, 16.0, 10.0 * i as real))
  {
  }

  /** `Math.abs(hashCode) % colorPalette.length`. */
  function PaletteIndex(s: string): (r: nat)
    ensures r < PaletteSize
  {
    (if Hash(s) < 0 then -Hash(s) else Hash(s)) % PaletteSize
  }

  /** `generateUniqueColor`: the palette entry the hash selects. */
  method GenerateUniqueColor(ops: Ops, s: string, isDarkTheme: bool) returns (selectedColor: string)
    ensures selectedColor == ColorPalette(ops, isDarkTheme)[PaletteIndex(s)]
  {
    var colorPalette := GenerateColorPalette(ops, isDarkTheme);
    var hashCode := HashCode(s);
    var index := (if hashCode < 0 then -hashCode else hashCode) % |colorPalette|;
    selectedColor := colorPalette[index];
  }

  /** A tag's colour depends on its text and the theme alone, and is the palette entry at hue `10 * index`. */
  lemma UniqueColorOf(ops: Ops, s: string, isDarkTheme: bool)
    ensures var index := PaletteIndex(s);
            ColorPalette(ops, isDarkTheme)[index] ==
              ops.show(Lch(Lightness(isDarkTheme) as real, Chroma(isDarkTheme) as real, 10.0 * index as real))
  {
  }

  // ---------------------------------------------------------------------------
  // Text colour

  /** The light candidate reads well: APCA at least 60 and a WCAG 2.1 ratio strictly above `contrast`. */
  predicate LightReadable(ops: Ops, base: Lch, light: Lch, contrast: real) {
    ops.apca(light, base) >= 60.0 && ops.wcag(light, base) > contrast
  }

  /** The dark candidate reads well: APCA at most -60 and a WCAG 2.1 ratio strictly above `contrast`. */
  predicate DarkReadable(ops: Ops, base: Lch, dark: Lch, contrast: real) {
    ops.apca(dark, base) <= -60.0 && ops.wcag(dark, base) > contrast
  }

  /** Step `k` of the search: the light candidate is tried first, `k` steps brighter / darker. */
  function SearchStep(ops: Ops, base: Lch, light: Lch, dark: Lch, contrast: real, k: nat): Option<string> {
    if LightReadable(ops, base, light.(l := light.l + k as real), contrast) then Some(ops.show(light.(l := light.l + k as real)))
    else if DarkReadable(ops, base, dark.(l := dark.l - k as real), contrast) then Some(ops.show(dark.(l := dark.l - k as real)))
    else None
  }

  /** The search over `steps` further steps. */
  function Search(ops: Ops, base: Lch, light: Lch, dark: Lch, contrast: real, steps: nat): Option<string>
    decreases steps
  {
    if steps == 0 then None
    else if LightReadable(ops, base, light, contrast) then Some(ops.show(light))
    else if DarkReadable(ops, base, dark, contrast) then Some(ops.show(dark))
    else Search(ops, base, light.(l := light.l + 1.0), dark.(l := dark.l - 1.0), contrast, steps - 1)
  }

  /** The first light candidate: chroma raised by 3, and never below 0. */
  function FirstLight(base: Lch): Lch {
    base.(c := MaxReal(base.c + 3.0, 0.0))
  }

  /** The first dark candidate: chroma raised by 20, and never below 0. */
  function FirstDark(base: Lch): Lch {
    base.(c := MaxReal(base.c + 20.0, 0.0))
  }

  /** `darkenColorForContrast`: chroma raised by 3 (light) and 20 (dark), 100 steps, `"#f00"` if none reads well. */
  function DarkenForContrast(ops: Ops, baseColor: string, contrast: real): string {
    var base := ops.parse(baseColor);
    match Search(ops, base, FirstLight(base), FirstDark(base), contrast, 100)
    case Some(s) => s
    case None => "#f00"
  }

  /** The loop of `darkenColorForContrast`. */
  method DarkenColorForContrast(ops: Ops, baseColor: string, contrast: real) returns (r: string)
    ensures r == DarkenForContrast(ops, baseColor, contrast)
  {
    var base := ops.parse(baseColor);
    var colorLight := ops.parse(baseColor);
    var colorDark := ops.parse(baseColor);
    colorLight := colorLight.(c := MaxReal(colorLight.c + 3.0, 0.0));
    colorDark := colorDark.(c := MaxReal(colorDark.c + 20.0, 0.0));
    assert colorLight == FirstLight(base) && colorDark == FirstDark(base);
    ghost var search := Search(ops, base, colorLight, colorDark, contrast, 100);
    var i := 0;
    while i < 100
      invariant i <= 100
      invariant Search(ops, base, colorLight, colorDark, contrast, 100 - i) == search
    {
      if LightReadable(ops, base, colorLight, contrast) {
        return ops.show(colorLight);
      }
      if DarkReadable(ops, base, colorDark, contrast) {
        return ops.show(colorDark);
      }
      colorLight := colorLight.(l := colorLight.l + 1.0);
      colorDark := colorDark.(l := colorDark.l - 1.0);
      i := i + 1;
    }
    return "#f00";
  }

  /** Step `k + 1` from one candidate pair is step `k` from the pair one step on. */
  lemma SearchStepShift(ops: Ops, base: Lch, light: Lch, dark: Lch, contrast: real, k: nat)
    ensures SearchStep(ops, base, light.(l := light.l + 1.0), dark.(l := dark.l - 1.0), contrast, k) ==
            SearchStep(ops, base, light, dark, contrast, k + 1)
  {
    assert light.(l := light.l + 1.0).(l := light.l + 1.0 + k as real) == light.(l := light.l + (k + 1) as real);
    assert dark.(l := dark.l - 1.0).(l := dark.l - 1.0 - k as real) == dark.(l := dark.l - (k + 1) as real);
  }

  /**
   * The search returns what the first step with a readable candidate yields; the light
   * candidate wins at that step whenever it reads well.
   */
  lemma {:induction false} SearchFirst(ops: Ops, base: Lch, light: Lch, dark: Lch, contrast: real, steps: nat, k: nat)
    requires k < steps
    requires forall j :: 0 <= j < k ==> SearchStep(ops, base, light, dark, contrast, j).None?
    requires SearchStep(ops, base, light, dark, contrast, k).Some?
    ensures Search(ops, base, light, dark, contrast, steps) == SearchStep(ops, base, light, dark, contrast, k)
    decreases k
  {
    assert light.(l := light.l + 0 as real) == light && dark.(l := dark.l - 0 as real) == dark;
    if k > 0 {
      assert SearchStep(ops, base, light, dark, contrast, 0).None?;
      var light', dark' := light.(l := light.l + 1.0), dark.(l := dark.l - 1.0);
      forall j | 0 <= j < k - 1
        ensures SearchStep(ops, base, light', dark', contrast, j).None?
      {
        SearchStepShift(ops, base, light, dark, contrast, j);
      }
      SearchStepShift(ops, base, light, dark, contrast, k - 1);
      SearchFirst(ops, base, light', dark', contrast, steps - 1, k - 1);
    }
  }

  /** With no readable candidate in any step the search finds nothing. */
  lemma {:induction false} SearchNone(ops: Ops, base: Lch, light: Lch, dark: Lch, contrast: real, steps: nat)
    requires forall j :: 0 <= j < steps ==> SearchStep(ops, base, light, dark, contrast, j).None?
    ensures Search(ops, base, light, dark, contrast, steps).None?
    decreases steps
  {
    if steps > 0 {
      assert light.(l := light.l + 0 as real) == light && dark.(l := dark.l - 0 as real) == dark;
      assert SearchStep(ops, base, light, dark, contrast, 0).None?;
      var light', dark' := light.(l := light.l + 1.0), dark.(l := dark.l - 1.0);
      forall j | 0 <= j < steps - 1
        ensures SearchStep(ops, base, light', dark', contrast, j).None?
      {
        SearchStepShift(ops, base, light, dark, contrast, j);
      }
      SearchNone(ops, base, light', dark', contrast, steps - 1);
    }
  }

  /** Nothing readable within 100 steps: the text colour is `"#f00"`. */
  lemma DarkenFallback(ops: Ops, baseColor: string, contrast: real)
    requires forall j :: 0 <= j < 100 ==>
               SearchStep(ops, ops.parse(baseColor), FirstLight(ops.parse(baseColor)), FirstDark(ops.parse(baseColor)), contrast, j).None?
    ensures DarkenForContrast(ops, baseColor, contrast) == "#f00"
  {
    var base := ops.parse(baseColor);
    SearchNone(ops, base, FirstLight(base), FirstDark(base), contrast, 100);
  }
}
