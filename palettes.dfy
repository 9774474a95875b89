/**
 * Palette construction: the custom hex list, the two adaptive palettes, the
 * "jump by a third of what is left" shuffle and the seed rotation. These are the
 * specifications the palette methods of `ColorService` are proved against.
 */
module Palettes {
  import opened Seqs
  import opened Strings
  import opened ColorMath

  datatype PaletteType = AdaptiveSoft | AdaptiveBright | Custom

  /** The `palette` block of the settings. */
  datatype PaletteConfig = PaletteConfig(selected: PaletteType, custom: string, seed: int)

  /** A light and a dark palette of colour strings. */
  datatype ThemePalettes = ThemePalettes(light: seq<string>, dark: seq<string>)

  /** `ColorGeneratorConfig`. */
  datatype GeneratorConfig = GeneratorConfig(
    isDarkTheme: bool,
    paletteSize: int,
    baseChroma: real,
    baseLightness: real,
    seed: int,
    isShuffling: bool,
    constantOffset: real)

  // ---------------------------------------------------------------------------
  // `Array.prototype.splice` and the seed rotation

  /** Where `splice(start, …)` starts: a negative start counts from the end; both are clamped. */
  function SpliceStart(start: int, len: nat): (k: nat)
    ensures k <= len
    ensures 0 <= start <= len ==> k == start
    ensures start < 0 && len + start >= 0 ==> k == len + start
  {
    if start < 0 then (if len + start < 0 then 0 else len + start)
    else if start > len then len
    else start
  }

  /** `s.splice(start, deleteCount)`: the array left behind and the removed items. */
  function Spliced<T>(s: seq<T>, start: int, deleteCount: int): (r: (seq<T>, seq<T>))
    ensures |r.0| + |r.1| == |s|
    ensures multiset(r.0) + multiset(r.1) == multiset(s)
  {
    var k := SpliceStart(start, |s|);
    var d := if deleteCount < 0 then 0 else if deleteCount > |s| - k then |s| - k else deleteCount;
    assert s == s[..k] + s[k..k + d] + s[k + d..];
    (s[..k] + s[k + d..], s[k..k + d])
  }

  /**
   * `rotatePalette`: `cut = result.splice(-seed, seed)` then `result.splice(0, 0, ...cut)`.
   * A seed in `[0, n]` moves the last `seed` colours to the front; any other seed leaves
   * the palette as it is.
   */
  function RotatePalette<T>(colors: seq<T>, seed: int): (r: seq<T>)
    ensures |r| == |colors| && multiset(r) == multiset(colors)
    ensures 0 <= seed <= |colors| ==> r == colors[|colors| - seed..] + colors[..|colors| - seed]
    ensures seed < 0 || seed > |colors| ==> r == colors
  {
    var parts := Spliced(colors, -seed, seed);
    SplicedTail(colors, seed);
    parts.1 + parts.0
  }

  /** `splice(-seed, seed)` cuts off the last `seed` colours, or all or none of them out of range. */
  lemma SplicedTail<T>(colors: seq<T>, seed: int)
    ensures var n := |colors|; var parts := Spliced(colors, -seed, seed);
            && (0 <= seed <= n ==> parts.1 == colors[n - seed..] && parts.0 == colors[..n - seed])
            && (seed < 0 ==> parts == (colors, []))
            && (seed > n ==> parts == ([], colors))
  {
    var n := |colors|;
    var parts := Spliced(colors, -seed, seed);
    if seed == 0 {
      assert parts == (colors[..0] + colors[0..], colors[0..0]);
      assert colors[..0] + colors[0..] == colors;
    } else if 0 < seed <= n {
      assert parts == (colors[..n - seed] + colors[n..], colors[n - seed..n]);
      assert colors[..n - seed] + colors[n..] == colors[..n - seed];
    } else if seed < 0 {
      var k := SpliceStart(-seed, n);
      assert parts == (colors[..k] + colors[k..], colors[k..k]);
      assert colors[..k] + colors[k..] == colors;
    } else {
      assert parts == (colors[..0] + colors[n..], colors[0..n]);
      assert colors[..0] + colors[n..] == [] && colors[0..n] == colors;
    }
  }

  /** Rotating by `seed` and then by `n - seed` gives the palette back. */
  lemma RotateInverse<T>(colors: seq<T>, seed: int)
    requires 0 <= seed <= |colors|
    ensures RotatePalette(RotatePalette(colors, seed), |colors| - seed) == colors
  {
    var n := |colors|;
    var front, back := colors[n - seed..], colors[..n - seed];
    assert back + front == colors;
    RotateSwaps(front, back);
  }

  /** Rotating `front + back` by `|back|` swaps the two parts. */
  lemma RotateSwaps<T>(front: seq<T>, back: seq<T>)
    ensures RotatePalette(front + back, |back|) == back + front
  {
    var s := front + back;
    assert s[|s| - |back|..] == back && s[..|s| - |back|] == front;
  }

  // ---------------------------------------------------------------------------
  // The shuffle

  function RemoveAt<T>(s: seq<T>, i: nat): (r: seq<T>)
    requires i < |s|
    ensures |r| == |s| - 1
  {
    s[..i] + s[i + 1..]
  }

  /**
   * `Math.round(next + len / 3) % len`, the next position once `len` colours are left,
   * in integers (see `ColorMath.RoundThird`).
   */
  function NextPosition(next: nat, len: nat): (r: nat)
    requires len > 0
    ensures r < len
  {
    (next + (len + 1) / 3) % len
  }

  /**
   * The shuffle loop: take the colour at `next`, remove it, jump ahead by a third of
   * what is left. `next` always indexes the remaining colours.
   */
  function Shuffled<T>(available: seq<T>, next: nat): (r: seq<T>)
    requires next < |available| || |available| == 0
    ensures |r| == |available|
    decreases |available|
  {
    if |available| == 0 then []
    else
      var rest := RemoveAt(available, next);
      var n := if |rest| == 0 then 0 else NextPosition(next, |rest|);
      [available[next]] + Shuffled(rest, n)
  }

  /** The shuffle emits every colour exactly as often as it is available. */
  lemma {:induction false} ShuffledIsPermutation<T>(available: seq<T>, next: nat)
    requires next < |available| || |available| == 0
    ensures multiset(Shuffled(available, next)) == multiset(available)
    decreases |available|
  {
    if |available| > 0 {
      var rest := RemoveAt(available, next);
      var n := if |rest| == 0 then 0 else NextPosition(next, |rest|);
      ShuffledIsPermutation(rest, n);
      TakeOnePermutation(available, next, Shuffled(rest, n));
    }
  }

  /** Taking the colour at `i` first and then a permutation of the others is a permutation. */
  lemma TakeOnePermutation<T>(a: seq<T>, i: nat, tail: seq<T>)
    requires i < |a| && multiset(tail) == multiset(RemoveAt(a, i))
    ensures multiset([a[i]] + tail) == multiset(a)
  {
    assert a == a[..i] + [a[i]] + a[i + 1..];
  }

  /** Eight colours come out in the order 0, 3, 6, 2, 5, 1, 7, 4 of the generated ones. */
  lemma ShuffleEight<T>(s: seq<T>)
    requires |s| == 8
    ensures Shuffled(s, 0) == [s[0], s[3], s[6], s[2], s[5], s[1], s[7], s[4]]
  {
    var rest := [s[1], s[2], s[3], s[4], s[5], s[6], s[7]];
    RemoveAtPointwise(s, 0, rest);
    ShuffleStep(s, 0, rest, 2);
    ShuffleSeven(rest);
  }

  /** The shuffle of 7 remaining colours from position 2. */
  lemma ShuffleSeven<T>(s: seq<T>)
    requires |s| == 7
    ensures Shuffled(s, 2) == [s[2], s[5], s[1], s[4], s[0], s[6], s[3]]
  {
    var rest := [s[0], s[1], s[3], s[4], s[5], s[6]];
    RemoveAtPointwise(s, 2, rest);
    ShuffleStep(s, 2, rest, 4);
    ShuffleSix(rest);
  }

  /** The shuffle of 6 remaining colours from position 4. */
  lemma ShuffleSix<T>(s: seq<T>)
    requires |s| == 6
    ensures Shuffled(s, 4) == [s[4], s[1], s[3], s[0], s[5], s[2]]
  {
    var rest := [s[0], s[1], s[2], s[3], s[5]];
    RemoveAtPointwise(s, 4, rest);
    ShuffleStep(s, 4, rest, 1);
    ShuffleFive(rest);
  }

  /** The shuffle of 5 remaining colours from position 1. */
  lemma ShuffleFive<T>(s: seq<T>)
    requires |s| == 5
    ensures Shuffled(s, 1) == [s[1], s[3], s[0], s[4], s[2]]
  {
    var rest := [s[0], s[2], s[3], s[4]];
    RemoveAtPointwise(s, 1, rest);
    ShuffleStep(s, 1, rest, 2);
    ShuffleFour(rest);
  }

  /** The shuffle of 4 remaining colours from position 2. */
  lemma ShuffleFour<T>(s: seq<T>)
    requires |s| == 4
    ensures Shuffled(s, 2) == [s[2], s[0], s[3], s[1]]
  {
    var rest := [s[0], s[1], s[3]];
    RemoveAtPointwise(s, 2, rest);
    ShuffleStep(s, 2, rest, 0);
    ShuffleThree(rest);
  }

  /** The shuffle of 3 remaining colours from position 0. */
  lemma ShuffleThree<T>(s: seq<T>)
    requires |s| == 3
    ensures Shuffled(s, 0) == [s[0], s[2], s[1]]
  {
    var rest := [s[1], s[2]];
    RemoveAtPointwise(s, 0, rest);
    ShuffleStep(s, 0, rest, 1);
    ShuffleTwo(rest);
  }

  /** The shuffle of 2 remaining colours from position 1. */
  lemma ShuffleTwo<T>(s: seq<T>)
    requires |s| == 2
    ensures Shuffled(s, 1) == [s[1], s[0]]
  {
    var rest := [s[0]];
    RemoveAtPointwise(s, 1, rest);
    ShuffleStep(s, 1, rest, 0);
    ShuffleStep(rest, 0, [], 0);
  }

  /** `splice(i, 1)` removes exactly position `i`. */
  lemma SpliceOne<T>(s: seq<T>, i: nat)
    requires i < |s|
    ensures Spliced(s, i, 1).0 == RemoveAt(s, i)
  {
  }

  /** `Math.round(next + len / 3) % len` is `NextPosition(next, len)`. */
  lemma JumpIsNextPosition(next: nat, len: nat)
    requires len > 0
    ensures JsRound(next as real + len as real / 3.0) % len == NextPosition(next, len)
  {
    RoundThird(next, len);
  }

  /** The position the loop jumps to, in the source's own arithmetic, is `NextPosition`. */
  lemma JumpTo(next: nat, len: nat, jump: int)
    requires len > 0 && jump == JsRound(next as real + len as real / 3.0) % len
    ensures jump == NextPosition(next, len)
  {
    JumpIsNextPosition(next, len);
  }

  /** One turn of the shuffle, once the remaining colours are known. */
  lemma ShuffleStep<T>(a: seq<T>, next: nat, rest: seq<T>, n: nat)
    requires next < |a| && RemoveAt(a, next) == rest
    requires n < |rest| || |rest| == 0
    requires |rest| > 0 ==> n == NextPosition(next, |rest|)
    ensures Shuffled(a, next) == [a[next]] + Shuffled(rest, n)
  {
  }

  /** One turn of the shuffle loop keeps `result + Shuffled(available, next)` fixed. */
  lemma ShuffleLoopStep<T>(whole: seq<T>, result: seq<T>, available: seq<T>, next: nat)
    requires next < |available| && result + Shuffled(available, next) == whole
    ensures var rest := RemoveAt(available, next);
            var n := if |rest| == 0 then 0 else NextPosition(next, |rest|);
            (result + [available[next]]) + Shuffled(rest, n) == whole
  {
  }

  /**
   * One turn of the shuffle loop as the source writes it: splice out the colour at `next`,
   * then jump to `NextPosition` (see `JumpTo` for the source's own arithmetic).
   */
  lemma ShuffleTurn<T>(whole: seq<T>, result: seq<T>, available: seq<T>, next: nat,
                       result': seq<T>, available': seq<T>, next': nat)
    requires next < |available| && result + Shuffled(available, next) == whole
    requires result' == result + [available[next]] && available' == Spliced(available, next, 1).0
    requires next' == if |available'| == 0 then next else NextPosition(next, |available'|)
    ensures (next' < |available'| || |available'| == 0) && result' + Shuffled(available', next') == whole
  {
    var rest := RemoveAt(available, next);
    var n := if |rest| == 0 then 0 else NextPosition(next, |rest|);
    assert available' == rest by { SpliceOne(available, next); }
    assert Shuffled(available', next') == Shuffled(rest, n);
    ShuffleLoopStep(whole, result, available, next);
  }

  /** `rest` is `a` without position `i`, checked element by element. */
  lemma RemoveAtPointwise<T>(a: seq<T>, i: nat, rest: seq<T>)
    requires i < |a| && |rest| == |a| - 1
    requires forall k :: 0 <= k < i ==> rest[k] == a[k]
    requires forall k {:trigger rest[k]} :: i <= k < |rest| ==> rest[k] == a[k + 1]
    ensures RemoveAt(a, i) == rest
  {
    var r := RemoveAt(a, i);
    forall k | 0 <= k < |rest|
      ensures r[k] == rest[k]
    {
      if k < i {
        assert r[k] == a[..i][k];
      } else {
        assert r[k] == a[i + 1..][k - i];
      }
    }
  }

  // ---------------------------------------------------------------------------
  // Adaptive palettes

  /** Chroma of every base colour: `min(round(c * 1.8), 100)` in the dark theme. */
  function ThemeChroma(config: GeneratorConfig): real {
    if config.isDarkTheme then MinInt(JsRound(config.baseChroma * 1.8), 100) as real
    else config.baseChroma
  }

  /** Lightness of every base colour: `min(round(l / 2.5), 100)` in the dark theme. */
  function ThemeLightness(config: GeneratorConfig): real {
    if config.isDarkTheme then MinInt(JsRound(config.baseLightness / 2.5), 100) as real
    else config.baseLightness
  }

  /** Base colour `i`: hue `(i * 360 / size + offset) % 360`. */
  function BaseColor(config: GeneratorConfig, i: nat): Lch
    requires config.paletteSize > 0
  {
    Lch(ThemeLightness(config), ThemeChroma(config), HueRem(Hue(config, i)))
  }

  /** `i * hueIncrement + constantOffset`, before the `% 360`. */
  function Hue(config: GeneratorConfig, i: nat): real
    requires config.paletteSize > 0
  {
    i as real * (360.0 / config.paletteSize as real) + config.constantOffset
  }

  /** The colours the generation loop pushes, in order. */
  function BaseColors(ops: Ops, config: GeneratorConfig): (r: seq<string>)
    ensures |r| == if config.paletteSize > 0 then config.paletteSize else 0
  {
    if config.paletteSize <= 0 then []
    else seq(config.paletteSize, i requires 0 <= i < config.paletteSize => ops.show(BaseColor(config, i)))
  }

  /** Base colour `i` is the `i`-th colour generated. */
  lemma BaseColorsAt(ops: Ops, config: GeneratorConfig, i: nat)
    requires i < |BaseColors(ops, config)|
    ensures BaseColors(ops, config)[i] == ops.show(BaseColor(config, i))
  {
  }

  /** `generateAdaptiveColorPalette`. */
  function AdaptivePalette(ops: Ops, config: GeneratorConfig): seq<string> {
    var base := BaseColors(ops, config);
    if !config.isShuffling then base else RotatePalette(Shuffled(base, 0), config.seed)
  }

  /** Without shuffling the base colours come back as generated and the seed plays no part. */
  lemma UnshuffledIgnoresSeed(ops: Ops, config: GeneratorConfig, seed: int)
    requires !config.isShuffling
    ensures AdaptivePalette(ops, config) == BaseColors(ops, config)
    ensures AdaptivePalette(ops, config.(seed := seed)) == AdaptivePalette(ops, config)
  {
    BaseColorsIgnoreSeed(ops, config, seed);
  }

  lemma BaseColorsIgnoreSeed(ops: Ops, config: GeneratorConfig, seed: int)
    ensures BaseColors(ops, config.(seed := seed)) == BaseColors(ops, config)
  {
    var a, b := BaseColors(ops, config.(seed := seed)), BaseColors(ops, config);
    assert |a| == |b|;
    forall i | 0 <= i < |a|
      ensures a[i] == b[i]
    {
      BaseColorsAt(ops, config, i);
      BaseColorsAt(ops, config.(seed := seed), i);
      BaseColorIgnoresSeed(config, seed, i);
    }
  }

  lemma BaseColorIgnoresSeed(config: GeneratorConfig, seed: int, i: nat)
    requires config.paletteSize > 0
    ensures BaseColor(config.(seed := seed), i) == BaseColor(config, i)
  {
    var c := config.(seed := seed);
    assert Hue(c, i) == Hue(config, i);
    assert ThemeChroma(c) == ThemeChroma(config);
    assert ThemeLightness(c) == ThemeLightness(config);
  }

  /** A shuffled adaptive palette holds every base colour exactly as often as it was generated. */
  lemma AdaptiveIsPermutation(ops: Ops, config: GeneratorConfig)
    ensures multiset(AdaptivePalette(ops, config)) == multiset(BaseColors(ops, config))
    ensures |AdaptivePalette(ops, config)| == |BaseColors(ops, config)|
  {
    ShuffledIsPermutation(BaseColors(ops, config), 0);
  }

  /** A seed in `[0, size]` rotates the seed-0 palette by that many places. */
  lemma SeedRotates(ops: Ops, config: GeneratorConfig)
    requires config.isShuffling && config.paletteSize > 0
    requires 0 <= config.seed <= config.paletteSize
    ensures var p0 := AdaptivePalette(ops, config.(seed := 0));
            var n := |p0|;
            AdaptivePalette(ops, config) == p0[n - config.seed..] + p0[..n - config.seed]
  {
    AdaptiveShuffledForm(ops, config);
    RotateFromZero(Shuffled(BaseColors(ops, config), 0), config.seed,
      AdaptivePalette(ops, config.(seed := 0)), AdaptivePalette(ops, config));
  }

  /** With shuffling on, the palette for any seed is the seed-0 shuffle rotated by that seed. */
  lemma AdaptiveShuffledForm(ops: Ops, config: GeneratorConfig)
    requires config.isShuffling
    ensures AdaptivePalette(ops, config) == RotatePalette(Shuffled(BaseColors(ops, config), 0), config.seed)
    ensures AdaptivePalette(ops, config.(seed := 0)) == RotatePalette(Shuffled(BaseColors(ops, config), 0), 0)
  {
    BaseColorsIgnoreSeed(ops, config, 0);
  }

  /** Rotating by `seed` is rotating the seed-0 result by `seed`. */
  lemma RotateFromZero<T>(colors: seq<T>, seed: int, p0: seq<T>, p: seq<T>)
    requires 0 <= seed <= |colors|
    requires p0 == RotatePalette(colors, 0) && p == RotatePalette(colors, seed)
    ensures p == p0[|p0| - seed..] + p0[..|p0| - seed]
  {
    var n := |colors|;
    assert colors[n..] + colors[..n] == colors;
  }

  /** The dark-theme parameters of the two adaptive palettes. */
  lemma DarkThemeParameters(seed: int, shuffling: bool)
    ensures var soft := GeneratorConfig(true, 8, 16.0, 87.0, seed, shuffling, 35.0);
            ThemeChroma(soft) == 29.0 && ThemeLightness(soft) == 35.0
    ensures var bright := GeneratorConfig(true, 8, 85.0, 75.0, seed, shuffling, 35.0);
            ThemeChroma(bright) == 100.0 && ThemeLightness(bright) == 30.0
    ensures var light := GeneratorConfig(false, 8, 16.0, 87.0, seed, shuffling, 35.0);
            ThemeChroma(light) == 16.0 && ThemeLightness(light) == 87.0
  {
  }

  /** With eight colours and offset 35 the hues are 35, 80, …, 350: no wrap-around. */
  lemma EightHues(config: GeneratorConfig, i: nat)
    requires config.paletteSize == 8 && config.constantOffset == 35.0 && i < 8
    ensures BaseColor(config, i).h == 45.0 * i as real + 35.0
  {
  }

  // ---------------------------------------------------------------------------
  // Custom palettes and `generatePalettes`

  predicate NonEmptyPart(s: string) {
    s != ""
  }

  /** `custom.split("-").filter(Boolean)`. */
  function CustomParts(custom: string): (r: seq<string>)
    ensures forall i :: 0 <= i < |r| ==> r[i] != "" && '-' !in r[i]
  {
    var parts := Split(custom, '-');
    var r := Filter(parts, NonEmptyPart);
    assert forall i :: 0 <= i < |r| ==> r[i] in parts;
    r
  }

  /** `… .map((str) => "#" + str)`. */
  function CustomColors(custom: string): (r: seq<string>)
    ensures |r| == |CustomParts(custom)|
    ensures forall i :: 0 <= i < |r| ==> r[i] == "#" + CustomParts(custom)[i]
  {
    var parts := CustomParts(custom);
    seq(|parts|, i requires 0 <= i < |parts| => "#" + parts[i])
  }

  /** A hex list without empty pieces is recovered by joining its pieces with `-`. */
  lemma CustomPartsRoundTrip(custom: string)
    requires forall i :: 0 <= i < |Split(custom, '-')| ==> Split(custom, '-')[i] != ""
    ensures Join(CustomParts(custom), "-") == custom
  {
    FilterAll(Split(custom, '-'), NonEmptyPart);
    JoinSplit(custom, '-');
  }

  /** `processColorPalette`: every colour re-printed in LCH, then rotated. The theme is not used. */
  function ProcessColorPalette(ops: Ops, palette: seq<string>, seed: int): (r: seq<string>)
    ensures |r| == |palette|
  {
    var lch := seq(|palette|, i requires 0 <= i < |palette| => ops.show(ops.parse(palette[i])));
    RotatePalette(lch, seed)
  }

  /** The adaptive generator settings `generatePalettes` uses for one theme. */
  function AdaptiveConfig(config: PaletteConfig, isDarkTheme: bool): GeneratorConfig {
    var isBright := config.selected == AdaptiveBright;
    GeneratorConfig(isDarkTheme, 8, if isBright then 85.0 else 16.0, if isBright then 75.0 else 87.0,
                    config.seed, true, 35.0)
  }

  /** `generatePalettes`. */
  function GeneratedPalettes(ops: Ops, config: PaletteConfig): ThemePalettes {
    var custom := CustomColors(config.custom);
    if config.selected == Custom && |custom| > 0 then
      ThemePalettes(ProcessColorPalette(ops, custom, config.seed), ProcessColorPalette(ops, custom, config.seed))
    else
      ThemePalettes(AdaptivePalette(ops, AdaptiveConfig(config, false)),
                    AdaptivePalette(ops, AdaptiveConfig(config, true)))
  }

  /** A usable custom list gives the same palette for both themes, one entry per hex piece. */
  lemma CustomPalettes(ops: Ops, config: PaletteConfig)
    requires config.selected == Custom && CustomParts(config.custom) != []
    ensures var p := GeneratedPalettes(ops, config);
            p.light == p.dark && |p.light| == |CustomParts(config.custom)|
  {
  }

  /** Adaptive selections, and a custom selection with no usable piece, give two eight-colour palettes. */
  lemma AdaptivePalettes(ops: Ops, config: PaletteConfig)
    requires config.selected != Custom || CustomParts(config.custom) == []
    ensures var p := GeneratedPalettes(ops, config);
            |p.light| == 8 && |p.dark| == 8
    ensures var p := GeneratedPalettes(ops, config);
            multiset(p.light) == multiset(BaseColors(ops, AdaptiveConfig(config, false))) &&
            multiset(p.dark) == multiset(BaseColors(ops, AdaptiveConfig(config, true)))
  {
    AdaptiveIsPermutation(ops, AdaptiveConfig(config, false));
    AdaptiveIsPermutation(ops, AdaptiveConfig(config, true));
  }

  /** The soft and bright adaptive palettes use chroma 16 / lightness 87 and 85 / 75, offset 35. */
  lemma AdaptiveParameters(config: PaletteConfig, isDarkTheme: bool)
    ensures var g := AdaptiveConfig(config, isDarkTheme);
            g.paletteSize == 8 && g.constantOffset == 35.0 && g.isShuffling && g.seed == config.seed
    ensures var g := AdaptiveConfig(config, isDarkTheme);
            (config.selected == AdaptiveBright <==> g.baseChroma == 85.0) &&
            (config.selected == AdaptiveBright <==> g.baseLightness == 75.0)
  {
  }
}
