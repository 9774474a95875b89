/**
 * `ColorService`: how a tag path becomes a background, a text colour and a
 * gradient. Colour science is the uninterpreted `Ops` record; what remains is the
 * per-segment palette choice, the gradient geometry, the 100-step contrast search
 * with its memo table and the nearest-colour search.
 */
module ColorResolution {
  import opened Seqs
  import opened Strings
  import opened ColorMath
  import opened TagUtils
  import opened Palettes

  /** What the resolver reads besides the tag: the palette, the sibling orders and the overrides. */
  datatype Resolver = Resolver(palette: seq<string>, tagsMap: map<string, int>, overrides: map<string, int>)

  /** One entry of the linear gradient: `${color} ${start}% max(2em, ${end}%)`. */
  datatype GradientStop = GradientStop(color: string, start: real, end: real)

  /** What `getColors` returns. */
  datatype ColorResult = ColorResult(background: string, color: string, linearGradient: seq<GradientStop>)

  // ---------------------------------------------------------------------------
  // One segment

  /** `composeTagPath`: the parent path, if non-empty, then `/` and the segment. */
  function ComposeTagPath(parentPath: string, chunk: string): string {
    if parentPath != "" then parentPath + "/" + chunk else chunk
  }

  /** `tagsMap.get(key) || 1`: a missing key and a stored 0 both read as 1. */
  function Order(tagsMap: map<string, int>, key: string): (r: int)
    ensures r != 0
    ensures key in tagsMap && tagsMap[key] != 0 ==> r == tagsMap[key]
  {
    if key in tagsMap && tagsMap[key] != 0 then tagsMap[key] else 1
  }

  /** `tagColorOverrides?.get(key)`. */
  function Override(overrides: map<string, int>, key: string): (r: Option<int>)
    ensures r.Some? <==> key in overrides
  {
    if key in overrides then Some(overrides[key]) else None
  }

  /**
   * `getPaletteForChunk`: with no override and more than one colour, the previous
   * segment's colour is left out, unless that would leave nothing.
   */
  function PaletteForChunk(palette: seq<string>, lastColor: string, overrideIndex: Option<int>): (r: seq<string>)
    ensures forall x :: x in r ==> x in palette
    ensures |palette| > 0 ==> |r| > 0
    ensures overrideIndex.Some? || |palette| <= 1 ==> r == palette
    ensures overrideIndex.None? && |palette| > 1 && (exists x :: x in palette && x != lastColor) ==>
              lastColor !in r && forall x :: x in palette && x != lastColor ==> x in r
    ensures (forall x :: x in palette ==> x == lastColor) ==> r == palette
  {
    if overrideIndex.Some? || |palette| <= 1 then palette
    else
      var filtered := Filter(palette, Except(lastColor));
      FilterKeeps(palette, Except(lastColor));
      assert |filtered| > 0 ==> filtered[0] in palette && filtered[0] != lastColor;
      if |filtered| > 0 then filtered else palette
  }

  /** `pickColorFromPalette`: the override, or `order - 1`, taken modulo the palette length. */
  function PickColorFromPalette(palette: seq<string>, order: int, overrideIndex: Option<int>): (r: string)
    requires |palette| > 0
    ensures r in palette
    ensures r == palette[(if overrideIndex.Some? then overrideIndex.value else order - 1) % |palette|]
  {
    var indexSource := if overrideIndex.Some? then overrideIndex.value else order - 1;
    palette[NormalizePaletteIndex(indexSource, |palette|)]
  }

  /** The palette colour chosen for the segment whose cumulative key is `key`. */
  function ChunkColor(cx: Resolver, lastColor: string, key: string): (r: string)
    requires |cx.palette| > 0
    ensures r in cx.palette
  {
    var overrideIndex := Override(cx.overrides, key);
    PickColorFromPalette(PaletteForChunk(cx.palette, lastColor, overrideIndex), Order(cx.tagsMap, key), overrideIndex)
  }

  /** `mixColors`: mix 0.5 (transition) or 0.4 towards the segment colour, 0.1 more if that is too close. */
  function MixColors(ops: Ops, baseColor: Lch, newColor: string, isTransition: bool): Lch
  {
    var level := if isTransition then 0.5 else 0.4;
    var mixed := ops.mix(baseColor, newColor, level);
    if ops.deltaE(mixed, baseColor) < 10.0 then ops.mix(baseColor, newColor, level + 0.1) else mixed
  }

  /** `buildColorForChunk`: mixed with the background once there is one and mixing is on. */
  function BuildColorForChunk(ops: Ops, backgroundColor: Option<Lch>, color: string, isMixing: bool, isTransition: bool): Lch {
    if backgroundColor.Some? && isMixing then MixColors(ops, backgroundColor.value, color, isTransition)
    else ops.parse(color)
  }

  // ---------------------------------------------------------------------------
  // The whole path

  /** The cumulative keys the stop loop visits, starting after `path`. */
  function CumulativeKeys(chunks: seq<string>, path: string): (r: seq<string>)
    ensures |r| == |chunks|
    decreases |chunks|
  {
    if |chunks| == 0 then []
    else
      var key := ComposeTagPath(path, chunks[0]);
      [key] + CumulativeKeys(chunks[1..], key)
  }

  /** The palette colours picked for the keys, each excluding its predecessor's colour. */
  function Picks(cx: Resolver, keys: seq<string>, lastColor: string): (r: seq<string>)
    requires |cx.palette| > 0
    ensures |r| == |keys|
    ensures forall i :: 0 <= i < |r| ==> r[i] in cx.palette
    decreases |keys|
  {
    if |keys| == 0 then []
    else
      var color := ChunkColor(cx, lastColor, keys[0]);
      [color] + Picks(cx, keys[1..], color)
  }

  /**
   * The stop strings: the first segment's colour is never mixed, and every later one is
   * mixed with the FIRST segment's colour, since the background is set only once.
   */
  function StopColors(ops: Ops, picks: seq<string>, isMixing: bool, isTransition: bool): (r: seq<string>)
    ensures |r| == |picks|
    ensures forall i :: 0 <= i < |r| && (i == 0 || !isMixing) ==> r[i] == ops.show(ops.parse(picks[i]))
    ensures forall i :: 0 < i < |r| && isMixing ==>
              r[i] == ops.show(MixColors(ops, ops.parse(picks[0]), picks[i], isTransition))
  {
    seq(|picks|, i requires 0 <= i < |picks| =>
      ops.show(BuildColorForChunk(ops, if i == 0 then None else Some(ops.parse(picks[0])), picks[i], isMixing, isTransition)))
  }

  /** The stops `calculateGradientStops` computes for `chunks`. */
  function GradientStops(ops: Ops, cx: Resolver, chunks: seq<string>, isMixing: bool, isTransition: bool): (r: seq<string>)
    requires |cx.palette| > 0
    ensures |r| == |chunks|
  {
    StopColors(ops, Picks(cx, CumulativeKeys(chunks, ""), ""), isMixing, isTransition)
  }

  /** Key `i` is built from key `i - 1` (or the starting path) and segment `i`. */
  lemma {:induction false} KeysStep(chunks: seq<string>, path: string, i: nat)
    requires i < |chunks|
    ensures CumulativeKeys(chunks, path)[i] ==
            ComposeTagPath(if i == 0 then path else CumulativeKeys(chunks, path)[i - 1], chunks[i])
    decreases i
  {
    var key := ComposeTagPath(path, chunks[0]);
    assert CumulativeKeys(chunks, path) == [key] + CumulativeKeys(chunks[1..], key);
    if i > 0 {
      KeysStep(chunks[1..], key, i - 1);
      assert chunks[1..][i - 1] == chunks[i];
    }
  }

  /** Pick `i` is chosen against pick `i - 1` (or the starting colour). */
  lemma {:induction false} PicksStep(cx: Resolver, keys: seq<string>, lastColor: string, i: nat)
    requires |cx.palette| > 0 && i < |keys|
    ensures Picks(cx, keys, lastColor)[i] ==
            ChunkColor(cx, if i == 0 then lastColor else Picks(cx, keys, lastColor)[i - 1], keys[i])
    decreases i
  {
    var color := ChunkColor(cx, lastColor, keys[0]);
    assert Picks(cx, keys, lastColor) == [color] + Picks(cx, keys[1..], color);
    if i > 0 {
      PicksStep(cx, keys[1..], color, i - 1);
      assert keys[1..][i - 1] == keys[i];
    }
  }

  /**
   * Below a non-empty path every key is the path, `/`, and the segments so far joined
   * with `/`.
   */
  lemma {:induction false} KeysUnderPath(chunks: seq<string>, path: string, i: nat)
    requires path != "" && i < |chunks|
    ensures CumulativeKeys(chunks, path)[i] == path + "/" + Join(chunks[..i + 1], "/")
    decreases i
  {
    var key := ComposeTagPath(path, chunks[0]);
    if i > 0 {
      KeysUnderPath(chunks[1..], key, i - 1);
      assert chunks[1..][..i] == chunks[1..i + 1];
      assert chunks[..i + 1][1..] == chunks[1..i + 1];
    }
  }

  /**
   * When the first segment is non-empty, key `i` is the first `i + 1` segments joined
   * with `/`: each stop is keyed by its cumulative path.
   */
  lemma KeysAreCumulativePaths(chunks: seq<string>, i: nat)
    requires i < |chunks| && chunks[0] != ""
    ensures CumulativeKeys(chunks, "")[i] == Join(chunks[..i + 1], "/")
  {
    if i > 0 {
      var tail := chunks[1..];
      assert CumulativeKeys(chunks, "")[i] == CumulativeKeys(tail, chunks[0])[i - 1];
      KeysUnderPath(tail, chunks[0], i - 1);
      assert tail[..i] == chunks[1..i + 1];
      JoinCons(chunks[..i + 1], "/");
      assert chunks[..i + 1][1..] == chunks[1..i + 1];
    }
  }

  lemma JoinCons(parts: seq<string>, sep: string)
    requires |parts| >= 2
    ensures Join(parts, sep) == parts[0] + sep + Join(parts[1..], sep)
  {
  }

  /**
   * A segment without an override never repeats its predecessor's colour when the
   * palette has more than one entry and some other colour to offer.
   */
  lemma PicksAvoidPrevious(cx: Resolver, keys: seq<string>, i: nat)
    requires |cx.palette| > 1 && 0 < i < |keys|
    requires keys[i] !in cx.overrides
    requires exists x :: x in cx.palette && x != Picks(cx, keys, "")[i - 1]
    ensures Picks(cx, keys, "")[i] != Picks(cx, keys, "")[i - 1]
  {
    PicksStep(cx, keys, "", i);
  }

  /** An overridden segment takes its colour straight from the full palette. */
  lemma PicksUseOverride(cx: Resolver, keys: seq<string>, i: nat)
    requires |cx.palette| > 0 && i < |keys| && keys[i] in cx.overrides
    ensures Picks(cx, keys, "")[i] == cx.palette[cx.overrides[keys[i]] % |cx.palette|]
  {
    PicksStep(cx, keys, "", i);
  }

  /** A segment without an override and without a stored order takes the first candidate. */
  lemma PicksDefaultOrder(cx: Resolver, keys: seq<string>, i: nat)
    requires |cx.palette| > 0 && i < |keys|
    requires keys[i] !in cx.overrides && keys[i] !in cx.tagsMap
    ensures var prev := if i == 0 then "" else Picks(cx, keys, "")[i - 1];
            Picks(cx, keys, "")[i] == PaletteForChunk(cx.palette, prev, None)[0]
  {
    var prev := if i == 0 then "" else Picks(cx, keys, "")[i - 1];
    assert Picks(cx, keys, "")[i] == ChunkColor(cx, prev, keys[i]) by {
      PicksStep(cx, keys, "", i);
    }
    ChunkColorDefault(cx, prev, keys[i]);
  }

  /** Without an override or a stored order the order reads as 1: the first candidate. */
  lemma ChunkColorDefault(cx: Resolver, lastColor: string, key: string)
    requires |cx.palette| > 0 && key !in cx.overrides && key !in cx.tagsMap
    ensures ChunkColor(cx, lastColor, key) == PaletteForChunk(cx.palette, lastColor, None)[0]
  {
    var p := PaletteForChunk(cx.palette, lastColor, None);
    assert Override(cx.overrides, key) == None && Order(cx.tagsMap, key) == 1;
    assert PickColorFromPalette(p, 1, None) == p[0] by {
      assert NormalizePaletteIndex(0, |p|) == 0;
    }
  }

  /** What the stop loop knows after `i` segments: the stops so far and the carried state. */
  predicate StopsLoop(ops: Ops, cx: Resolver, chunks: seq<string>, isMixing: bool, isTransition: bool,
                      i: nat, stops: seq<string>, backgroundColor: Option<Lch>, lastColor: string, currentPath: string)
    requires |cx.palette| > 0
  {
    var keys := CumulativeKeys(chunks, "");
    var picks := Picks(cx, keys, "");
    i <= |chunks| &&
    stops == StopColors(ops, picks, isMixing, isTransition)[..i] &&
    currentPath == (if i == 0 then "" else keys[i - 1]) &&
    lastColor == (if i == 0 then "" else picks[i - 1]) &&
    backgroundColor == (if i == 0 then None else Some(ops.parse(picks[0])))
  }

  /** One turn of the stop loop keeps `StopsLoop`. */
  lemma StopsLoopStep(ops: Ops, cx: Resolver, chunks: seq<string>, isMixing: bool, isTransition: bool,
                      i: nat, stops: seq<string>, backgroundColor: Option<Lch>, lastColor: string, currentPath: string)
    requires |cx.palette| > 0 && i < |chunks|
    requires StopsLoop(ops, cx, chunks, isMixing, isTransition, i, stops, backgroundColor, lastColor, currentPath)
    ensures var key := ComposeTagPath(currentPath, chunks[i]);
            var color := ChunkColor(cx, lastColor, key);
            var newColor := BuildColorForChunk(ops, backgroundColor, color, isMixing, isTransition);
            StopsLoop(ops, cx, chunks, isMixing, isTransition, i + 1, stops + [ops.show(newColor)],
                      if backgroundColor.None? then Some(newColor) else backgroundColor, color, key)
  {
    var keys := CumulativeKeys(chunks, "");
    var picks := Picks(cx, keys, "");
    var all := StopColors(ops, picks, isMixing, isTransition);
    var key := ComposeTagPath(currentPath, chunks[i]);
    var color := ChunkColor(cx, lastColor, key);
    assert keys[i] == key by { KeysStep(chunks, "", i); }
    assert picks[i] == color by { PicksStep(cx, keys, "", i); }
    var newColor := BuildColorForChunk(ops, backgroundColor, color, isMixing, isTransition);
    assert backgroundColor == (if i == 0 then None else Some(ops.parse(picks[0])));
    assert all[i] == ops.show(newColor);
    assert stops + [ops.show(newColor)] == all[..i + 1] by {
      PrefixSnoc(all, i);
    }
  }

  /** The stop loop starts with no stops, no background, no last colour and an empty path. */
  lemma StopsLoopInit(ops: Ops, cx: Resolver, chunks: seq<string>, isMixing: bool, isTransition: bool)
    requires |cx.palette| > 0
    ensures StopsLoop(ops, cx, chunks, isMixing, isTransition, 0, [], None, "", "")
  {
  }

  /** Once every segment is done the loop has built the gradient stops. */
  lemma StopsLoopDone(ops: Ops, cx: Resolver, chunks: seq<string>, isMixing: bool, isTransition: bool,
                      stops: seq<string>, backgroundColor: Option<Lch>, lastColor: string, currentPath: string)
    requires |cx.palette| > 0
    requires StopsLoop(ops, cx, chunks, isMixing, isTransition, |chunks|, stops, backgroundColor, lastColor, currentPath)
    ensures stops == GradientStops(ops, cx, chunks, isMixing, isTransition)
  {
    var all := GradientStops(ops, cx, chunks, isMixing, isTransition);
    assert all[..|chunks|] == all;
  }

  // ---------------------------------------------------------------------------
  // Gradient geometry

  /** The gap between entries: `(50 / n) * 2` with transition, otherwise 0. */
  function Gap(isTransition: bool, n: nat): real
    requires n > 0
  {
    (if isTransition then 50.0 else 0.0) / n as real * 2.0
  }

  /** The width of one entry: what the gaps leave, shared equally. */
  function ElementSize(isTransition: bool, n: nat): real
    requires n > 0
  {
    (100.0 - Gap(isTransition, n) * (n - 1) as real) / n as real
  }

  /** `buildLinearGradient`: entry `i` starts at `i * (size + gap)` and is `size` wide. */
  function BuildLinearGradient(stops: seq<string>, isTransition: bool): (r: seq<GradientStop>)
    ensures |r| == |stops|
    ensures forall i :: 0 <= i < |r| ==> r[i].color == stops[i] && r[i].end - r[i].start == ElementSize(isTransition, |stops|)
    ensures |r| > 0 ==> r[0].start == 0.0
  {
    if |stops| == 0 then []
    else
      var n := |stops|;
      var gap := Gap(isTransition, n);
      var size := ElementSize(isTransition, n);
      seq(n, i requires 0 <= i < n => GradientStop(stops[i], i as real * (size + gap), i as real * (size + gap) + size))
  }

  /** The sizes and the gaps together fill exactly 100%. */
  lemma SizesFill(isTransition: bool, n: nat)
    requires n > 0
    ensures n as real * ElementSize(isTransition, n) + (n - 1) as real * Gap(isTransition, n) == 100.0
  {
    var g := Gap(isTransition, n);
    var x := 100.0 - g * (n - 1) as real;
    assert ElementSize(isTransition, n) * n as real == x;
  }

  /** In both modes the last entry ends at 100%. */
  lemma GradientEndsAtHundred(stops: seq<string>, isTransition: bool)
    requires |stops| > 0
    ensures BuildLinearGradient(stops, isTransition)[|stops| - 1].end == 100.0
  {
    var n := |stops|;
    var s, g := ElementSize(isTransition, n), Gap(isTransition, n);
    SizesFill(isTransition, n);
    assert (n - 1) as real * (s + g) + s == n as real * s + (n - 1) as real * g;
  }

  /** Without transition each entry ends where the next one starts. */
  lemma GradientContiguous(stops: seq<string>, i: nat)
    requires i + 1 < |stops|
    ensures BuildLinearGradient(stops, false)[i].end == BuildLinearGradient(stops, false)[i + 1].start
  {
    var n := |stops|;
    assert Gap(false, n) == 0.0;
    var s := ElementSize(false, n);
    assert (i + 1) as real * s == i as real * s + s;
  }

  /** With transition consecutive entries are `100 / n` apart. */
  lemma GradientGaps(stops: seq<string>, i: nat)
    requires i + 1 < |stops|
    ensures BuildLinearGradient(stops, true)[i + 1].start - BuildLinearGradient(stops, true)[i].end == 100.0 / |stops| as real
  {
    var n := |stops|;
    var s, g := ElementSize(true, n), Gap(true, n);
    assert g == 100.0 / n as real;
    assert (i + 1) as real * (s + g) - (i as real * (s + g) + s) == g;
  }

  /** A single stop spans 0% to 100% in both modes. */
  lemma GradientSingleStop(stop: string, isTransition: bool)
    ensures BuildLinearGradient([stop], isTransition) == [GradientStop(stop, 0.0, 100.0)]
  {
    GradientEndsAtHundred([stop], isTransition);
  }

  // ---------------------------------------------------------------------------
  // Text colour

  /**
   * `calculateHighContrastColor`: white only when its APCA magnitude against the
   * background is strictly larger than black's; ties give black.
   */
  function HighContrastColor(ops: Ops, backgroundColor: Lch): string
  {
    var onWhite := Abs(ops.apca(backgroundColor, ops.parse("white")));
    var onBlack := Abs(ops.apca(backgroundColor, ops.parse("black")));
    ops.named(if onWhite > onBlack then "white" else "black")
  }

  /** The light candidate is readable: APCA at most -60 and WCAG 2.1 ratio at least 4.5. */
  predicate LightOk(ops: Ops, base: Lch, light: Lch) {
    ops.apca(base, light) <= -60.0 && ops.wcag(light, base) >= 4.5
  }

  /** The dark candidate is readable: APCA at least 60 and WCAG 2.1 ratio at least 4.5. */
  predicate DarkOk(ops: Ops, base: Lch, dark: Lch) {
    ops.apca(base, dark) >= 60.0 && ops.wcag(dark, base) >= 4.5
  }

  /** `c` after `k` increments of its lightness. */
  function Lighter(c: Lch, k: nat): Lch {
    c.(l := c.l + k as real)
  }

  /** `c` after `k` decrements of its lightness. */
  function Darker(c: Lch, k: nat): Lch {
    c.(l := c.l - k as real)
  }

  /**
   * The contrast search over `steps` further steps: at each step the light candidate is
   * tried before the dark one; then the light one brightens and the dark one darkens.
   */
  function ContrastSearch(ops: Ops, base: Lch, light: Lch, dark: Lch, steps: nat): Option<string>
    decreases steps
  {
    if steps == 0 then None
    else if LightOk(ops, base, light) then Some(ops.show(light))
    else if DarkOk(ops, base, dark) then Some(ops.show(dark))
    else ContrastSearch(ops, base, Lighter(light, 1), Darker(dark, 1), steps - 1)
  }

  /** The first candidates: chroma raised by 3 (light) and by 20 (dark), capped at 100. */
  function LightStart(base: Lch): Lch {
    base.(c := MinReal(base.c + 3.0, 100.0))
  }

  function DarkStart(base: Lch): Lch {
    base.(c := MinReal(base.c + 20.0, 100.0))
  }

  /** What `calculateDarkenedColor` computes when nothing is memoized: `"#fff"` if no step succeeds. */
  function DarkenedColor(ops: Ops, base: Lch): string {
    match ContrastSearch(ops, base, LightStart(base), DarkStart(base), 100)
    case Some(s) => s
    case None => "#fff"
  }

  /** What step `k` of a search from `light` and `dark` yields: the light candidate first. */
  function StepResult(ops: Ops, base: Lch, light: Lch, dark: Lch, k: nat): Option<string> {
    if LightOk(ops, base, Lighter(light, k)) then Some(ops.show(Lighter(light, k)))
    else if DarkOk(ops, base, Darker(dark, k)) then Some(ops.show(Darker(dark, k)))
    else None
  }

  /** Step `k + 1` of a search is step `k` of the search one step further on. */
  lemma StepShift(ops: Ops, base: Lch, light: Lch, dark: Lch, k: nat)
    ensures StepResult(ops, base, Lighter(light, 1), Darker(dark, 1), k) == StepResult(ops, base, light, dark, k + 1)
  {
    assert Lighter(Lighter(light, 1), k) == Lighter(light, k + 1);
    assert Darker(Darker(dark, 1), k) == Darker(dark, k + 1);
  }

  /** The search finds nothing exactly when none of its steps has a readable candidate. */
  lemma {:induction false} ContrastSearchNone(ops: Ops, base: Lch, light: Lch, dark: Lch, steps: nat)
    ensures ContrastSearch(ops, base, light, dark, steps).None? <==>
            forall k :: 0 <= k < steps ==> StepResult(ops, base, light, dark, k).None?
    decreases steps
  {
    if steps > 0 {
      assert Lighter(light, 0) == light && Darker(dark, 0) == dark;
      if StepResult(ops, base, light, dark, 0).None? {
        var light', dark' := Lighter(light, 1), Darker(dark, 1);
        ContrastSearchNone(ops, base, light', dark', steps - 1);
        forall k | 0 <= k < steps - 1
          ensures StepResult(ops, base, light', dark', k) == StepResult(ops, base, light, dark, k + 1)
        {
          StepShift(ops, base, light, dark, k);
        }
        if ContrastSearch(ops, base, light', dark', steps - 1).None? {
          forall k | 0 <= k < steps
            ensures StepResult(ops, base, light, dark, k).None?
          {
            if k > 0 {
              assert StepResult(ops, base, light', dark', k - 1).None?;
            }
          }
        } else {
          var k' :| 0 <= k' < steps - 1 && StepResult(ops, base, light', dark', k').Some?;
          assert StepResult(ops, base, light, dark, k' + 1).Some?;
        }
      }
    }
  }

  /**
   * A found colour is what the first step with a readable candidate yields, so the light
   * candidate wins whenever it is readable at that step.
   */
  lemma {:induction false} ContrastSearchFirst(ops: Ops, base: Lch, light: Lch, dark: Lch, steps: nat)
    requires ContrastSearch(ops, base, light, dark, steps).Some?
    ensures exists k :: 0 <= k < steps &&
              (forall j :: 0 <= j < k ==> StepResult(ops, base, light, dark, j).None?) &&
              ContrastSearch(ops, base, light, dark, steps) == StepResult(ops, base, light, dark, k)
    decreases steps
  {
    assert Lighter(light, 0) == light && Darker(dark, 0) == dark;
    if StepResult(ops, base, light, dark, 0).Some? {
      assert ContrastSearch(ops, base, light, dark, steps) == StepResult(ops, base, light, dark, 0);
    } else {
      var light', dark' := Lighter(light, 1), Darker(dark, 1);
      ContrastSearchFirst(ops, base, light', dark', steps - 1);
      var k' :| 0 <= k' < steps - 1 &&
              (forall j :: 0 <= j < k' ==> StepResult(ops, base, light', dark', j).None?) &&
              ContrastSearch(ops, base, light', dark', steps - 1) == StepResult(ops, base, light', dark', k');
      StepShift(ops, base, light, dark, k');
      forall j | 0 <= j < k' + 1
        ensures StepResult(ops, base, light, dark, j).None?
      {
        if j > 0 {
          StepShift(ops, base, light, dark, j - 1);
        }
      }
      assert ContrastSearch(ops, base, light, dark, steps) == StepResult(ops, base, light, dark, k' + 1);
    }
  }

  /** With no readable candidate in any of the 100 steps the text colour is `"#fff"`. */
  lemma DarkenedFallback(ops: Ops, base: Lch)
    requires forall k :: 0 <= k < 100 ==> StepResult(ops, base, LightStart(base), DarkStart(base), k).None?
    ensures DarkenedColor(ops, base) == "#fff"
  {
    ContrastSearchNone(ops, base, LightStart(base), DarkStart(base), 100);
  }

  /**
   * The memoized darkening: a non-empty cached string is returned as it is; otherwise
   * the search runs and its result (even the fallback) is stored under `show(base)`.
   */
  function Darken(ops: Ops, memo: map<string, string>, base: Lch): (r: (string, map<string, string>))
    ensures ops.show(base) in r.1 && r.1[ops.show(base)] == r.0
    ensures r.1.Keys == memo.Keys + {ops.show(base)}
    ensures forall k :: k in memo && k != ops.show(base) ==> r.1[k] == memo[k]
    ensures ops.show(base) in memo && memo[ops.show(base)] != "" ==> r == (memo[ops.show(base)], memo)
    ensures !(ops.show(base) in memo && memo[ops.show(base)] != "") ==> r.0 == DarkenedColor(ops, base)
  {
    var key := ops.show(base);
    if key in memo && memo[key] != "" then (memo[key], memo)
    else
      var result := DarkenedColor(ops, base);
      (result, memo[key := result])
  }

  /** Asking twice for the same colour gives the same string and adds no key the second time. */
  lemma DarkenRepeat(ops: Ops, memo: map<string, string>, base: Lch)
    ensures var first := Darken(ops, memo, base);
            var second := Darken(ops, first.1, base);
            second.0 == first.0 && second.1.Keys == first.1.Keys && |second.1| == |first.1|
  {
    var first := Darken(ops, memo, base);
    var second := Darken(ops, first.1, base);
    if !(ops.show(base) in memo && memo[ops.show(base)] != "") {
      assert first.0 == DarkenedColor(ops, base);
    }
  }

  // ---------------------------------------------------------------------------
  // Nearest colour

  /** `idx` is the first index of minimal distance from the source colour, or 0 for an empty palette. */
  predicate IsClosest(ops: Ops, sourceColor: string, palette: seq<string>, idx: nat) {
    var source := ops.parse(sourceColor);
    (|palette| == 0 ==> idx == 0) &&
    (|palette| > 0 ==>
      idx < |palette| &&
      (forall j :: 0 <= j < |palette| ==> ops.deltaE(source, ops.parse(palette[idx])) <= ops.deltaE(source, ops.parse(palette[j]))) &&
      (forall j :: 0 <= j < idx ==> ops.deltaE(source, ops.parse(palette[j])) > ops.deltaE(source, ops.parse(palette[idx]))))
  }

  /** The best index so far is `best`, among the first `index` colours, scanning on. */
  function ClosestScan(ops: Ops, source: Lch, palette: seq<string>, index: nat, best: nat): (r: nat)
    requires best < index <= |palette|
    requires forall j :: 0 <= j < index ==> ops.deltaE(source, ops.parse(palette[best])) <= ops.deltaE(source, ops.parse(palette[j]))
    requires forall j :: 0 <= j < best ==> ops.deltaE(source, ops.parse(palette[j])) > ops.deltaE(source, ops.parse(palette[best]))
    ensures r < |palette|
    ensures forall j :: 0 <= j < |palette| ==> ops.deltaE(source, ops.parse(palette[r])) <= ops.deltaE(source, ops.parse(palette[j]))
    ensures forall j :: 0 <= j < r ==> ops.deltaE(source, ops.parse(palette[j])) > ops.deltaE(source, ops.parse(palette[r]))
    decreases |palette| - index
  {
    if index == |palette| then best
    else if ops.deltaE(source, ops.parse(palette[index])) < ops.deltaE(source, ops.parse(palette[best])) then
      ClosestScan(ops, source, palette, index + 1, index)
    else
      ClosestScan(ops, source, palette, index + 1, best)
  }

  /** The index `findClosestColorIndex` returns. */
  function ClosestIndex(ops: Ops, sourceColor: string, palette: seq<string>): (r: nat)
    ensures IsClosest(ops, sourceColor, palette, r)
    ensures |palette| > 0 ==> r < |palette|
  {
    if |palette| == 0 then 0 else ClosestScan(ops, ops.parse(sourceColor), palette, 1, 0)
  }

  /** There is only one first index of minimal distance. */
  lemma ClosestUnique(ops: Ops, sourceColor: string, palette: seq<string>, a: nat, b: nat)
    requires IsClosest(ops, sourceColor, palette, a) && IsClosest(ops, sourceColor, palette, b)
    ensures a == b
  {
    if |palette| > 0 {
      var source := ops.parse(sourceColor);
      var da, db := ops.deltaE(source, ops.parse(palette[a])), ops.deltaE(source, ops.parse(palette[b]));
      assert da <= db && db <= da;
    }
  }

  // ---------------------------------------------------------------------------
  // The service

  class ColorService {
    const ops: Ops
    /** `darkenMemoization`. */
    var darkenMemo: map<string, string>

    constructor(ops: Ops)
      ensures this.ops == ops && darkenMemo == map[]
    {
      this.ops := ops;
      darkenMemo := map[];
    }

    /** `calculateGradientStops`: one stop per segment, keyed by the cumulative path. */
    method CalculateGradientStops(chunks: seq<string>, palette: seq<string>, tagsMap: map<string, int>,
                                  isMixing: bool, isTransition: bool, overrides: map<string, int>)
      returns (gradientStops: seq<string>)
      requires |palette| > 0
      ensures gradientStops == GradientStops(ops, Resolver(palette, tagsMap, overrides), chunks, isMixing, isTransition)
    {
      var cx := Resolver(palette, tagsMap, overrides);
      gradientStops := [];
      var backgroundColor: Option<Lch> := None;
      var lastColor := "";
      var currentPath := "";
      var i := 0;
      StopsLoopInit(ops, cx, chunks, isMixing, isTransition);
      while i < |chunks|
        invariant StopsLoop(ops, cx, chunks, isMixing, isTransition, i, gradientStops, backgroundColor, lastColor, currentPath)
        decreases |chunks| - i
      {
        var chunk := chunks[i];
        var key := ComposeTagPath(currentPath, chunk);
        var colorFromPalette := ChunkColor(cx, lastColor, key);
        StopsLoopStep(ops, cx, chunks, isMixing, isTransition, i, gradientStops, backgroundColor, lastColor, currentPath);
        lastColor := colorFromPalette;
        var newColor := BuildColorForChunk(ops, backgroundColor, colorFromPalette, isMixing, isTransition);
        if backgroundColor.None? {
          backgroundColor := Some(newColor);
        }
        gradientStops := gradientStops + [ops.show(newColor)];
        currentPath := key;
        i := i + 1;
      }
      StopsLoopDone(ops, cx, chunks, isMixing, isTransition, gradientStops, backgroundColor, lastColor, currentPath);
    }

    /**
     * `calculateDarkenedColor`: a non-empty memoized string is returned; otherwise the
     * 100-step search runs, light candidate first, and its result is memoized.
     */
    method CalculateDarkenedColor(baseColor: Lch) returns (result: string)
      modifies this
      ensures (result, darkenMemo) == Darken(ops, old(darkenMemo), baseColor)
    {
      var memoKey := ops.show(baseColor);
      if memoKey in darkenMemo && darkenMemo[memoKey] != "" {
        return darkenMemo[memoKey];
      }
      var colorLight := LightStart(baseColor);
      var colorDark := DarkStart(baseColor);
      ghost var search := ContrastSearch(ops, baseColor, colorLight, colorDark, 100);
      result := "#fff";
      var i := 0;
      while i < 100
        invariant 0 <= i <= 100
        invariant ContrastSearch(ops, baseColor, colorLight, colorDark, 100 - i) == search
      {
        if LightOk(ops, baseColor, colorLight) {
          result := ops.show(colorLight);
          break;
        }
        if DarkOk(ops, baseColor, colorDark) {
          result := ops.show(colorDark);
          break;
        }
        colorLight := Lighter(colorLight, 1);
        colorDark := Darker(colorDark, 1);
        i := i + 1;
      }
      darkenMemo := darkenMemo[memoKey := result];
    }

    /** `getColors`: everything is read off the first stop, except the gradient. */
    method GetColors(tagName: string, palette: seq<string>, tagsMap: map<string, int>,
                     isMixing: bool, isTransition: bool, highTextContrast: bool, overrides: map<string, int>)
      returns (r: ColorResult)
      requires |palette| > 0
      modifies this
      ensures var stops := GradientStops(ops, Resolver(palette, tagsMap, overrides), Split(tagName, '/'), isMixing, isTransition);
              var backgroundColor := ops.parse(stops[0]);
              r.background == ops.show(backgroundColor) &&
              r.linearGradient == BuildLinearGradient(stops, isTransition) &&
              (highTextContrast ==> r.color == HighContrastColor(ops, backgroundColor) && darkenMemo == old(darkenMemo)) &&
              (!highTextContrast ==> (r.color, darkenMemo) == Darken(ops, old(darkenMemo), backgroundColor))
    {
      var chunks := Split(tagName, '/');
      var gradientStops := CalculateGradientStops(chunks, palette, tagsMap, isMixing, isTransition, overrides);
      var backgroundColor := ops.parse(gradientStops[0]);
      var background := ops.show(backgroundColor);
      var linearGradient := BuildLinearGradient(gradientStops, isTransition);
      var color;
      if highTextContrast {
        color := HighContrastColor(ops, backgroundColor);
      } else {
        color := CalculateDarkenedColor(backgroundColor);
      }
      r := ColorResult(background, color, linearGradient);
    }

    /** `generateAdaptiveColorPalette`: the push loop, then the splice-based shuffle and the rotation. */
    method GenerateAdaptiveColorPalette(config: GeneratorConfig) returns (r: seq<string>)
      ensures r == AdaptivePalette(ops, config)
    {
      var availableColors := PushBaseColors(config);
      if !config.isShuffling {
        return availableColors;
      }
      var result := ShuffleColors(availableColors);
      r := RotatePalette(result, config.seed);
    }

    /** The push loop of `generateAdaptiveColorPalette`: one LCH colour per hue step. */
    method PushBaseColors(config: GeneratorConfig) returns (availableColors: seq<string>)
      ensures availableColors == BaseColors(ops, config)
    {
      availableColors := [];
      var i := 0;
      while i < config.paletteSize
        invariant 0 <= i <= |BaseColors(ops, config)|
        invariant availableColors == BaseColors(ops, config)[..i]
      {
        var hue := i as real * (360.0 / config.paletteSize as real) + config.constantOffset;
        var chroma := if config.isDarkTheme then MinInt(JsRound(config.baseChroma * 1.8), 100) as real else config.baseChroma;
        var lightness := if config.isDarkTheme then MinInt(JsRound(config.baseLightness / 2.5), 100) as real else config.baseLightness;
        assert chroma == ThemeChroma(config) && lightness == ThemeLightness(config);
        assert hue == Hue(config, i);
        BaseColorsAt(ops, config, i);
        availableColors := availableColors + [ops.show(Lch(lightness, chroma, HueRem(hue)))];
        i := i + 1;
        assert BaseColors(ops, config)[..i] == BaseColors(ops, config)[..i - 1] + [BaseColors(ops, config)[i - 1]];
      }
    }

    /**
     * The shuffle loop of `generateAdaptiveColorPalette`: take the colour at `next`,
     * splice it out, jump by `Math.round(next + remaining / 3) % remaining`.
     */
    method ShuffleColors(availableColors: seq<string>) returns (result: seq<string>)
      ensures result == Shuffled(availableColors, 0)
    {
      result := [];
      var available := availableColors;
      var next: nat := 0;
      while |available| > 0
        invariant next < |available| || |available| == 0
        invariant result + Shuffled(available, next) == Shuffled(availableColors, 0)
        decreases |available|
      {
        ghost var result0, available0, next0 := result, available, next;
        result := result + [available[next]];
        available := Spliced(available, next, 1).0;
        if |available| > 0 {
          next := JsRound(next as real + |available| as real / 3.0) % |available|;
          JumpTo(next0, |available|, next);
        }
        ShuffleTurn(Shuffled(availableColors, 0), result0, available0, next0, result, available, next);
      }
    }

    /** `generatePalettes`: the custom list when it has a usable piece, otherwise the adaptive pair. */
    method GeneratePalettes(config: PaletteConfig) returns (r: ThemePalettes)
      ensures r == GeneratedPalettes(ops, config)
    {
      if config.selected == Custom {
        var palette := CustomColors(config.custom);
        if |palette| > 0 {
          return ThemePalettes(ProcessColorPalette(ops, palette, config.seed), ProcessColorPalette(ops, palette, config.seed));
        }
      }
      var light := GenerateAdaptiveColorPalette(AdaptiveConfig(config, false));
      var dark := GenerateAdaptiveColorPalette(AdaptiveConfig(config, true));
      r := ThemePalettes(light, dark);
    }

    /**
     * `findClosestColorIndex`: 0 for an empty palette, otherwise the first index of
     * minimal distance from the source colour.
     */
    method FindClosestColorIndex(sourceColor: string, palette: seq<string>) returns (bestIndex: nat)
      ensures bestIndex == ClosestIndex(ops, sourceColor, palette)
      ensures |palette| == 0 ==> bestIndex == 0
      ensures |palette| > 0 ==> bestIndex < |palette|
      ensures forall j :: 0 <= j < |palette| ==>
                ops.deltaE(ops.parse(sourceColor), ops.parse(palette[bestIndex])) <= ops.deltaE(ops.parse(sourceColor), ops.parse(palette[j]))
      ensures forall j :: 0 <= j < bestIndex ==>
                ops.deltaE(ops.parse(sourceColor), ops.parse(palette[j])) > ops.deltaE(ops.parse(sourceColor), ops.parse(palette[bestIndex]))
    {
      if |palette| == 0 {
        return 0;
      }
      var source := ops.parse(sourceColor);
      bestIndex := 0;
      var bestDistance: Option<real> := None;
      var index := 0;
      while index < |palette|
        invariant 0 <= index <= |palette| && bestIndex < |palette|
        invariant index == 0 <==> bestDistance.None?
        invariant index > 0 ==> bestIndex < index && bestDistance == Some(ops.deltaE(source, ops.parse(palette[bestIndex])))
        invariant forall j :: 0 <= j < index ==> ops.deltaE(source, ops.parse(palette[bestIndex])) <= ops.deltaE(source, ops.parse(palette[j]))
        invariant forall j :: 0 <= j < bestIndex ==> ops.deltaE(source, ops.parse(palette[j])) > ops.deltaE(source, ops.parse(palette[bestIndex]))
      {
        var distance := ops.deltaE(source, ops.parse(palette[index]));
        if bestDistance.None? || distance < bestDistance.value {
          bestDistance := Some(distance);
          bestIndex := index;
        }
        index := index + 1;
      }
      ClosestUnique(ops, sourceColor, palette, bestIndex, ClosestIndex(ops, sourceColor, palette));
    }
  }
}
