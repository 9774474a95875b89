/**
 * The decision logic of the plugin object: palette-change detection, remapping of
 * per-tag colour overrides onto a new palette, the versioned settings migration,
 * the "colorize each tag once" pass and the CSS selector strings.
 */
module Plugin {
  import opened Seqs
  import opened Strings
  import opened Records
  import opened TagUtils
  import opened ColorMath
  import opened Palettes
  import opened ColorResolution
  import opened Tags
  import opened ClassLists

  // ---------------------------------------------------------------------------
  // Settings

  /** The stored `palette` property: a number until the version-2 migration, an object from version 3. */
  datatype PaletteField = PaletteSize(size: int) | PaletteObject(config: PaletteConfig)

  /** The object `loadData` returns; an absent property is `None`. */
  datatype StoredData = StoredData(
    version: Option<int>,
    palette: Option<PaletteField>,
    seed: Option<int>,
    chroma: Option<real>,
    lightness: Option<real>,
    mixColors: Option<bool>,
    transition: Option<bool>,
    highTextContrast: Option<bool>,
    knownTags: Option<seq<(string, int)>>,
    tagColors: Option<seq<(string, int)>>)

  /** The settings object after `Object.assign({}, DEFAULT_SETTINGS, data)`. */
  datatype Settings = Settings(
    palette: PaletteField,
    mixColors: bool,
    transition: bool,
    highTextContrast: bool,
    knownTags: seq<(string, int)>,
    tagColors: Option<seq<(string, int)>>,
    version: int)

  const DefaultPalette := PaletteConfig(AdaptiveSoft, "e12729-f37324-f8cc1b-72b043-007f4e", 0)
  const DefaultVersion := 3

  const NoData := StoredData(None, None, None, None, None, None, None, None, None, None)

  function OrElse<T>(o: Option<T>, d: T): T {
    if o.Some? then o.value else d
  }

  /** `x > bound` where an absent property compares false. */
  predicate Above(x: Option<real>, bound: real) {
    x.Some? && x.value > bound
  }

  /** The palette selection migration 3 makes from the old chroma and lightness. */
  function MigratedSelection(data: StoredData): PaletteType {
    if Above(data.chroma, 16.0) || Above(data.lightness, 87.0) then AdaptiveBright else DefaultPalette.selected
  }

  /**
   * `migrateSettings`: each migration runs exactly when the stored version is below its
   * target; the settings object is the defaults overridden by the migrated data.
   */
  method MigrateSettings(loadedData: Option<StoredData>) returns (settings: Settings, needToSave: bool)
    ensures var stored := OrElse(OrElse(loadedData, NoData).version, 0);
            settings.version == MaxInt(stored, 4) && (needToSave <==> stored < 4)
    ensures var data := OrElse(loadedData, NoData);
            var stored := OrElse(data.version, 0);
            (stored < 3 ==> settings.palette == PaletteObject(PaletteConfig(MigratedSelection(data), DefaultPalette.custom, OrElse(data.seed, 0)))) &&
            (stored >= 3 ==> settings.palette == OrElse(data.palette, PaletteObject(DefaultPalette)))
    ensures var data := OrElse(loadedData, NoData);
            var stored := OrElse(data.version, 0);
            (stored < 4 ==> settings.tagColors == Some(OrElse(data.tagColors, []))) &&
            (stored >= 4 ==> settings.tagColors == data.tagColors)
    ensures var data := OrElse(loadedData, NoData);
            settings.knownTags == OrElse(data.knownTags, []) &&
            settings.mixColors == OrElse(data.mixColors, true) &&
            settings.transition == OrElse(data.transition, true) &&
            settings.highTextContrast == OrElse(data.highTextContrast, false)
  {
    var data := if loadedData.Some? then loadedData.value else NoData;
    var currentVersion := if data.version.Some? then data.version.value else 0;
    needToSave := false;

    if currentVersion < 2 {
      data := data.(palette := Some(PaletteSize(16)));
      currentVersion := 2;
      data := data.(version := Some(2));
      needToSave := true;
    }

    if currentVersion < 3 {
      var seed := if data.seed.Some? && data.seed.value != 0 then data.seed.value else 0;
      var selected := if Above(data.chroma, 16.0) || Above(data.lightness, 87.0) then AdaptiveBright else DefaultPalette.selected;
      data := data.(palette := Some(PaletteObject(DefaultPalette.(seed := seed, selected := selected))));
      data := data.(chroma := None, lightness := None, seed := None);
      currentVersion := 3;
      data := data.(version := Some(3));
      needToSave := true;
    }

    if currentVersion < 4 {
      data := data.(tagColors := Some(if data.tagColors.Some? then data.tagColors.value else []));
      currentVersion := 4;
      data := data.(version := Some(4));
      needToSave := true;
    }

    settings := Settings(
      OrElse(data.palette, PaletteObject(DefaultPalette)),
      OrElse(data.mixColors, true),
      OrElse(data.transition, true),
      OrElse(data.highTextContrast, false),
      OrElse(data.knownTags, []),
      data.tagColors,
      OrElse(data.version, DefaultVersion));
  }

  // ---------------------------------------------------------------------------
  // Palette changes and override remapping

  /** `havePalettesChanged`: a length or an element differs, in either theme. */
  function HavePalettesChanged(prev: ThemePalettes, next: ThemePalettes): (r: bool)
    ensures !r <==> prev == next
  {
    |prev.light| != |next.light| ||
    |prev.dark| != |next.dark| ||
    (exists i :: 0 <= i < |prev.light| && prev.light[i] != next.light[i]) ||
    (exists i :: 0 <= i < |prev.dark| && prev.dark[i] != next.dark[i])
  }

  /** `settings.tagColors || {}`. */
  function TagColors(settings: Settings): seq<(string, int)> {
    OrElse(settings.tagColors, [])
  }

  /** The key `remapTagColors` files an override under: its normalised tag name. */
  function NormalizedName(entry: (string, int)): string {
    NormalizeTagName(entry.0)
  }

  /**
   * The value `remapTagColors` gives an override: the index of the next palette's colour
   * closest to the colour its index picks from the previous palette.
   */
  function RemapTarget(ops: Ops, previousPalette: seq<string>, nextPalette: seq<string>): ((string, int)) -> int {
    (entry: (string, int)) =>
      if |previousPalette| == 0 then 0
      else ClosestIndex(ops, previousPalette[NormalizePaletteIndex(entry.1, |previousPalette|)], nextPalette)
  }

  /** The record `remapTagColors` builds from the overrides. */
  function Remap(ops: Ops, entries: seq<(string, int)>, previousPalette: seq<string>, nextPalette: seq<string>): seq<(string, int)> {
    Build(entries, NormalizedName, RemapTarget(ops, previousPalette, nextPalette))
  }

  /**
   * The remapped record holds each non-empty normalised name once, and nothing else:
   * its keys are already normalised, and every override with a non-empty name has one.
   */
  lemma RemapKeys(ops: Ops, entries: seq<(string, int)>, previousPalette: seq<string>, nextPalette: seq<string>)
    ensures NoDup(EntryKeys(Remap(ops, entries, previousPalette, nextPalette)))
    ensures var m := ToMap(Remap(ops, entries, previousPalette, nextPalette));
            (forall k :: k in m ==> k != "" && NormalizeTagName(k) == k) &&
            (forall i :: 0 <= i < |entries| && NormalizeTagName(entries[i].0) != "" ==> NormalizeTagName(entries[i].0) in m)
  {
    var r := Remap(ops, entries, previousPalette, nextPalette);
    var keys := Keys(entries, NormalizedName);
    assert ToMap(r).Keys == Elems(keys);
    forall k | k in ToMap(r)
      ensures k != "" && NormalizeTagName(k) == k
    {
      assert k in keys;
      KeysOrigin(entries, NormalizedName, k);
      var j :| 0 <= j < |entries| && NormalizedName(entries[j]) == k;
      NormalizeIdempotent(entries[j].0);
    }
    forall i | 0 <= i < |entries| && NormalizeTagName(entries[i].0) != ""
      ensures NormalizeTagName(entries[i].0) in ToMap(r)
    {
      KeysContain(entries, NormalizedName, i);
    }
  }

  /**
   * For each name, the remapped value is the index of the next palette's colour closest
   * to the colour the name's last override pointed at in the previous palette.
   */
  lemma RemapValues(ops: Ops, entries: seq<(string, int)>, previousPalette: seq<string>, nextPalette: seq<string>, i: nat)
    requires |previousPalette| > 0 && i < |entries|
    requires NormalizeTagName(entries[i].0) != ""
    requires NormalizeTagName(entries[i].0) !in Keys(entries[i + 1..], NormalizedName)
    ensures NormalizeTagName(entries[i].0) in ToMap(Remap(ops, entries, previousPalette, nextPalette))
    ensures var source := previousPalette[NormalizePaletteIndex(entries[i].1, |previousPalette|)];
            ToMap(Remap(ops, entries, previousPalette, nextPalette))[NormalizeTagName(entries[i].0)] ==
            ClosestIndex(ops, source, nextPalette)
  {
    BuildValue(entries, NormalizedName, RemapTarget(ops, previousPalette, nextPalette), i);
  }

  /** `v => 0 <= v < n`: an index into a palette of `n` colours. */
  function IndexBelow(n: nat): int -> bool {
    v => 0 <= v < n
  }

  /** Every remapped value is an index into the next palette. */
  lemma RemapInRange(ops: Ops, entries: seq<(string, int)>, previousPalette: seq<string>, nextPalette: seq<string>)
    requires |nextPalette| > 0
    ensures forall i :: 0 <= i < |Remap(ops, entries, previousPalette, nextPalette)| ==>
              0 <= Remap(ops, entries, previousPalette, nextPalette)[i].1 < |nextPalette|
  {
    var target := RemapTarget(ops, previousPalette, nextPalette);
    forall j | 0 <= j < |entries|
      ensures IndexBelow(|nextPalette|)(target(entries[j]))
    {
    }
    BuildValuesHold(entries, NormalizedName, target, IndexBelow(|nextPalette|));
  }

  // ---------------------------------------------------------------------------
  // Selector strings

  /** `s.replace(/\//g, "\\/")`. */
  function EscapeSlashes(s: string): string {
    ReplaceChar(s, '/', "\\/")
  }

  /** The characters the `/[^0-9a-z-]/gi` filter keeps. */
  predicate FlatChar(c: char) {
    ('0' <= c <= '9') || ('a' <= c <= 'z') || ('A' <= c <= 'Z') || c == '-'
  }

  /** `buildTagSelectors`: four selectors, and two editor-token selectors for a flat tag. */
  function BuildTagSelectors(tagName: string): (r: seq<string>)
    ensures |r| == (if Filter(tagName, FlatChar) != "" && '/' !in tagName then 6 else 4)
    ensures forall i :: 1 <= i < 4 ==> EndsWithText(r[i], ColoredClass(EscapeSlashes(ToLower(tagName))))
  {
    var tagHref := "#" + EscapeSlashes(tagName);
    var tagFlat := Filter(tagName, FlatChar);
    var tagLower := EscapeSlashes(ToLower(tagName));
    var selectors := [
      "a.tag[href=\"" + tagHref + "\" i]",
      "a.tag." + ColoredClass(tagLower),
      ".cm-s-obsidian .cm-line span.cm-hashtag." + ColoredClass(tagLower),
      ".metadata-property[data-property-key=\"tags\" i] .multi-select-pill." + ColoredClass(tagLower)
    ];
    ClassSuffix("a.tag.", ColoredClass(tagLower));
    ClassSuffix(".cm-s-obsidian .cm-line span.cm-hashtag.", ColoredClass(tagLower));
    ClassSuffix(".metadata-property[data-property-key=\"tags\" i] .multi-select-pill.", ColoredClass(tagLower));
    if tagFlat != "" && '/' !in tagName then
      var flatLower := ToLower(tagFlat);
      selectors + [
        ".cm-s-obsidian .cm-line span.cm-tag-" + flatLower + ".cm-hashtag",
        ".cm-s-obsidian .cm-line span.cm-tag-" + tagFlat + ".cm-hashtag"
      ]
    else selectors
  }

  predicate EndsWithText(s: string, suffix: string) {
    |suffix| <= |s| && s[|s| - |suffix|..] == suffix
  }

  lemma ClassSuffix(prefix: string, suffix: string)
    ensures EndsWithText(prefix + suffix, suffix)
  {
  }

  /** `buildRemoveButtonSelectors`: one selector, or none for the empty tag name. */
  function BuildRemoveButtonSelectors(tagName: string): (r: seq<string>)
    ensures |r| <= 1
    ensures r == [] <==> tagName == ""
  {
    var tagLower := EscapeSlashes(ToLower(tagName));
    assert tagLower == "" <==> tagName == "" by {
      ReplaceCharLength(ToLower(tagName), '/', "\\/");
    }
    if tagLower != "" then [RemoveButtonSelector(tagLower)] else []
  }

  /** The selector of the remove button of a property pill for the escaped, lower-cased name. */
  function RemoveButtonSelector(tagLower: string): string {
    ".metadata-property[data-property-key=\"tags\" i] .multi-select-pill-remove-button." + ColoredClass(tagLower)
  }

  // ---------------------------------------------------------------------------
  // The plugin object

  /** The tags of `tags` not in `rendered`, in order: the ones a pass colorizes. */
  function Unrendered(tags: seq<string>, rendered: set<string>): (r: seq<string>)
    decreases |tags|
  {
    if |tags| == 0 then []
    else
      var t := tags[|tags| - 1];
      Unrendered(tags[..|tags| - 1], rendered) + (if t in rendered then [] else [t])
  }

  /** A pass colorizes exactly the registered tags that were not rendered, each once. */
  lemma {:induction false} UnrenderedElems(tags: seq<string>, rendered: set<string>)
    requires NoDup(tags)
    ensures NoDup(Unrendered(tags, rendered))
    ensures Elems(Unrendered(tags, rendered)) == Elems(tags) - rendered
    decreases |tags|
  {
    if |tags| > 0 {
      var init, t := tags[..|tags| - 1], tags[|tags| - 1];
      assert tags == init + [t];
      assert NoDup(init) by {
        forall i, j | 0 <= i < j < |init| ensures init[i] != init[j] {
          assert init[i] == tags[i] && init[j] == tags[j];
        }
      }
      assert t !in init by {
        forall i | 0 <= i < |init| ensures init[i] != t {
          assert init[i] == tags[i];
        }
      }
      UnrenderedElems(init, rendered);
      ElemsSnoc(init, t);
      var prior := Unrendered(init, rendered);
      var r := Unrendered(tags, rendered);
      if t !in rendered {
        assert t !in prior by {
          assert t !in Elems(prior);
        }
        assert r == AddLast(prior, t);
        assert Elems(r) == Elems(prior) + {t};
      } else {
        assert r == prior;
      }
    }
  }

  /** `entries.map(([k, v]) => [normalizeTagName(k), v])`. */
  function NormalizeKeys(entries: seq<(string, int)>): (r: seq<(string, int)>)
    ensures |r| == |entries|
    ensures forall i :: 0 <= i < |r| ==> r[i] == (NormalizeTagName(entries[i].0), entries[i].1)
  {
    seq(|entries|, i requires 0 <= i < |entries| => (NormalizeTagName(entries[i].0), entries[i].1))
  }

  /** The map `refreshTagColorMap` builds: each override under its normalised tag name. */
  function TagColorMap(settings: Settings): map<string, int> {
    ToMap(NormalizeKeys(TagColors(settings)))
  }

  /** One turn of the `remapTagColors` loop: an override with a non-empty name is set to its closest colour. */
  lemma RemapStep(ops: Ops, entries: seq<(string, int)>, previousPalette: seq<string>, nextPalette: seq<string>, i: nat)
    requires i < |entries| && |previousPalette| > 0
    ensures var name := NormalizeTagName(entries[i].0);
            var source := previousPalette[NormalizePaletteIndex(entries[i].1, |previousPalette|)];
            var prior := Remap(ops, entries[..i], previousPalette, nextPalette);
            Remap(ops, entries[..i + 1], previousPalette, nextPalette) ==
              if name == "" then prior else RecordSet(prior, name, ClosestIndex(ops, source, nextPalette))
  {
    BuildStep(entries, NormalizedName, RemapTarget(ops, previousPalette, nextPalette), i);
  }

  /** Every key of the map built from normalised entries is itself normalised. */
  lemma NormalizeKeysMap(entries: seq<(string, int)>)
    ensures forall k :: k in ToMap(NormalizeKeys(entries)) ==> NormalizeTagName(k) == k
  {
    var normalized := NormalizeKeys(entries);
    forall k | k in ToMap(normalized)
      ensures NormalizeTagName(k) == k
    {
      assert k in Elems(EntryKeys(normalized));
      var i :| 0 <= i < |normalized| && EntryKeys(normalized)[i] == k;
      NormalizeIdempotent(entries[i].0);
    }
  }

  /** Names that are already normalised are left alone, so the map a remapped record gives is the record's own. */
  lemma NormalizeRemapped(entries: seq<(string, int)>)
    requires forall i :: 0 <= i < |entries| ==> NormalizeTagName(entries[i].0) == entries[i].0
    ensures NormalizeKeys(entries) == entries
  {
  }

  /** One turn of the `update` loop: the tag is new to the pass, and the rendered set grows by it. */
  lemma UpdateStep(tags: seq<string>, i: nat, rendered: set<string>, renderedNow: set<string>)
    requires NoDup(tags) && i < |tags|
    requires renderedNow == rendered + Elems(tags[..i])
    ensures tags[i] in renderedNow <==> tags[i] in rendered
    ensures renderedNow + {tags[i]} == rendered + Elems(tags[..i + 1])
    ensures tags[i] in rendered ==> Unrendered(tags[..i + 1], rendered) == Unrendered(tags[..i], rendered)
    ensures tags[i] !in rendered ==> Unrendered(tags[..i + 1], rendered) == Unrendered(tags[..i], rendered) + [tags[i]]
  {
    assert tags[..i + 1] == tags[..i] + [tags[i]];
    ElemsSnoc(tags[..i], tags[i]);
  }

  /** A second pass right after the first colorizes nothing. */
  lemma {:induction false} UpdateOnce(tags: seq<string>, rendered: set<string>)
    requires Elems(tags) <= rendered
    ensures Unrendered(tags, rendered) == []
    decreases |tags|
  {
    if |tags| > 0 {
      assert tags[|tags| - 1] in Elems(tags);
      UpdateOnce(tags[..|tags| - 1], rendered);
    }
  }

  class ColoredTagsPlugin {
    var settings: Settings
    var palettes: ThemePalettes
    var tagColorMap: map<string, int>
    const colorService: ColorService
    const tagManager: TagManager

    /** The field initialisers and the service objects `onload` creates. */
    constructor(settings: Settings, ops: Ops)
      ensures this.settings == settings && palettes == ThemePalettes([], []) && tagColorMap == map[]
      ensures colorService.ops == ops && fresh(colorService) && fresh(tagManager)
      ensures tagManager.tagsMap == ToMap(settings.knownTags) && tagManager.keys == MapOrder(settings.knownTags)
      ensures tagManager.Valid() && tagManager.renderedTags == {}
    {
      this.settings := settings;
      palettes := ThemePalettes([], []);
      tagColorMap := map[];
      colorService := new ColorService(ops);
      tagManager := new TagManager(settings.knownTags);
    }

    /**
     * `update`: every registered tag not yet rendered is marked and colorized, in the
     * map's order; the result lists the tags handed to `colorizeTag`.
     */
    method Update() returns (colorized: seq<string>)
      requires NoDup(tagManager.keys)
      modifies tagManager
      ensures colorized == Unrendered(tagManager.keys, old(tagManager.renderedTags))
      ensures tagManager.renderedTags == old(tagManager.renderedTags) + Elems(tagManager.keys)
      ensures tagManager.tagsMap == old(tagManager.tagsMap) && tagManager.keys == old(tagManager.keys)
    {
      var tags := tagManager.keys;
      ghost var rendered := tagManager.renderedTags;
      colorized := [];
      assert NoDup(tags);
      var i := 0;
      while i < |tags|
        invariant 0 <= i <= |tags|
        invariant tagManager.keys == tags && tagManager.tagsMap == old(tagManager.tagsMap)
        invariant tagManager.renderedTags == rendered + Elems(tags[..i])
        invariant colorized == Unrendered(tags[..i], rendered)
      {
        var tagName := tags[i];
        UpdateStep(tags, i, rendered, tagManager.renderedTags);
        if !tagManager.IsRendered(tagName) {
          tagManager.MarkAsRendered(tagName);
          colorized := colorized + [tagName];
        }
        i := i + 1;
      }
      assert tags[..i] == tags;
    }

    /** `saveKnownTags`: the registry is updated and, when it grew, exported into the settings. */
    method SaveKnownTags(cacheTags: seq<string>)
      requires tagManager.Valid()
      modifies this, tagManager
      ensures var after := KnownTagsAfterUpdate(Known(old(tagManager.tagsMap), old(tagManager.keys)), cacheTags);
              tagManager.tagsMap == after.0.orders && tagManager.keys == after.0.keys &&
              settings == (if after.1 then old(settings).(knownTags := FromMap(tagManager.tagsMap, tagManager.keys)) else old(settings))
      ensures palettes == old(palettes) && tagColorMap == old(tagColorMap)
      ensures tagManager.renderedTags == old(tagManager.renderedTags)
    {
      ghost var before := Known(tagManager.tagsMap, tagManager.keys);
      var hasChanges := tagManager.UpdateKnownTags(cacheTags);
      ghost var after := KnownTagsAfterUpdate(before, cacheTags);
      assert tagManager.tagsMap == after.0.orders && tagManager.keys == after.0.keys && hasChanges == after.1;
      assert tagManager.renderedTags == old(tagManager.renderedTags);
      if hasChanges {
        var exported := tagManager.ExportKnownTags();
        StoreKnownTags(exported);
      }
    }

    /** The assignment `settings.knownTags = …` of `saveKnownTags`. */
    method StoreKnownTags(exported: seq<(string, int)>)
      modifies this
      ensures settings == old(settings).(knownTags := exported)
      ensures palettes == old(palettes) && tagColorMap == old(tagColorMap)
    {
      settings := settings.(knownTags := exported);
    }

    /** `refreshTagColorMap`: the overrides, keyed by normalised tag name. */
    method RefreshTagColorMap()
      modifies this
      ensures tagColorMap == TagColorMap(settings)
      ensures settings == old(settings) && palettes == old(palettes)
    {
      tagColorMap := TagColorMap(settings);
    }

    /**
     * `remapTagColors`: with both light palettes non-empty, every override is moved to the
     * next palette's colour closest to the one it pointed at.
     */
    method RemapTagColors(previousPalettes: ThemePalettes, nextPalettes: ThemePalettes)
      modifies this
      ensures |previousPalettes.light| == 0 || |nextPalettes.light| == 0 ==> settings == old(settings)
      ensures |previousPalettes.light| > 0 && |nextPalettes.light| > 0 ==>
                settings == old(settings).(tagColors := Some(Remap(colorService.ops, TagColors(old(settings)), previousPalettes.light, nextPalettes.light)))
      ensures palettes == old(palettes) && tagColorMap == old(tagColorMap)
    {
      if |previousPalettes.light| == 0 || |nextPalettes.light| == 0 {
        return;
      }
      var remapped := RemapOverrides(TagColors(settings), previousPalettes.light, nextPalettes.light);
      settings := settings.(tagColors := Some(remapped));
    }

    /** The `forEach` of `remapTagColors` over the overrides, building the new record. */
    method RemapOverrides(entries: seq<(string, int)>, previousPalette: seq<string>, nextPalette: seq<string>)
      returns (remapped: seq<(string, int)>)
      requires |previousPalette| > 0
      ensures remapped == Remap(colorService.ops, entries, previousPalette, nextPalette)
    {
      remapped := [];
      var i := 0;
      while i < |entries|
        invariant 0 <= i <= |entries|
        invariant remapped == Remap(colorService.ops, entries[..i], previousPalette, nextPalette)
      {
        var (tagName, paletteIndex) := entries[i];
        var normalizedIndex := NormalizePaletteIndex(paletteIndex, |previousPalette|);
        var sourceColor := previousPalette[normalizedIndex];
        var normalizedTagName := NormalizeTagName(tagName);
        RemapStep(colorService.ops, entries, previousPalette, nextPalette, i);
        if normalizedTagName != "" {
          var bestMatch := colorService.FindClosestColorIndex(sourceColor, nextPalette);
          remapped := RecordSet(remapped, normalizedTagName, bestMatch);
        }
        i := i + 1;
      }
      assert entries[..i] == entries;
    }

    /** The decision in `saveSettings`: overrides are remapped only when a palette changed. */
    method SaveSettings(nextPalettes: ThemePalettes)
      modifies this
      ensures var prev := old(palettes);
              settings == (if HavePalettesChanged(prev, nextPalettes) && |prev.light| > 0 && |nextPalettes.light| > 0
                           then old(settings).(tagColors := Some(Remap(colorService.ops, TagColors(old(settings)), prev.light, nextPalettes.light)))
                           else old(settings))
      ensures palettes == nextPalettes && tagColorMap == old(tagColorMap)
    {
      var previousPalettes := palettes;
      if HavePalettesChanged(previousPalettes, nextPalettes) {
        RemapTagColors(previousPalettes, nextPalettes);
      }
      palettes := nextPalettes;
    }
  }
}
