# Colored Tags, modelled in Dafny

This project models the logic of the Obsidian "Colored Tags" plugin. The plugin gives every
tag in a vault a colour. It registers tags and their `/`-separated parents with a sibling
order, builds light and dark palettes, resolves each tag path to a gradient of palette
colours and a readable text colour, and writes CSS rules. It also marks tag elements in the
editor with `colored-tag-<name>` classes, so that the rules reach them.

The modules follow the plugin's source files:

- `Seqs`, `Strings` (`seqs.dfy`, `strings.dfy`): sequence helpers and the JavaScript string built-ins the plugin uses (`trim`, `split`, `toLowerCase`, `replace` with a one-character pattern).
- `ColorMath` (`color_math.dfy`): `Math.round`, JavaScript `%` on hues, and the colour library as a record of uninterpreted operations.
- `TagUtils` (`tag_utils.dfy`): `normalizeTagName` and `normalizePaletteIndex`.
- `Palettes` (`palettes.dfy`): `rotatePalette`, the "jump by a third" shuffle, adaptive and custom palettes.
- `ColorResolution` (`color_service.dfy`): the `ColorService` class: per-segment colours, gradient geometry, the memoized contrast search, the nearest colour.
- `Records` (`records.dfy`): plain JavaScript objects and `Map`s as entry sequences in insertion order.
- `Tags` (`tag_manager.dfy`): the `TagManager` class: the sibling-order registry and the rendered set.
- `Plugin` (`plugin.dfy`): the plugin's decisions: settings migration, palette change detection, override remapping, the colorize-once pass, CSS selectors.
- `ClassLists`, `TagApplying` (`class_lists.dfy`, `tag_applier.dfy`): `TagApplier`: tag text normalisation, class clean-up and application, and the mutation and frame batching state machine.
- `HashtagClasses` (`hashtag_classes.dfy`): the CodeMirror pass that pairs each tag token with the `#` before it.
- `LegacyAppliers` (`legacy_appliers.dfy`): the two older versions of that pass, as written.
- `PaletteScanner`, `CommunityPalettes` (`palette_scanner.dfy`, `community_palettes.dfy`): palette extraction from discussion comments, scoring, de-duplication, paging and ranking.
- `Css` (`css_manager.dfy`): the `CSSManager` class: the append buffer, the pending flush and the style element.
- `I18n` (`i18n.dfy`): translation lookup with English fallback and `{{name}}` interpolation.
- `LegacyMain` (`legacy_main.dfy`): the first version of the plugin: tag filtering, the set update, the 32-bit string hash, the 36-colour palette and the contrast search.

Objects whose fields the source updates in place are classes: `TagManager`, `ColorService`,
`CSSManager`, `TagApplier`, the plugin, the palette collector and the legacy plugin. Each of
their methods is proved against a function that specifies it. The DOM is a map from element
numbers to class lists (`map<nat, seq<string>>`), held as a field of a `Page` object where the
source mutates it. The colour library
(colorjs.io) is a record `Ops` of uninterpreted functions passed as a parameter. These are
parsing to LCH, printing, mixing, deltaE 2000, APCA and WCAG 2.1 contrast. The LCH triple
itself is concrete, so the chroma caps and the lightness steps of the contrast search are
exact.

Where the repository's tests expect something the code does not do, the model follows the
code:
- `tests/TagManager.spec.ts:60-109` expects tag removal, rejection of invalid names, a
  `hasChanged` method and tolerance of `undefined`. `src/TagManager.ts` has none of these.
- `tests/main.spec.ts:113-120` expects lower-cased override keys. `normalizeTagName` keeps
  letter case (`TagUtils.NormalizeDecoratedName`).
- `tests/ColoredClassApplierPlugin.spec.ts:76-94` and `:120-142` expect multi-part merging
  and skipping of whitespace-only text. `src/ColoredClassApplierPlugin.ts:3-25` does
  neither: a whitespace-only token gets the class `colored-tag-`.
- `tests/defaultSettings.spec.ts:19-20` expects `_version: 4` and `tagColors` in the
  defaults. `src/defaultSettings.ts` has `_version: 3` and no `tagColors`. The model uses
  version 3 as the default, and the migration to 4 is what adds `tagColors`.

## Model

| member | source | states |
|---|---|---|
| ColorMath.JsRound | src/ColorService.ts:291 | `Math.round`: the nearest integer, halves rounded up |
| ColorMath.RoundThird | src/ColorService.ts:317 | `Math.round(next + len / 3)` is the integer `next + (len + 1) / 3` |
| ColorMath.HueRem | src/ColorService.ts:300 | `hue % 360` lies in `[0, 360)` for a non-negative hue and is the hue itself below 360 |
| Strings.TrimStart | src/tagUtils.ts:4 | a suffix of the text that does not start with whitespace |
| Strings.TrimEnd | src/tagUtils.ts:4 | a prefix of the text that does not end with whitespace |
| Strings.Trim | src/tagUtils.ts:4 | `trim` leaves neither leading nor trailing whitespace |
| Strings.TrimNoSpace | src/tagUtils.ts:4 | `trim` changes nothing in a text without whitespace |
| Strings.TrimPadded | src/tag-appliers/TagApplier.ts:10 | `trim` removes exactly the whitespace around text whose two ends are not whitespace |
| Strings.RemoveChar | src/tagUtils.ts:3 | `replace(/#/g, "")` leaves no `#` |
| Strings.RemoveAbsentChar | src/tagUtils.ts:3 | removing a character that does not occur changes nothing |
| Strings.RemoveSpaces | src/tagUtils.ts:5 | `replace(/\s+/g, "")` leaves no whitespace |
| Strings.StripTrailing | src/tagUtils.ts:6 | `replace(/\/+$/, "")` removes exactly the trailing run of `/` |
| Strings.ToLower | src/main.ts:225 | `toLowerCase` maps every character and keeps the length |
| Strings.Split | src/TagManager.ts:58 | `split` gives at least one piece and no piece holds the separator |
| Strings.JoinSplit | src/TagManager.ts:58-65 | joining the pieces of a split with the separator gives the text back |
| Strings.ReplaceChar | src/main.ts:225 | `replace(/c/g, repl)` leaves no `c` when the replacement holds none |
| Strings.ReplaceCharLength | src/main.ts:225 | the escaped text is at least as long, and empty exactly when the text is |
| TagUtils.NormalizeTagName | src/tagUtils.ts:1-7 | the result has no `#`, no whitespace, and does not end in `/` |
| TagUtils.RemoveSpacesTrim | src/tagUtils.ts:4-5 | the `trim` before removing whitespace changes nothing |
| TagUtils.NormalizeStripsOnlyTrailingSlashes | src/tagUtils.ts:1-7 | the result, followed by a run of `/`, is exactly the input with `#` and whitespace removed: interior slashes and letter case are kept |
| TagUtils.NormalizeIdempotent | src/tagUtils.ts:1-7 | normalising twice is normalising once |
| TagUtils.NormalizeCleanName | src/tagUtils.ts:1-7 | a name without `#`, whitespace or a trailing `/` is a fixed point |
| TagUtils.NormalizeDecoratedName | src/tagUtils.ts:1-7 | `"#" + name + "/"` normalises back to `name`, so `#Parent/Child/` gives `Parent/Child` |
| TagUtils.JsRem | src/tagUtils.ts:13 | JavaScript's `%`: the remainder lies strictly between `-b` and `b` and takes the dividend's sign |
| TagUtils.NormalizePaletteIndex | src/tagUtils.ts:9-15 | 0 whenever length ≤ 0; otherwise a value in `[0, length)` equal to the Euclidean `index mod length` |
| TagUtils.JsRemEuclidean | src/tagUtils.ts:13-14 | adding `length` to a negative JavaScript remainder gives the Euclidean remainder |
| TagUtils.NormalizePaletteIndexExamples | src/tagUtils.ts:9-15 | `(6, 5)` gives 1, `(-1, 5)` gives 4 and `(3, 0)` gives 0 |
| ClassLists.ColoredClass | src/tag-appliers/TagApplier.ts:15-17 | the class starts with `colored-tag-` and the rest of it is the tag name |
| ClassLists.ColoredClassInjective | src/tag-appliers/TagApplier.ts:15-17 | two names give the same class exactly when they are equal |
| ClassLists.AddClass | src/tag-appliers/TagApplier.ts:44-48 | `classList.add`: the class is present afterwards, nothing else is added, a present class changes nothing, and the list gains no repeats |
| ClassLists.RemoveClass | src/tag-appliers/TagApplier.ts:26 | `classList.remove`: the class is gone, every other class stays, and the list gains no repeats |
| ClassLists.Cleaned | src/tag-appliers/TagApplier.ts:19-30 | a class survives exactly when it is not a `colored-tag-` class or is the class being applied |
| ClassLists.AppliedClasses | src/tag-appliers/TagApplier.ts:32-49 | after applying a class it is present, it is the only `colored-tag-` class, every class outside the prefix is kept, and nothing else is added |
| ClassLists.CleanedIdempotent | src/tag-appliers/TagApplier.ts:19-30 | cleaning twice for the same class is cleaning once |
| ClassLists.AppliedSettled | src/tag-appliers/TagApplier.ts:32-49 | a list that already holds the class as its only coloured class is left exactly as it is |
| ClassLists.AppliedIdempotent | src/tag-appliers/TagApplier.ts:32-49 | applying the same class twice gives the list of applying it once |
| TagApplying.DropLeadingHash | src/tag-appliers/TagApplier.ts:11 | `replace(/^#/, "")` shortens the text by one exactly when it starts with `#` |
| TagApplying.NormalizeTagText | src/tag-appliers/TagApplier.ts:3-13 | `null` exactly when the text is missing or trims to `""` or `"#"`; otherwise a non-empty lower-case name |
| TagApplying.LowerTwice | src/tag-appliers/TagApplier.ts:12 | lower-casing is idempotent |
| TagApplying.NormalizeHashed | src/tag-appliers/TagApplier.ts:3-13 | text that trims to `#name` normalises to the lower-cased name |
| TagApplying.NormalizeUnhashed | src/tag-appliers/TagApplier.ts:9-12 | text whose trimmed form is non-blank and does not start with `#` normalizes to that trimmed form, lower-cased |
| TagApplying.CleanAllAt | src/tag-appliers/TagApplier.ts:19-30 | the cleanup cleans each target once, however often it is listed, and leaves every other element alone |
| TagApplying.AddAllAt | src/tag-appliers/TagApplier.ts:44-48 | the adding loop gives each target the class once and leaves every other element alone |
| TagApplying.ApplyTagClassAt | src/tag-appliers/TagApplier.ts:32-49 | each target ends with the class applied for the normalised name, other elements keep their lists, and text that normalises to `null` changes nothing |
| TagApplying.ApplyTagClassTwice | src/tag-appliers/TagApplier.ts:32-49 | applying the same text to the same targets twice gives the lists of applying it once |
| TagApplying.ApplyTagClassNoDup | src/tag-appliers/TagApplier.ts:32-49 | class lists never gain repeats |
| TagApplying.Candidates | src/tag-appliers/TagApplier.ts:66-74 | the root comes first when it is a matching element, then every matching descendant in document order |
| TagApplying.ApplyCandidatesUntouched | src/tag-appliers/TagApplier.ts:76-78 | an element no candidate targets keeps its class list |
| TagApplying.ApplyCandidatesEach | src/tag-appliers/TagApplier.ts:60-79 | with the default targets and distinct candidates, each candidate ends with the class for its own text |
| TagApplying.ApplyCandidatesLast | src/tag-appliers/TagApplier.ts:76-78 | the last of distinct candidates ends with the class for its own text |
| TagApplying.Page.constructor | src/tag-appliers/TagApplier.ts:19-49 | the page holds the given class lists, none with repeats |
| TagApplying.CleanupColoredTagClasses | src/tag-appliers/TagApplier.ts:19-30 | the page's lists become the cleaned lists, and the page stays free of repeats |
| TagApplying.RemoveStaleClasses | src/tag-appliers/TagApplier.ts:24-28 | the loop over a snapshot of one element's classes leaves that element's list cleaned and the others unchanged |
| TagApplying.CleanStep | src/tag-appliers/TagApplier.ts:25-27 | one snapshot class is removed exactly when the cleanup drops it |
| TagApplying.ApplyColoredTagClass | src/tag-appliers/TagApplier.ts:32-49 | the page's lists become those of applying the text to the targets |
| TagApplying.ApplyColoredTagClassesInRoot | src/tag-appliers/TagApplier.ts:60-79 | the page's lists become those of applying each candidate in order, with its own text and targets |
| TagApplying.ElementsAndFragments | src/tag-appliers/TagApplier.ts:141-148 | only elements and fragments are kept, in order |
| TagApplying.ElementsAndFragmentsMembers | src/tag-appliers/TagApplier.ts:141-148 | a node is kept exactly when it was added and is an element or a fragment |
| TagApplying.ScheduledBy | src/tag-appliers/TagApplier.ts:132-149 | a text change schedules at most its parent; a child-list change schedules exactly the added elements and fragments |
| TagApplying.AddEachElems | src/tag-appliers/TagApplier.ts:152 | the pending set afterwards holds the old nodes and the new ones |
| TagApplying.AddEachNoDup | src/tag-appliers/TagApplier.ts:152 | the pending set never holds a node twice |
| TagApplying.AddEachPrefix | src/tag-appliers/TagApplier.ts:152 | nodes already pending stay first, in their order |
| TagApplying.TagApplier.constructor | src/tag-appliers/TagApplier.ts:95-99 | the selector and getters are stored, nothing is pending and no frame is requested |
| TagApplying.TagApplier.Apply | src/tag-appliers/TagApplier.ts:101-108 | the root pass with the applier's own selector and getters |
| TagApplying.TagApplier.Start | src/tag-appliers/TagApplier.ts:110-125 | one pass over the root, then the root is observed; the pending set and frame are untouched |
| TagApplying.TagApplier.Stop | src/tag-appliers/TagApplier.ts:127-130 | nothing is observed afterwards; the pending set and frame are untouched |
| TagApplying.TagApplier.ScheduleApply | src/tag-appliers/TagApplier.ts:151-168 | the node joins the pending set, and a frame is requested exactly when none is outstanding |
| TagApplying.TagApplier.HandleMutation | src/tag-appliers/TagApplier.ts:132-149 | the scheduled nodes join the pending set in order, and at most one frame is requested |
| TagApplying.TagApplier.ScheduleIfElement | src/tag-appliers/TagApplier.ts:142-147 | an element or fragment is scheduled; any other node changes nothing |
| TagApplying.TagApplier.ScheduleAdded | src/tag-appliers/TagApplier.ts:141-148 | every added element or fragment is scheduled in order, and at most one frame is requested |
| TagApplying.TagApplier.FrameFires | src/tag-appliers/TagApplier.ts:156-163 | the handle is cleared, the pending set is emptied, and the pass runs over each formerly pending node in insertion order |
| HashtagClasses.LastHash | src/ColoredClassApplierPlugin.ts:8-15 | `currentHashEl` after a run of elements is always an element whose trimmed text is `#` |
| HashtagClasses.LastHashIn | src/ColoredClassApplierPlugin.ts:10-15 | `currentHashEl` is one of the visited elements |
| HashtagClasses.CleanupOldClasses | src/ColoredClassApplierPlugin.ts:27-38 | over a snapshot of the element's classes, each stale `colored-tag-` class leaves both the element and the hash element, and no list gains repeats |
| HashtagClasses.StripMembers | src/ColoredClassApplierPlugin.ts:27-38 | the element keeps its plain classes and the new class; the hash element loses exactly the element's stale classes, so a coloured class held only by the hash element stays; no other element changes |
| HashtagClasses.StaleMembers | src/ColoredClassApplierPlugin.ts:33 | the stale classes are the `colored-tag-` classes other than the new one |
| HashtagClasses.RemoveEachMembers | src/ColoredClassApplierPlugin.ts:35 | removing a run of classes keeps exactly the classes outside the run |
| HashtagClasses.RemoveClassMembers | src/ColoredClassApplierPlugin.ts:34 | `classList.remove` keeps exactly the other classes |
| HashtagClasses.ApplyClassName | src/ColoredClassApplierPlugin.ts:40-49 | element and hash element get the class only when the element lacks it |
| HashtagClasses.TagResult | src/ColoredClassApplierPlugin.ts:21-23 | after one tag element, its new class is its only coloured class and its plain classes stay; the hash element loses the element's stale classes and gains the class only when the element lacked it; nothing else changes |
| HashtagClasses.TagOnSettled | src/ColoredClassApplierPlugin.ts:21-23 | an element already carrying only its own coloured class is left unchanged, and so is its hash element |
| HashtagClasses.ApplyColoredClasses | src/ColoredClassApplierPlugin.ts:3-25 | the loop over the `cm-hashtag` elements leaves the lists of the pass, with `currentHashEl` tracked as the last `#` so far |
| HashtagClasses.ApplyAllNoHash | src/ColoredClassApplierPlugin.ts:17-19 | elements before the first `#` are skipped and change nothing |
| HashtagClasses.ApplyAllKeys | src/ColoredClassApplierPlugin.ts:3-25 | the pass never drops an element's class list |
| HashtagClasses.ApplyAllSettles | src/ColoredClassApplierPlugin.ts:3-25 | after the pass, each tag element with a `#` before it carries its own class and no other `colored-tag-` class |
| HashtagClasses.LastHashStays | src/ColoredClassApplierPlugin.ts:12-15 | once a `#` is seen there is always a current hash element |
| HashtagClasses.ApplyAllOnSettled | src/ColoredClassApplierPlugin.ts:3-25 | when every tag element already carries only its class, the pass changes nothing |
| HashtagClasses.ApplyAllIdempotent | src/ColoredClassApplierPlugin.ts:51-61 | running the pass again, as every editor update does, changes nothing |
| LegacyAppliers.CollectTagElements | src/coloredClassApplyerPlugin.ts:3-17 | the first pass gives, in order, one entry per element whose untrimmed text is not `#`, each with the `#` element current at that point (or none) and the class of its trimmed, lower-cased text |
| LegacyAppliers.TagElementsPaired | src/coloredClassApplyerPlugin.ts:6-17 | every element that is not a hash element is paired with the most recent hash element before it, which may be null |
| LegacyAppliers.TagElementsFrom | src/coloredClassApplyerPlugin.ts:6-17 | every entry is a non-hash element of the page, its class is built from its own text, and its hash element is a hash element of the page |
| LegacyAppliers.FirstStale | src/coloredClassApplyerPlugin.ts:20-25 | the first stale class from a position on, or the end of the list when there is none |
| LegacyAppliers.FirstStaleFrom | src/coloredClassApplyerPlugin.ts:20-25 | the search reaches the end exactly when no stale class follows |
| LegacyAppliers.FirstStaleNone | src/coloredClassApplyerPlugin.ts:20-25 | the search over the whole list reaches the end exactly when the list has no stale class |
| LegacyAppliers.SweepClasses | src/coloredClassApplyerPlugin.ts:20-25 | the live `classList.forEach` with removal; without a hash element the first stale class is removed from the element and the pass throws |
| LegacyAppliers.SweepMembers | src/coloredClassApplyerPlugin.ts:20-25 | the live walk keeps every class that should stay, removes only stale classes, and adds nothing |
| LegacyAppliers.SweepSkipsNext | src/coloredClassApplyerPlugin.ts:20-25 | of two stale classes in a row the live walk removes only the first, where a walk over a snapshot removes both |
| LegacyAppliers.AddClassName | src/coloredClassApplyerPlugin.ts:26-29 | the class goes to the element and then to the hash element, which throws when there is none; this file skips both when the element already has the class |
| LegacyAppliers.AddClassMembers | src/coloredClassApplyerPlugin.ts:27 | `classList.add` keeps every class and adds exactly the new one |
| LegacyAppliers.ApplyTagElement | src/coloredClassApplyerPlugin.ts:19-30 | one entry: the cleanup, then the adding unless the cleanup threw |
| LegacyAppliers.NullHashOutcome | src/coloredClassApplyerPlugin.ts:19-30 | an entry without a hash element gets through only in this file's version, and only when the element already has its class and no stale one; no other element changes |
| LegacyAppliers.WithHashOutcome | src/coloredClassApplyerPlugin.ts:19-30 | an entry with a hash element never throws; the element ends with its class and keeps the classes that should stay; the hash element loses exactly what the walk removed; nothing else changes |
| LegacyAppliers.ColoredClassApplyer | src/coloredClassApplyerPlugin.ts:3-31 | both passes; the second runs entry by entry until an entry throws |
| LegacyAppliers.RunAllStops | src/coloredClassApplyerPlugin.ts:19-30 | once an entry throws, later entries are never reached |
| LegacyAppliers.LegacyStepKeys | src/coloredClassApplyerPlugin.ts:19-30 | an entry never drops an element's class list |
| LegacyAppliers.RootUpdate | coloredClassApplyerPlugin.ts:40-43 | no change unless the document or the focus changed; otherwise the root file's pass, which adds the class unconditionally |
| Tags.PathKeys | src/TagManager.ts:58-79 | one cumulative key is visited per chunk of the tag |
| Tags.ClosedGrows | src/TagManager.ts:67-76 | registering more keys never leaves a tag with a missing cumulative key |
| Tags.MaxOrder | src/TagManager.ts:96-98 | the reduction is at least its start, at least every sibling's stored order (`|| 0` for a missing one), and equal to its start or to one of them |
| Tags.OrderForNewTag | src/TagManager.ts:84-101 | a new key's order is at least 1, above every sibling's stored order, and either 1 or one more than some sibling's |
| Tags.AddKey | src/TagManager.ts:74 | registering a missing key keeps the keys listed once each and in step with the map |
| Tags.AssignFrom | src/TagManager.ts:57-82 | existing orders never change; every added key is a cumulative key of the tag with a positive order; afterwards every cumulative key is registered; the result reports a change exactly when a key was added, and nothing changes when all keys were there |
| Tags.AssignLoopDone | src/TagManager.ts:62-81 | the chunk loop ends with the registry and flag `AssignFrom` describes |
| Tags.UpdateFrom | src/TagManager.ts:43-50 | the loop over all tags keeps the registry consistent, only appends keys, and reports a change exactly when it appended one |
| Tags.UpdateFromOrders | src/TagManager.ts:43-50 | the loop keeps every existing order, gives each new key a positive order and a tag it is a cumulative key of, leaves every visited tag closed, and changes nothing when all were closed |
| Tags.UpdateLoopDone | src/TagManager.ts:44-50 | the tag loop ends with the registry and flag `UpdateFrom` describes |
| Tags.AppTags | src/TagManager.ts:35-37 | the tags kept have no `#`, are non-empty and do not end in `/`, and every cache tag passing that test is kept |
| Tags.AllTags | src/TagManager.ts:39-41 | the union of known keys and incoming tags, each once |
| Tags.UpdateClosesTags | src/TagManager.ts:34-51 | after an update every known and every incoming tag has all its cumulative keys registered, existing orders are unchanged and new orders are positive |
| Tags.UpdateReportsGrowth | src/TagManager.ts:43-50 | `updateKnownTags` returns true exactly when the set of keys grew |
| Tags.UpdateRepeat | src/TagManager.ts:34-51 | a second update with the same cache contents changes nothing and returns false |
| Tags.ClosedAfterUpdate | src/TagManager.ts:34-51 | every key registered after an update, and every incoming tag, is closed |
| Tags.PathKeyOfPathKey | src/TagManager.ts:58-79 | a cumulative key of a cumulative key of a tag is a cumulative key of the tag |
| Tags.TagManager.constructor | src/TagManager.ts:14-16 | the map holds the stored record's entries in their order, and nothing is rendered |
| Tags.TagManager.ClearRenderedTags | src/TagManager.ts:22-24 | the rendered set is emptied and the registry untouched |
| Tags.TagManager.MarkAsRendered | src/TagManager.ts:26-28 | the tag joins the rendered set and the registry is untouched |
| Tags.TagManager.ExportKnownTags | src/TagManager.ts:53-55 | the exported record reads back as the same map in the same key order |
| Tags.TagManager.UpdateKnownTags | src/TagManager.ts:34-51 | the new registry and the result are those of `KnownTagsAfterUpdate`; the rendered set is untouched |
| Tags.TagManager.SetNewKey | src/TagManager.ts:74 | the key is added last with its order |
| Tags.TagManager.AssignOrderToTagPath | src/TagManager.ts:57-82 | the new registry and the result are those of `AssignFrom` for the tag's chunks |
| Records.ToMap | src/TagManager.ts:15 | `new Map(entries)` holds exactly the entries' keys |
| Records.MapOrder | src/TagManager.ts:15 | the map iterates each key once, in first-entry order, and over exactly its keys |
| Records.FromMap | src/TagManager.ts:53-55 | `Object.fromEntries(map.entries())` lists the keys in the map's order |
| Records.EntriesRoundTrip | src/TagManager.ts:14-16 | exporting the registry and reading the record back gives the same map in the same order |
| Records.LastEntryValue | src/TagManager.ts:15 | for a key given more than once, the map holds the value of its last entry |
| Records.RecordSet | src/main.ts:359 | `record[k] = v`: an existing key keeps its place and takes the new value, a new key goes last; the map read from the record is the old one with `k` set to `v` |
| Records.Build | src/main.ts:344-361 | the record built by the loop lists each non-empty key once, at its first occurrence |
| Records.BuildValue | src/main.ts:344-361 | a key ends with the value of the last entry that set it |
| Records.BuildValuesHold | src/main.ts:344-361 | a property every entry's value has holds for every value of the built record |
| Plugin.MigrateSettings | src/main.ts:260-300 | each migration runs exactly when the stored version is below its target, so the version ends at least 4 and a save is asked for exactly when it was below 4; migration 2 then 3 gives the default palette with the old seed, switched to the bright adaptive palette when chroma was above 16 or lightness above 87; migration 4 gives an empty override record when there was none; every other setting is the stored value or its default |
| Plugin.HavePalettesChanged | src/main.ts:320-330 | reports a change exactly when the two palette pairs differ |
| Plugin.RemapKeys | src/main.ts:340-363 | the remapped record lists each non-empty normalised name once, each key is already normalised, and every override whose name normalises to something non-empty has an entry |
| Plugin.RemapValues | src/main.ts:344-361 | a name's remapped value is the index of the next palette's colour closest to the colour its last override picked from the previous palette, after index normalisation |
| Plugin.RemapInRange | src/main.ts:355-359 | every remapped value is an index into the next palette |
| Plugin.BuildTagSelectors | src/main.ts:222-243 | four selectors, six when the name keeps some `[0-9a-z-]` character and has no `/`; the three class selectors end in the coloured class of the lower-cased name with `/` escaped |
| Plugin.BuildRemoveButtonSelectors | src/main.ts:245-252 | one selector, none exactly for the empty name |
| Plugin.UnrenderedElems | src/main.ts:93-101 | a pass colorizes exactly the registered tags that were not rendered, each once |
| Plugin.NormalizeKeys | src/main.ts:311-316 | each override keeps its value under its normalised name |
| Plugin.NormalizeKeysMap | src/main.ts:309-318 | every key of the tag colour map is a normalised name |
| Plugin.NormalizeRemapped | src/main.ts:309-318 | after a remap, refreshing the colour map leaves the names alone |
| Plugin.UpdateOnce | src/main.ts:93-101 | a second pass right after the first colorizes nothing |
| Plugin.ColoredTagsPlugin.constructor | src/main.ts:35-39 | the settings are those loaded, the palettes and colour map are empty, and the tag manager is built from the stored known tags with nothing rendered |
| Plugin.ColoredTagsPlugin.Update | src/main.ts:93-101 | the tags handed to `colorizeTag` are the unrendered tags in the map's order; afterwards every registered tag is rendered and the registry is untouched |
| Plugin.ColoredTagsPlugin.SaveKnownTags | src/main.ts:82-91 | the registry becomes the updated one and, exactly when the update reported a change, the settings take its export |
| Plugin.ColoredTagsPlugin.RefreshTagColorMap | src/main.ts:309-318 | the colour map becomes the overrides keyed by normalised name; settings and palettes are untouched |
| Plugin.ColoredTagsPlugin.RemapTagColors | src/main.ts:332-364 | with an empty previous or next light palette nothing changes; otherwise the overrides become the remapped record |
| Plugin.ColoredTagsPlugin.RemapOverrides | src/main.ts:344-361 | the loop builds the record `Remap` describes |
| Plugin.ColoredTagsPlugin.SaveSettings | src/main.ts:134-147 | overrides are remapped exactly when the palettes changed and both light palettes are non-empty; the palettes become the new ones |
| Palettes.SpliceStart | src/ColorService.ts:333 | `splice`'s start: a negative start counts from the end, and both are clamped to the array |
| Palettes.Spliced | src/ColorService.ts:333 | `splice` splits the array into what stays and what is removed, with no element lost or added |
| Palettes.RotatePalette | src/ColorService.ts:331-336 | a permutation of the palette; a seed in `[0, n]` moves the last `seed` colours to the front, any other seed leaves the palette as it is |
| Palettes.SplicedTail | src/ColorService.ts:333 | `splice(-seed, seed)` cuts off the last `seed` colours, nothing for a negative seed, everything for a seed beyond the length |
| Palettes.RotateInverse | src/ColorService.ts:331-336 | rotating by `seed` and then by `n - seed` gives the palette back |
| Palettes.RotateSwaps | src/ColorService.ts:331-336 | rotating `front + back` by the length of `back` swaps the two parts |
| Palettes.NextPosition | src/ColorService.ts:317 | the next position always indexes the colours that remain |
| Palettes.Shuffled | src/ColorService.ts:310-318 | the shuffle emits as many colours as are available |
| Palettes.ShuffledIsPermutation | src/ColorService.ts:310-318 | the shuffle emits every colour exactly as often as it is available |
| Palettes.ShuffleEight | src/ColorService.ts:310-318 | eight colours come out in the order 0, 3, 6, 2, 5, 1, 7, 4 |
| Palettes.JumpTo | src/ColorService.ts:317 | the source's `Math.round(next + remaining / 3) % remaining` is the integer `NextPosition` |
| Palettes.ShuffleTurn | src/ColorService.ts:314-318 | one turn of the loop, splicing out the colour at `next` and jumping, keeps the emitted colours plus the shuffle of the rest equal to the whole shuffle |
| Palettes.BaseColors | src/ColorService.ts:285-303 | one colour per step of the palette size, none for a non-positive size |
| Palettes.BaseColorsAt | src/ColorService.ts:288-302 | colour `i` is the LCH colour of hue `(i · 360 / size + offset) % 360` with the theme's chroma and lightness |
| Palettes.UnshuffledIgnoresSeed | src/ColorService.ts:305-307 | without shuffling the colours come back as generated and the seed plays no part |
| Palettes.AdaptiveIsPermutation | src/ColorService.ts:282-321 | the adaptive palette holds every generated colour exactly as often as it was generated |
| Palettes.AdaptiveShuffledForm | src/ColorService.ts:309-320 | with shuffling the palette is the fixed shuffle of the generated colours, rotated by the seed |
| Palettes.SeedRotates | src/ColorService.ts:320 | a seed in `[0, size]` rotates the seed-0 palette by that many places |
| Palettes.DarkThemeParameters | src/ColorService.ts:290-295 | the dark soft palette uses chroma 29 and lightness 35, the dark bright one 100 and 30; the light theme uses the base values |
| Palettes.EightHues | src/ColorService.ts:285-300 | with eight colours and offset 35 the hues are 35, 80, …, 350, with no wrap-around |
| Palettes.CustomParts | src/ColorService.ts:24-26 | every piece of the custom list is non-empty and holds no `-` |
| Palettes.CustomColors | src/ColorService.ts:24-27 | one colour per piece: `#` and the piece |
| Palettes.CustomPartsRoundTrip | src/ColorService.ts:24-26 | a list without empty pieces is recovered by joining its pieces with `-` |
| Palettes.ProcessColorPalette | src/ColorService.ts:323-329 | one LCH colour per custom colour |
| Palettes.CustomPalettes | src/ColorService.ts:23-42 | a usable custom list gives the same palette for both themes, one colour per piece |
| Palettes.AdaptivePalettes | src/ColorService.ts:45-69 | adaptive selections, and a custom selection with no usable piece, give two eight-colour palettes, each a permutation of its theme's generated colours |
| Palettes.AdaptiveParameters | src/ColorService.ts:45-58 | size 8, offset 35, shuffling on, the configured seed; chroma 85 and lightness 75 exactly for the bright selection |
| ColorResolution.Order | src/ColorService.ts:123 | a missing or zero order reads as 1: the result is never 0, and is the stored order when that is non-zero |
| ColorResolution.Override | src/ColorService.ts:124 | an override is found exactly when the key has one |
| ColorResolution.PaletteForChunk | src/ColorService.ts:159-170 | the candidates come from the palette and are never empty for a non-empty palette; with an override or at most one colour they are the palette; otherwise the previous colour is left out unless that leaves nothing |
| ColorResolution.PickColorFromPalette | src/ColorService.ts:172-181 | a colour of the palette, at the override or `order - 1`, wrapped into range |
| ColorResolution.ChunkColor | src/ColorService.ts:122-136 | each segment's colour is a colour of the palette |
| ColorResolution.CumulativeKeys | src/ColorService.ts:121-151 | one key per segment |
| ColorResolution.Picks | src/ColorService.ts:121-151 | one colour per segment, each from the palette |
| ColorResolution.StopColors | src/ColorService.ts:138-149 | the first stop, and every stop without mixing, is the segment's colour; with mixing every later stop is mixed with the first segment's colour, since the background is set only once |
| ColorResolution.GradientStops | src/ColorService.ts:108-153 | one stop per segment |
| ColorResolution.KeysAreCumulativePaths | src/ColorService.ts:122 | when the first segment is non-empty each stop is keyed by the segments so far joined with `/` |
| ColorResolution.KeysUnderPath | src/ColorService.ts:155-157 | below a non-empty path each key is the path, `/`, and the segments so far |
| ColorResolution.PicksAvoidPrevious | src/ColorService.ts:164-169 | a segment without an override never repeats its predecessor's colour when another colour is available |
| ColorResolution.PicksUseOverride | src/ColorService.ts:164-165 | an overridden segment takes its colour from the full palette at the override index |
| ColorResolution.PicksDefaultOrder | src/ColorService.ts:123 | a segment with neither override nor stored order takes the first candidate |
| ColorResolution.ChunkColorDefault | src/ColorService.ts:123 | a missing order reads as 1, which picks the first candidate |
| ColorResolution.StopsLoopDone | src/ColorService.ts:121-152 | the stop loop ends with the stops `GradientStops` describes |
| ColorResolution.BuildLinearGradient | src/ColorService.ts:217-231 | one entry per stop, in order, each `elementSize` wide, the first starting at 0% |
| ColorResolution.SizesFill | src/ColorService.ts:221-224 | the entries and the gaps together fill exactly 100% |
| ColorResolution.GradientEndsAtHundred | src/ColorService.ts:217-231 | the last entry ends at 100% |
| ColorResolution.GradientContiguous | src/ColorService.ts:221-228 | without transition each entry ends where the next starts |
| ColorResolution.GradientGaps | src/ColorService.ts:221-228 | with transition consecutive entries are `100 / n` apart |
| ColorResolution.GradientSingleStop | src/ColorService.ts:217-231 | a single stop spans 0% to 100% |
| ColorResolution.ContrastSearchNone | src/ColorService.ts:258-276 | the search finds nothing exactly when no step has a readable candidate |
| ColorResolution.ContrastSearchFirst | src/ColorService.ts:258-276 | a found colour is what the first step with a readable candidate yields, the light candidate first |
| ColorResolution.DarkenedFallback | src/ColorService.ts:257 | with no readable candidate in the 100 steps the text colour is `#fff` |
| ColorResolution.Darken | src/ColorService.ts:242-280 | a non-empty memoized string is returned unchanged; otherwise the search result, even the fallback, is returned and stored under the colour's string; no other memo entry changes |
| ColorResolution.DarkenRepeat | src/ColorService.ts:242-280 | asking twice for the same colour gives the same string and adds no key |
| ColorResolution.ClosestScan | src/ColorService.ts:347-353 | the scan ends at an index of minimal distance that no earlier index ties |
| ColorResolution.ClosestIndex | src/ColorService.ts:338-356 | the first index of minimal distance, 0 for an empty palette |
| ColorResolution.ClosestUnique | src/ColorService.ts:338-356 | there is only one first index of minimal distance |
| ColorResolution.ColorService.constructor | src/ColorService.ts:16 | the memo starts empty |
| ColorResolution.ColorService.CalculateGradientStops | src/ColorService.ts:108-153 | the loop builds the stops `GradientStops` describes |
| ColorResolution.ColorService.CalculateDarkenedColor | src/ColorService.ts:242-280 | the result and the new memo are those of `Darken` |
| ColorResolution.ColorService.GetColors | src/ColorService.ts:72-106 | the background is the first stop printed in LCH; the gradient is built from all stops; the text colour is the high-contrast choice, leaving the memo alone, or the memoized darkened colour |
| ColorResolution.ColorService.GenerateAdaptiveColorPalette | src/ColorService.ts:282-321 | the palette `AdaptivePalette` describes |
| ColorResolution.ColorService.PushBaseColors | src/ColorService.ts:285-303 | the push loop builds the colours `BaseColors` describes |
| ColorResolution.ColorService.ShuffleColors | src/ColorService.ts:309-318 | the splice loop builds the shuffle `Shuffled` describes |
| ColorResolution.ColorService.GeneratePalettes | src/ColorService.ts:18-70 | the palettes `GeneratedPalettes` describes |
| ColorResolution.ColorService.FindClosestColorIndex | src/ColorService.ts:338-356 | 0 for an empty palette; otherwise an index into the palette whose distance is minimal and strictly below every earlier index's |
| PaletteScanner.Groups | src/CommunityPalettesService.ts:183 | the greedy `(?:-[0-9a-fA-F]{6})+` reads whole groups that fit in the body |
| PaletteScanner.MatchAt | src/CommunityPalettesService.ts:183 | a match spans at least two groups (13 characters) and ends inside the body |
| PaletteScanner.NextMatch | src/CommunityPalettesService.ts:186 | `regex.exec` from `lastIndex` finds a match at or after it |
| PaletteScanner.NextMatchLeftmost | src/CommunityPalettesService.ts:186 | the match found is the leftmost one, and none is found only when there is none |
| PaletteScanner.LowerAll | src/CommunityPalettesService.ts:187 | one lower-cased string per match |
| PaletteScanner.ExtractPalettesFromBody | src/CommunityPalettesService.ts:182-190 | the `exec` loop collects the matches, lower-cased, each at its first occurrence |
| PaletteScanner.ExtractStep | src/CommunityPalettesService.ts:186-188 | each round of the `exec` loop takes the next match in order |
| PaletteScanner.LowerDedupSnoc | src/CommunityPalettesService.ts:184-189 | adding one more match to the set appends it unless already present, which is `Array.from(new Set(...))` order |
| PaletteScanner.MatchAtShape | src/CommunityPalettesService.ts:183 | every match is two or more dash-separated groups of six hex digits |
| PaletteScanner.MatchesShape | src/CommunityPalettesService.ts:183-188 | every match the loop finds has that shape |
| PaletteScanner.LowerShape | src/CommunityPalettesService.ts:187 | lower-casing keeps the group shape and leaves no upper-case letter |
| PaletteScanner.ExtractedShape | src/CommunityPalettesService.ts:182-190 | every extracted palette is a lower-case run of at least two groups, and none repeats |
| PaletteScanner.ExtractedFirst | src/CommunityPalettesService.ts:160 | the first extracted palette exists exactly when there is a match, and it is the first match lower-cased |
| PaletteScanner.PrefixHash | src/CommunityPalettesService.ts:172 | one colour per piece |
| PaletteScanner.ColorsCons | src/CommunityPalettesService.ts:169-172 | the colours of a run of groups are the first group's colour followed by the colours of the rest |
| PaletteScanner.ColorsOfGroups | src/CommunityPalettesService.ts:169-172 | a palette value gives one colour per group: `#` and the group's six hex digits |
| CommunityPalettes.ReactionScoreSpelledOut | src/CommunityPalettesService.ts:192-205 | the score is the six positive counts minus the two negative ones, an absent key counting zero |
| CommunityPalettes.ScoreIgnoresOtherReactions | src/CommunityPalettesService.ts:198-204 | reactions other than the eight counted ones do not move the score |
| CommunityPalettes.Decimal | src/CommunityPalettesService.ts:167 | the comment id is written as a non-empty string of decimal digits |
| CommunityPalettes.ScoredMembers | src/CommunityPalettesService.ts:144-149 | scoring keeps exactly the comments whose score is not negative, each with its score |
| CommunityPalettes.AdmitConsistent | src/CommunityPalettesService.ts:151-179 | one comment keeps the accumulators consistent: `order` is the position, no score is negative, no value or author twice, and the two sets hold exactly the palettes' values and authors |
| CommunityPalettes.AppendAllConsistent | src/CommunityPalettesService.ts:138-180 | a page of comments keeps the accumulators consistent |
| CommunityPalettes.CollectConsistent | src/CommunityPalettesService.ts:81-114 | collecting over any sequence of page answers keeps the accumulators consistent |
| CommunityPalettes.AdmitAllExtends | src/CommunityPalettesService.ts:151-179 | palettes are only appended and the value and author sets only grow, so an author's first qualifying comment keeps the slot even when a later one scores higher |
| CommunityPalettes.AdmitOutcome | src/CommunityPalettesService.ts:151-178 | a comment adds a palette exactly when its author has none and the first match of its body, lower-cased, is a new value; otherwise nothing changes; the palette has id `<comment id>-0`, that value, one `#` colour per group, the author, the score and the next `order` |
| CommunityPalettes.SeenValueLeavesSlot | src/CommunityPalettesService.ts:152-165 | a comment whose value is taken does not use up its author's slot: a later comment by the same author with a new value is taken |
| CommunityPalettes.CollectStopsAt | src/CommunityPalettesService.ts:87-106 | after a failed page, an empty page or a page of fewer than 100 comments nothing further is read |
| CommunityPalettes.CollectFullPage | src/CommunityPalettesService.ts:97-113 | a full page is appended and followed by the next page |
| CommunityPalettes.Insert | src/CommunityPalettesService.ts:71-77 | inserting adds exactly one element |
| CommunityPalettes.InsertSorted | src/CommunityPalettesService.ts:72-77 | inserting into an ordered list keeps it ordered by the comparator |
| CommunityPalettes.SortPermutation | src/CommunityPalettesService.ts:71-77 | sorting rearranges the palettes without losing or adding any |
| CommunityPalettes.SortSorted | src/CommunityPalettesService.ts:71-77 | with distinct `order`s the sorted list has higher scores first and equal scores by `order` |
| CommunityPalettes.RankedApart | src/CommunityPalettesService.ts:71-77 | rearranging keeps values and authors distinct |
| CommunityPalettes.FetchRanked | src/CommunityPalettesService.ts:63-79 | the fetched list is the collected palettes rearranged, scores never increasing, equal scores in the order taken, no author or value twice |
| CommunityPalettes.Unranked | src/CommunityPalettesService.ts:78 | dropping `order` keeps every palette in its place |
| CommunityPalettes.PaletteCollector.constructor | src/CommunityPalettesService.ts:64-69 | the accumulators start empty |
| CommunityPalettes.PaletteCollector.AppendPalettesFromComments | src/CommunityPalettesService.ts:138-180 | the loop over the scored comments leaves the accumulators `AppendAll` describes |
| CommunityPalettes.PaletteCollector.AdmitComment | src/CommunityPalettesService.ts:152-178 | one scored comment changes the accumulators as `Admit` describes |
| CommunityPalettes.PaletteCollector.CollectPalettes | src/CommunityPalettesService.ts:81-114 | the walk over the page answers leaves the accumulators `CollectAll` describes |
| CommunityPalettes.FetchCommunityPalettes | src/CommunityPalettesService.ts:63-79 | the result is the collected palettes, sorted by the comparator, without `order` |
| Css.DocumentHead.constructor | src/CSSManager.ts:16 | a head holding the given elements |
| Css.FirstMarked | src/CSSManager.ts:16 | `querySelector` gives the first marked element, or none exactly when no element is marked |
| Css.CssManager.constructor | src/CSSManager.ts:2-3 | an empty buffer and no flush pending |
| Css.CssManager.Append | src/CSSManager.ts:6-13 | the text goes to the end of the buffer; a flush is queued only when none was pending, so at most one is ever outstanding |
| Css.CssManager.Flush | src/CSSManager.ts:15-26 | the head becomes the flushed head, the buffer empties and nothing is pending |
| Css.CssManager.RemoveAll | src/CSSManager.ts:28-32 | every marked element leaves the head and the others stay in order |
| Css.FlushedHead | src/CSSManager.ts:15-26 | a flush appends the buffer joined by newlines to the first marked element, creating one at the end only when there is none; no other element changes and there is then at least one marked element |
| Css.FirstMarkedAt | src/CSSManager.ts:16 | the first marked element is found at its position |
| Css.FlushesAccumulate | src/CSSManager.ts:15-26 | two flushes in a row land in the same element, the second batch directly after the first with no newline between batches |
| Css.MarkedCountZero | src/CSSManager.ts:16-17 | no marked element is counted exactly when none is marked |
| Css.MarkedCountUpdate | src/CSSManager.ts:23 | appending text to an element keeps the number of marked elements |
| Css.WithoutMarkedMembers | src/CSSManager.ts:28-32 | after `removeAll` exactly the unmarked elements remain |
| Css.WithoutMarkedNone | src/CSSManager.ts:28-32 | after `removeAll` no marked element is left |
| Css.WithoutMarkedUnmarked | src/CSSManager.ts:28-32 | `removeAll` on a head without marked elements changes nothing |
| I18n.ActiveRoot | src/i18n/index.ts:20-24 | the stored language's tree when it is non-empty and bundled, otherwise the English one |
| I18n.Placeholder | src/i18n/index.ts:49 | `{{name}}` is four characters longer than the name |
| I18n.ExtractEnglishValue | src/i18n/index.ts:56-76 | the loop gives the English string at the path, or the key when the walk dead-ends or stops on a subtree |
| I18n.T | src/i18n/index.ts:19-55 | the walk, fallback and interpolation give `Translate` |
| I18n.LookupAppend | src/i18n/index.ts:26-38 | walking `a + b` is walking `a`, then `b` from where that ended |
| I18n.UnsupportedLocaleIsEnglish | src/i18n/index.ts:20-24 | a language that is not bundled, an empty one or none at all reads exactly as English |
| I18n.FoundString | src/i18n/index.ts:40-54 | a path ending on a string gives that string, interpolated when params are given |
| I18n.SubtreeGivesKey | src/i18n/index.ts:40-42 | a path ending on a subtree gives the key |
| I18n.DeadEndFallsBack | src/i18n/index.ts:27-36 | a dead end gives the English string at the same path or else the key, and the params play no part |
| I18n.EnglishDeadEndGivesKey | src/i18n/index.ts:27-36 | with English active a dead end always gives the key |
| I18n.ReplaceAbsent | src/i18n/index.ts:49-50 | a string without the placeholder comes back unchanged |
| I18n.ReplaceFirst | src/i18n/index.ts:49-50 | the first occurrence is replaced and the scan resumes after it, so every leftmost non-overlapping occurrence is replaced |
| I18n.InterpolatedAbsent | src/i18n/index.ts:47-52 | params whose placeholders do not occur change nothing |
| LegacyMain.WithoutHashes | main.ts:52 | every `#` is removed from each name, one name per text |
| LegacyMain.CleanTags | main.ts:42-58 | the names kept have no `#`, are non-empty and do not end in `/` |
| LegacyMain.CleanTagsMembers | main.ts:49-58 | a name is kept exactly when, with its `#`s removed, it is non-empty and does not end in `/` |
| LegacyMain.FirstNew | main.ts:61 | `find` gives a tag of the list that is not yet known, and nothing exactly when every tag is known |
| LegacyMain.AddAll | main.ts:62-64 | the set after adding holds the known tags and the list's tags, each once |
| LegacyMain.AddAllKeepsPrefix | main.ts:62-64 | tags already known stay at the front, in their order |
| LegacyMain.TriggersOnNewTag | main.ts:61 | for non-empty names, `update` acts exactly when some tag is not yet known |
| LegacyMain.CleanTagsNonEmpty | main.ts:45-57 | the cleaned names are never empty, so the truthiness guard never hides a new tag for them |
| LegacyMain.EmptyFirstNewSkips | main.ts:61 | the `find` guard alone is on truthiness: an empty first new tag would hide the new tags after it; `getTagsFromApp` never passes such a name to `update` (`LegacyMain.CleanTagsNonEmpty`) |
| LegacyMain.LegacyPlugin.constructor | main.ts:15 | the set starts empty and nothing is colourized |
| LegacyMain.LegacyPlugin.Update | main.ts:60-67 | when the guard fires every tag is added and the whole set is colourized; otherwise nothing changes |
| LegacyMain.LegacyPlugin.AddTags | main.ts:62-64 | each tag is added in turn, keeping the set free of repeats |
| LegacyMain.LegacyPlugin.Reload | main.ts:31-38 | the set is cleared and updated from the cache's cleaned tags |
| LegacyMain.ToInt32 | main.ts:163 | the 32-bit wrap of `<<`: a value in the signed 32-bit range, congruent to the input modulo 2^32, and the input itself when it is in range |
| LegacyMain.HashCode | main.ts:161-164 | the loop computes `Hash` of the text |
| LegacyMain.HashIsPoly31 | main.ts:161-164 | while no intermediate hash times 32 leaves 32 bits, the hash is the `31 h + c` polynomial |
| LegacyMain.Chroma | main.ts:183-187 | 29 in the dark theme, 16 otherwise |
| LegacyMain.Lightness | main.ts:184-187 | 35 in the dark theme, 87 otherwise |
| LegacyMain.ColorPalette | main.ts:172-195 | 36 colours, colour `i` the LCH colour at hue `i · 10` with the theme's lightness and chroma |
| LegacyMain.GenerateColorPalette | main.ts:179-194 | the loop builds `ColorPalette` |
| LegacyMain.PaletteEntries | main.ts:172-195 | dark colours have lightness 35 and chroma 29, light ones 87 and 16, hues 10 degrees apart |
| LegacyMain.PaletteIndex | main.ts:166 | the index is inside the 36-colour palette |
| LegacyMain.GenerateUniqueColor | main.ts:158-170 | the palette colour the hash selects |
| LegacyMain.UniqueColorOf | main.ts:158-170 | a chunk's colour depends only on its text and the theme, at hue `10 · index` |
| LegacyMain.DarkenColorForContrast | main.ts:76-101 | the loop gives `DarkenForContrast` |
| LegacyMain.SearchStepShift | main.ts:97-98 | step `k + 1` from a candidate pair is step `k` from the pair one step on |
| LegacyMain.SearchFirst | main.ts:83-99 | the result is what the first step with a readable candidate yields, the light candidate first |
| LegacyMain.SearchNone | main.ts:83-99 | with no readable candidate in any step the search finds nothing |
| LegacyMain.DarkenFallback | main.ts:100 | with nothing readable within 100 steps the text colour is `#f00` |

## Left out

- Network and asynchrony are not modelled: `getCommunityPalettes` with its cache and shared in-flight promise, `requestPage`, `checkUpdates`, `loadData`/`saveData`, debouncing and event registration. The page answers `collectPalettes` receives are a parameter (`PageResult`), where a failed request is `Failed`.
- The colour library (colorjs.io) is left uninterpreted (`ColorMath.Ops`): LCH conversion, string formats, `mix`, deltaE 2000, APCA and WCAG 2.1 contrast. So no property depends on their values, and the number-to-string formatting of gradient percentages is left abstract (`GradientStop` keeps the reals).
- The MutationObserver, `requestAnimationFrame` and the CSS microtask are not modelled as such. What remains is the state they drive, with an explicit "frame fires" step (`TagApplying.TagApplier.FrameFires`) and an explicit flush (`Css.CssManager.Flush`).
- `TagApplying.TagApplier.ScheduleApply`: a `requestAnimationFrame` that runs its callback at once, so that the pending set is already empty on return, is not modelled. Frames always fire later.
- The DOM is reduced to class lists, node kinds, parents, the `matches`/`querySelectorAll` results and texts, all given as data. Selector matching itself is not modelled.
- `colorizeTag` in `src/main.ts`, and `getColors`, `colorizeTags`, `insertCSS` and `removeCSS` in the root `main.ts`, are string and DOM glue around the modelled parts and are not modelled. `reload`, `onload` and `onunload` are sequences of modelled calls plus DOM start and stop.
- The settings tab, `PropertiesTagApplier`, `BaseViewTagApplier` and `src/logger.ts` are not part of this model.
- `Strings.ToLower`: lower-cases ASCII letters only; the Unicode case mapping of `toLowerCase` is not modelled.
- `I18n.ReplaceAll`: the placeholder `RegExp` is treated as the literal text `{{name}}` and the value as literal text. This holds for identifier parameter names and values without `$` patterns, which is all the plugin passes. Keys inherited from `Object.prototype` are not modelled in the tree walk.
- `LegacyMain.Hash`: characters are Dafny characters. For characters outside the Basic Multilingual Plane, JavaScript hashes two UTF-16 code units instead. Arithmetic on JavaScript doubles is modelled as exact, which holds while the hash stays below 2^53 in magnitude, as it does for tag names.
- `Records.FromMap`: keys that look like array indices, which JavaScript objects enumerate first in ascending order, are kept in insertion order like other keys.
- `CommunityPalettes.SortByScore`: `Array.prototype.sort` is modelled as an insertion sort. Since the comparator is a strict total order on distinct `order` values, every correct sort gives this result.
- `HashtagClasses.CleanupOldClasses`: requires the element and the hash element to differ, which the pass guarantees because a `#` token becomes the hash element and is never a tag element.
- `HashtagClasses.ApplyColoredClasses`: whitespace-only text is not skipped, so such a token gets the class `colored-tag-`. This follows the code, not `tests/ColoredClassApplierPlugin.spec.ts:120-142`.
- `LegacyAppliers.SweepClasses`: `DOMTokenList.remove` is modelled as removal at the walk's position, which is the same because class lists hold no repeats. A call on the null hash element is modelled as the pass stopping with an error (`ok == false`), as the `TypeError` would stop it.
- `LegacyMain.LegacyPlugin.Update`: `colorizeTags` is recorded (the `colorized` field) rather than performed.
- `Plugin.ColoredTagsPlugin.Update`: `colorizeTag` is recorded by its result rather than performed.
- `Plugin.MigrateSettings`: the stored object is a fixed set of optional properties; unknown properties, and wrong types such as a non-numeric `_version`, are not modelled.
- `ColorResolution.ColorService.GetColors`: requires a non-empty palette. With an empty palette the source reads `palette[0]` as `undefined` and the colour library throws.

## Findings

| source | as written | input that shows it | evidently intended | confidence | as-written member | corrected member |
|---|---|---|---|---|---|---|
| src/coloredClassApplyerPlugin.ts:20-25 | the stale-class sweep (also in the root `coloredClassApplyerPlugin.ts:24-29`) removes classes from `classList` inside `classList.forEach`; the live list shifts, so the class after each removed one is skipped | an element with classes `colored-tag-a`, `colored-tag-b` whose tag is `c`: only `colored-tag-a` is removed, and `colored-tag-b` stays on the element and on the hash element | every stale `colored-tag-` class removed, as the later `src/ColoredClassApplierPlugin.ts:27-38` does by iterating a snapshot | not executed | LegacyAppliers.SweepSkipsNext | HashtagClasses.StripMembers |
