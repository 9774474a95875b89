/**
 * The tag applier of the reading view and the properties panel: it normalizes a tag's
 * text, gives its target elements the `colored-tag-<name>` class, and batches the
 * elements a mutation touches until the next animation frame.
 *
 * The page is a map from element identities to class lists; the tree itself (node kinds,
 * parents, selector matching, `textContent`) is a `Dom` value that the applier reads
 * but never changes.
 */
module TagApplying {
  import opened Seqs
  import opened Strings
  import opened ClassLists

  // ---------------------------------------------------------------------------
  // Tag text

  /** `s.replace(/^#/, "")`: one leading `#` dropped. */
  function DropLeadingHash(s: string): (r: string)
    ensures |r| == (if |s| > 0 && s[0] == '#' then |s| - 1 else |s|)
  {
    if |s| > 0 && s[0] == '#' then s[1..] else s
  }

  /**
   * `normalizeTagText`: `null` for missing or empty text; otherwise the trimmed text
   * without one leading `#`, lower-cased, or `null` when nothing is left.
   */
  function NormalizeTagText(text: Option<string>): (r: Option<string>)
    ensures r.None? <==> text.None? || Trim(text.value) == "" || Trim(text.value) == "#"
    ensures r.Some? ==> r.value != "" && ToLower(r.value) == r.value
  {
    if text.None? || text.value == "" then None
    else
      var trimmed := Trim(text.value);
      var normalized := DropLeadingHash(trimmed);
      LowerTwice(normalized);
      if |normalized| > 0 then Some(ToLower(normalized)) else None
  }

  /** Lower-casing is idempotent. */
  lemma LowerTwice(s: string)
    ensures ToLower(ToLower(s)) == ToLower(s)
  {
  }

  /** Text that trims to `#` and a name normalizes to the lower-cased name. */
  lemma NormalizeHashed(text: string, name: string)
    requires Trim(text) == "#" + name && name != ""
    ensures NormalizeTagText(Some(text)) == Some(ToLower(name))
  {
    assert ("#" + name)[1..] == name;
  }

  /**
   * Text whose trimmed form does not start with `#` normalizes to that trimmed form,
   * lower-cased, whenever it is not blank.
   */
  lemma NormalizeUnhashed(text: string)
    requires Trim(text) != "" && Trim(text)[0] != '#'
    ensures NormalizeTagText(Some(text)) == Some(ToLower(Trim(text)))
  {
  }

  // ---------------------------------------------------------------------------
  // The page

  /** What `instanceof` tells apart among the nodes a mutation reports. */
  datatype NodeKind = ElementNode | FragmentNode | TextNode | OtherNode

  /**
   * The parts of the document tree the applier reads: node kinds, `parentNode`,
   * `el.matches(selector)`, `root.querySelectorAll(selector)` in document order, and
   * `textContent`.
   */
  datatype Dom = Dom(
    kind: nat -> NodeKind,
    parentNode: nat -> Option<nat>,
    matches: (nat, string) -> bool,
    query: (nat, string) -> seq<nat>,
    textContent: nat -> Option<string>
  )

  /** The applier's `getTagText` and `getTagTargets` options. */
  datatype Getters = Getters(tagText: nat -> Option<string>, tagTargets: nat -> seq<nat>)

  /** `defaultTagTextGetter`: the trimmed `textContent`, or `null` when there is none. */
  function DefaultTagText(dom: Dom): nat -> Option<string> {
    (el: nat) => var text := dom.textContent(el); if text.None? || text.value == "" then None else Some(Trim(text.value))
  }

  /** The default targets: the element itself. */
  function DefaultTargets(): nat -> seq<nat> {
    (el: nat) => [el]
  }

  /** The class list of an element; an element the map does not list has none. */
  function ClassesOf(m: map<nat, seq<string>>, n: nat): seq<string> {
    if n in m then m[n] else []
  }

  /** The class lists of the page, one per element, each without repeats. */
  class Page {
    var classLists: map<nat, seq<string>>

    ghost predicate Valid()
      reads this
    {
      forall n :: n in classLists ==> NoDup(classLists[n])
    }

    constructor(classLists: map<nat, seq<string>>)
      requires forall n :: n in classLists ==> NoDup(classLists[n])
      ensures this.classLists == classLists && Valid()
    {
      this.classLists := classLists;
    }
  }

  // ---------------------------------------------------------------------------
  // Class updates as functions of the class lists

  /** `cleanupColoredTagClasses` on the lists: each target in turn is cleaned for `keep`. */
  function CleanAll(m: map<nat, seq<string>>, targets: seq<nat>, keep: string): map<nat, seq<string>>
    decreases |targets|
  {
    if |targets| == 0 then m
    else
      var prev := CleanAll(m, targets[..|targets| - 1], keep);
      var t := targets[|targets| - 1];
      if t in prev then prev[t := Cleaned(prev[t], keep)] else prev
  }

  /** The adding loop of `applyColoredTagClass`: each target in turn gets `cls`. */
  function AddAll(m: map<nat, seq<string>>, targets: seq<nat>, cls: string): map<nat, seq<string>>
    decreases |targets|
  {
    if |targets| == 0 then m
    else
      var prev := AddAll(m, targets[..|targets| - 1], cls);
      var t := targets[|targets| - 1];
      prev[t := AddClass(ClassesOf(prev, t), cls)]
  }

  /** `applyColoredTagClass` on the lists. */
  function ApplyTagClass(m: map<nat, seq<string>>, targets: seq<nat>, tagText: Option<string>): map<nat, seq<string>> {
    match NormalizeTagText(tagText)
    case None => m
    case Some(name) => AddAll(CleanAll(m, targets, ColoredClass(name)), targets, ColoredClass(name))
  }

  /** Cleaning touches each target once, whatever its repeats, and only the targets. */
  lemma {:induction false} CleanAllAt(m: map<nat, seq<string>>, targets: seq<nat>, keep: string, n: nat)
    ensures n in CleanAll(m, targets, keep) <==> n in m
    ensures n in m ==> CleanAll(m, targets, keep)[n] == if n in targets then Cleaned(m[n], keep) else m[n]
    decreases |targets|
  {
    if |targets| > 0 {
      var init := targets[..|targets| - 1];
      var t := targets[|targets| - 1];
      CleanAllAt(m, init, keep, n);
      assert targets == init + [t];
      if n in m && n == t && n in init {
        CleanedIdempotent(m[n], keep);
      }
    }
  }

  /** Adding touches each target once, whatever its repeats, and only the targets. */
  lemma {:induction false} AddAllAt(m: map<nat, seq<string>>, targets: seq<nat>, cls: string, n: nat)
    ensures n in AddAll(m, targets, cls) <==> n in m || n in targets
    ensures ClassesOf(AddAll(m, targets, cls), n) == if n in targets then AddClass(ClassesOf(m, n), cls) else ClassesOf(m, n)
    decreases |targets|
  {
    if |targets| > 0 {
      var init := targets[..|targets| - 1];
      var t := targets[|targets| - 1];
      AddAllAt(m, init, cls, n);
      assert targets == init + [t];
    }
  }

  /**
   * After `applyColoredTagClass` each target's list is `Applied` for the normalized
   * name, every other list is unchanged, and text that normalizes to `null` changes nothing.
   */
  lemma ApplyTagClassAt(m: map<nat, seq<string>>, targets: seq<nat>, tagText: Option<string>, n: nat)
    ensures NormalizeTagText(tagText).None? ==> ApplyTagClass(m, targets, tagText) == m
    ensures n in ApplyTagClass(m, targets, tagText) <==> n in m || (n in targets && NormalizeTagText(tagText).Some?)
    ensures ClassesOf(ApplyTagClass(m, targets, tagText), n) ==
            if n in targets && NormalizeTagText(tagText).Some?
            then Applied(ClassesOf(m, n), ColoredClass(NormalizeTagText(tagText).value))
            else ClassesOf(m, n)
  {
    if NormalizeTagText(tagText).Some? {
      var cls := ColoredClass(NormalizeTagText(tagText).value);
      var cleaned := CleanAll(m, targets, cls);
      CleanAllAt(m, targets, cls, n);
      AddAllAt(cleaned, targets, cls, n);
      assert ClassesOf(cleaned, n) == if n in targets then Cleaned(ClassesOf(m, n), cls) else ClassesOf(m, n);
    }
  }

  /** Applying the same tag text twice leaves the lists of applying it once. */
  lemma ApplyTagClassTwice(m: map<nat, seq<string>>, targets: seq<nat>, tagText: Option<string>)
    ensures ApplyTagClass(ApplyTagClass(m, targets, tagText), targets, tagText) == ApplyTagClass(m, targets, tagText)
  {
    var once := ApplyTagClass(m, targets, tagText);
    var twice := ApplyTagClass(once, targets, tagText);
    forall n: nat
      ensures (n in twice <==> n in once) && (n in once ==> twice[n] == once[n])
    {
      ApplyTagClassAt(m, targets, tagText, n);
      ApplyTagClassAt(once, targets, tagText, n);
      if n in targets && NormalizeTagText(tagText).Some? {
        AppliedIdempotent(ClassesOf(m, n), ColoredClass(NormalizeTagText(tagText).value));
      }
    }
    assert twice.Keys == once.Keys;
  }

  /** Updates keep every class list free of repeats. */
  lemma ApplyTagClassNoDup(m: map<nat, seq<string>>, targets: seq<nat>, tagText: Option<string>)
    requires forall n :: n in m ==> NoDup(m[n])
    ensures var r := ApplyTagClass(m, targets, tagText); forall n :: n in r ==> NoDup(r[n])
  {
    var r := ApplyTagClass(m, targets, tagText);
    forall n | n in r
      ensures NoDup(r[n])
    {
      ApplyTagClassAt(m, targets, tagText, n);
      if n in targets && NormalizeTagText(tagText).Some? {
        AppliedClasses(ClassesOf(m, n), ColoredClass(NormalizeTagText(tagText).value));
      }
    }
  }

  /**
   * The candidates of `applyColoredTagClassesInRoot`: the root first when it is an
   * element matching the selector, then the matching descendants in document order.
   */
  function Candidates(dom: Dom, selector: string, root: nat): (r: seq<nat>)
    ensures |r| == |dom.query(root, selector)| + (if dom.kind(root) == ElementNode && dom.matches(root, selector) then 1 else 0)
    ensures forall i :: 0 <= i < |dom.query(root, selector)| ==> r[|r| - |dom.query(root, selector)| + i] == dom.query(root, selector)[i]
    ensures dom.kind(root) == ElementNode && dom.matches(root, selector) ==> r[0] == root
  {
    (if dom.kind(root) == ElementNode && dom.matches(root, selector) then [root] else []) + dom.query(root, selector)
  }

  /** Each candidate in turn applies its text to its targets. */
  function ApplyCandidates(m: map<nat, seq<string>>, candidates: seq<nat>, getters: Getters): map<nat, seq<string>>
    decreases |candidates|
  {
    if |candidates| == 0 then m
    else
      var prev := ApplyCandidates(m, candidates[..|candidates| - 1], getters);
      var el := candidates[|candidates| - 1];
      ApplyTagClass(prev, getters.tagTargets(el), getters.tagText(el))
  }

  lemma ApplyCandidatesSnoc(m: map<nat, seq<string>>, candidates: seq<nat>, getters: Getters, i: nat)
    requires i < |candidates|
    ensures ApplyCandidates(m, candidates[..i + 1], getters) ==
            ApplyTagClass(ApplyCandidates(m, candidates[..i], getters), getters.tagTargets(candidates[i]), getters.tagText(candidates[i]))
  {
    assert candidates[..i + 1][..i] == candidates[..i];
  }

  /** An element that no candidate targets keeps its class list. */
  lemma {:induction false} ApplyCandidatesUntouched(m: map<nat, seq<string>>, candidates: seq<nat>, getters: Getters, n: nat)
    requires forall i :: 0 <= i < |candidates| ==> n !in getters.tagTargets(candidates[i])
    ensures ClassesOf(ApplyCandidates(m, candidates, getters), n) == ClassesOf(m, n)
    decreases |candidates|
  {
    if |candidates| > 0 {
      var init := candidates[..|candidates| - 1];
      var el := candidates[|candidates| - 1];
      ApplyCandidatesUntouched(m, init, getters, n);
      ApplyTagClassAt(ApplyCandidates(m, init, getters), getters.tagTargets(el), getters.tagText(el), n);
    }
  }

  /**
   * With the default targets and distinct candidates, every candidate's list ends
   * `Applied` for its own normalized text, or unchanged when the text normalizes to `null`.
   */
  lemma {:induction false} ApplyCandidatesEach(m: map<nat, seq<string>>, candidates: seq<nat>, text: nat -> Option<string>, i: nat)
    requires NoDup(candidates) && i < |candidates|
    ensures var el := candidates[i];
            ClassesOf(ApplyCandidates(m, candidates, Getters(text, DefaultTargets())), el) ==
            if NormalizeTagText(text(el)).Some? then Applied(ClassesOf(m, el), ColoredClass(NormalizeTagText(text(el)).value))
            else ClassesOf(m, el)
    decreases |candidates|
  {
    var n := |candidates| - 1;
    if i < n {
      var getters := Getters(text, DefaultTargets());
      var init := candidates[..n];
      var el := candidates[i];
      assert init[i] == el;
      assert NoDup(init);
      ApplyCandidatesEach(m, init, text, i);
      assert el != candidates[n];
      ApplyTagClassAt(ApplyCandidates(m, init, getters), [candidates[n]], text(candidates[n]), el);
    } else {
      ApplyCandidatesLast(m, candidates, text);
    }
  }

  /** The last of distinct candidates is targeted by no earlier one. */
  lemma ApplyCandidatesLast(m: map<nat, seq<string>>, candidates: seq<nat>, text: nat -> Option<string>)
    requires NoDup(candidates) && |candidates| > 0
    ensures var el := candidates[|candidates| - 1];
            ClassesOf(ApplyCandidates(m, candidates, Getters(text, DefaultTargets())), el) ==
            if NormalizeTagText(text(el)).Some? then Applied(ClassesOf(m, el), ColoredClass(NormalizeTagText(text(el)).value))
            else ClassesOf(m, el)
  {
    var getters := Getters(text, DefaultTargets());
    var n := |candidates| - 1;
    var init := candidates[..n];
    var el := candidates[n];
    forall j | 0 <= j < |init|
      ensures el !in getters.tagTargets(init[j])
    {
      assert init[j] == candidates[j];
    }
    ApplyCandidatesUntouched(m, init, getters, el);
    ApplyTagClassAt(ApplyCandidates(m, init, getters), [el], text(el), el);
  }

  /** Each root in turn: what a frame flush does with its pending nodes. */
  function ApplyRoots(m: map<nat, seq<string>>, dom: Dom, selector: string, getters: Getters, roots: seq<nat>): map<nat, seq<string>>
    decreases |roots|
  {
    if |roots| == 0 then m
    else
      var prev := ApplyRoots(m, dom, selector, getters, roots[..|roots| - 1]);
      ApplyCandidates(prev, Candidates(dom, selector, roots[|roots| - 1]), getters)
  }

  lemma ApplyRootsSnoc(m: map<nat, seq<string>>, dom: Dom, selector: string, getters: Getters, roots: seq<nat>, i: nat)
    requires i < |roots|
    ensures ApplyRoots(m, dom, selector, getters, roots[..i + 1]) ==
            ApplyCandidates(ApplyRoots(m, dom, selector, getters, roots[..i]), Candidates(dom, selector, roots[i]), getters)
  {
    assert roots[..i + 1][..i] == roots[..i];
  }

  // ---------------------------------------------------------------------------
  // The class-list loops

  /** `cleanupColoredTagClasses`: drop every stale `colored-tag-` class from each target. */
  method CleanupColoredTagClasses(page: Page, targets: seq<nat>, newClassName: string)
    requires page.Valid()
    modifies page
    ensures page.classLists == CleanAll(old(page.classLists), targets, newClassName)
    ensures page.Valid()
  {
    var i := 0;
    while i < |targets|
      invariant 0 <= i <= |targets|
      invariant page.Valid()
      invariant page.classLists == CleanAll(old(page.classLists), targets[..i], newClassName)
    {
      CleanAllSnoc(old(page.classLists), targets, i, newClassName);
      RemoveStaleClasses(page, targets[i], newClassName);
      i := i + 1;
    }
    assert targets[..|targets|] == targets;
  }

  /**
   * The body of the cleanup loop for one element: over a snapshot of its classes,
   * each `colored-tag-` class other than `keep` is removed.
   */
  method RemoveStaleClasses(page: Page, el: nat, keep: string)
    requires page.Valid()
    modifies page
    ensures page.classLists == if el in old(page.classLists) then old(page.classLists)[el := Cleaned(old(page.classLists)[el], keep)] else old(page.classLists)
    ensures page.Valid()
  {
    ghost var before := page.classLists;
    var classes := ClassesOf(page.classLists, el);
    var j := 0;
    CleanLoopInit(before, el, classes, keep);
    while j < |classes|
      invariant CleanLoop(before, el, classes, j, keep, page.classLists)
    {
      var cls := classes[j];
      ghost var cur := page.classLists;
      if IsColored(cls) && cls != keep {
        page.classLists := page.classLists[el := RemoveClass(page.classLists[el], cls)];
      }
      CleanLoopStep(before, el, classes, j, keep, cur, page.classLists);
      j := j + 1;
    }
    CleanLoopDone(before, el, classes, keep, page.classLists);
  }

  /** After `j` classes of the snapshot, the element's list is the cleaned prefix and the untouched rest. */
  ghost predicate CleanLoop(before: map<nat, seq<string>>, el: nat, classes: seq<string>, j: nat, keep: string, cur: map<nat, seq<string>>) {
    j <= |classes| &&
    (el in before ==> cur == before[el := Cleaned(classes[..j], keep) + classes[j..]]) &&
    (el !in before ==> cur == before && classes == [])
  }

  lemma CleanLoopInit(before: map<nat, seq<string>>, el: nat, classes: seq<string>, keep: string)
    requires classes == ClassesOf(before, el)
    ensures CleanLoop(before, el, classes, 0, keep, before)
  {
    if el in before {
      assert Cleaned(classes[..0], keep) + classes[0..] == classes by {
        assert classes[..0] == [] && classes[0..] == classes;
      }
      MapSame(before, el);
    }
  }

  lemma CleanLoopStep(before: map<nat, seq<string>>, el: nat, classes: seq<string>, j: nat, keep: string,
                      cur: map<nat, seq<string>>, next: map<nat, seq<string>>)
    requires CleanLoop(before, el, classes, j, keep, cur) && j < |classes|
    requires forall n :: n in before ==> NoDup(before[n])
    requires classes == ClassesOf(before, el)
    requires el in cur
    requires next == if IsColored(classes[j]) && classes[j] != keep then cur[el := RemoveClass(cur[el], classes[j])] else cur
    ensures CleanLoop(before, el, classes, j + 1, keep, next)
  {
    var c := Cleaned(classes[..j], keep) + classes[j..];
    CleanStep(classes, j, keep);
    if IsColored(classes[j]) && classes[j] != keep {
      MapTwice(before, el, c, RemoveClass(c, classes[j]));
    }
  }

  lemma CleanLoopDone(before: map<nat, seq<string>>, el: nat, classes: seq<string>, keep: string, cur: map<nat, seq<string>>)
    requires CleanLoop(before, el, classes, |classes|, keep, cur)
    requires forall n :: n in before ==> NoDup(before[n])
    requires classes == ClassesOf(before, el)
    ensures cur == if el in before then before[el := Cleaned(before[el], keep)] else before
    ensures forall n :: n in cur ==> NoDup(cur[n])
  {
    assert Cleaned(classes[..|classes|], keep) + classes[|classes|..] == Cleaned(classes, keep) by {
      assert classes[..|classes|] == classes && classes[|classes|..] == [];
    }
    CleanKeepsNoDup(before, el, keep);
  }

  /** One class of the snapshot: it is removed exactly when the cleanup drops it. */
  lemma CleanStep(classes: seq<string>, j: nat, keep: string)
    requires NoDup(classes) && j < |classes|
    ensures var cls := classes[j];
            var cur := Cleaned(classes[..j], keep) + classes[j..];
            Cleaned(classes[..j + 1], keep) + classes[j + 1..] ==
            if IsColored(cls) && cls != keep then RemoveClass(cur, cls) else cur
  {
    var cls := classes[j];
    var done := Cleaned(classes[..j], keep);
    var rest := classes[j + 1..];
    CleanPrefix(classes, j, keep);
    assert classes[j..] == [cls] + rest;
    var cur := done + classes[j..];
    if IsColored(cls) && cls != keep {
      AbsentAfter(classes, j);
      RemoveSplit(done, cls, rest);
      assert Cleaned(classes[..j + 1], keep) + rest == RemoveClass(cur, cls);
    } else {
      assert (done + [cls]) + rest == done + ([cls] + rest);
      assert Cleaned(classes[..j + 1], keep) + rest == cur;
    }
  }

  /** Cleaning one more class of the list. */
  lemma CleanPrefix(classes: seq<string>, j: nat, keep: string)
    requires j < |classes|
    ensures !IsColored(classes[j]) || classes[j] == keep ==> Cleaned(classes[..j + 1], keep) == Cleaned(classes[..j], keep) + [classes[j]]
    ensures IsColored(classes[j]) && classes[j] != keep ==> Cleaned(classes[..j + 1], keep) == Cleaned(classes[..j], keep)
  {
    assert classes[..j + 1] == classes[..j] + [classes[j]];
    FilterAppend(classes[..j], [classes[j]], Stays(keep));
    FilterOne(classes[j], Stays(keep));
  }

  /** In a list without repeats, no class recurs after its own position. */
  lemma AbsentAfter(classes: seq<string>, j: nat)
    requires NoDup(classes) && j < |classes|
    ensures classes[j] !in classes[j + 1..]
  {
    var rest := classes[j + 1..];
    forall k | 0 <= k < |rest|
      ensures rest[k] != classes[j]
    {
      assert rest[k] == classes[j + 1 + k];
    }
  }

  lemma FilterOne<T>(x: T, p: T -> bool)
    ensures Filter([x], p) == if p(x) then [x] else []
  {
    assert [x][1..] == [];
  }

  /** Removing `cls` from `a + [cls] + b` when neither side holds it. */
  lemma RemoveSplit(a: seq<string>, cls: string, b: seq<string>)
    requires cls !in a && cls !in b
    ensures RemoveClass(a + ([cls] + b), cls) == a + b
  {
    FilterAppend(a, [cls] + b, Except(cls));
    FilterAppend([cls], b, Except(cls));
    FilterOne(cls, Except(cls));
    RemoveAbsent(a, cls);
    RemoveAbsent(b, cls);
  }

  lemma MapTwice<K, V>(m: map<K, V>, k: K, a: V, b: V)
    ensures m[k := a][k := b] == m[k := b]
  {
  }

  lemma MapSame<K, V>(m: map<K, V>, k: K)
    requires k in m
    ensures m[k := m[k]] == m
  {
  }

  lemma RemoveAbsent(s: seq<string>, cls: string)
    requires cls !in s
    ensures Filter(s, Except(cls)) == s
  {
    FilterAll(s, Except(cls));
  }

  lemma CleanAllSnoc(m: map<nat, seq<string>>, targets: seq<nat>, i: nat, keep: string)
    requires i < |targets|
    ensures var prev := CleanAll(m, targets[..i], keep);
            var t := targets[i];
            CleanAll(m, targets[..i + 1], keep) == if t in prev then prev[t := Cleaned(prev[t], keep)] else prev
  {
    assert targets[..i + 1][..i] == targets[..i];
  }

  lemma CleanKeepsNoDup(m: map<nat, seq<string>>, el: nat, keep: string)
    requires forall n :: n in m ==> NoDup(m[n])
    ensures var r := if el in m then m[el := Cleaned(m[el], keep)] else m;
            forall n :: n in r ==> NoDup(r[n])
  {
  }

  /** `applyColoredTagClass`: clean the targets for the normalized name, then add its class where missing. */
  method ApplyColoredTagClass(page: Page, targets: seq<nat>, tagText: Option<string>)
    requires page.Valid()
    modifies page
    ensures page.classLists == ApplyTagClass(old(page.classLists), targets, tagText)
    ensures page.Valid()
  {
    var normalizedTag := NormalizeTagText(tagText);
    if normalizedTag.None? {
      return;
    }
    var className := ColoredClass(normalizedTag.value);
    CleanupColoredTagClasses(page, targets, className);
    ghost var cleaned := page.classLists;
    var i := 0;
    while i < |targets|
      invariant 0 <= i <= |targets|
      invariant page.classLists == AddAll(cleaned, targets[..i], className)
    {
      var el := targets[i];
      if className !in ClassesOf(page.classLists, el) {
        page.classLists := page.classLists[el := AddClass(ClassesOf(page.classLists, el), className)];
      }
      AddAllSnoc(cleaned, targets, i, className);
      i := i + 1;
    }
    assert targets[..|targets|] == targets;
    ApplyTagClassNoDup(old(page.classLists), targets, tagText);
  }

  lemma AddAllSnoc(m: map<nat, seq<string>>, targets: seq<nat>, i: nat, cls: string)
    requires i < |targets|
    ensures var prev := AddAll(m, targets[..i], cls);
            var t := targets[i];
            AddAll(m, targets[..i + 1], cls) == (if cls in ClassesOf(prev, t) then prev else prev[t := AddClass(ClassesOf(prev, t), cls)])
  {
    assert targets[..i + 1][..i] == targets[..i];
    var prev := AddAll(m, targets[..i], cls);
    var t := targets[i];
    if cls in ClassesOf(prev, t) {
      assert t in prev;
      MapSame(prev, t);
    }
  }

  /** `applyColoredTagClassesInRoot`: every candidate, in order, with its own text and targets. */
  method ApplyColoredTagClassesInRoot(page: Page, dom: Dom, root: nat, selector: string, getters: Getters)
    requires page.Valid()
    modifies page
    ensures page.classLists == ApplyCandidates(old(page.classLists), Candidates(dom, selector, root), getters)
    ensures page.Valid()
  {
    var candidates: seq<nat> := [];
    if dom.kind(root) == ElementNode && dom.matches(root, selector) {
      candidates := candidates + [root];
    }
    candidates := candidates + dom.query(root, selector);
    assert candidates == Candidates(dom, selector, root);
    ghost var start := page.classLists;
    var i := 0;
    while i < |candidates|
      invariant 0 <= i <= |candidates|
      invariant page.Valid()
      invariant page.classLists == ApplyCandidates(start, candidates[..i], getters)
    {
      var el := candidates[i];
      ApplyCandidatesSnoc(start, candidates, getters, i);
      ApplyColoredTagClass(page, getters.tagTargets(el), getters.tagText(el));
      i := i + 1;
    }
    assert candidates[..|candidates|] == candidates;
  }

  // ---------------------------------------------------------------------------
  // The applier and its frame batching

  /** The records the observer delivers, reduced to what `handleMutation` reads. */
  datatype Mutation = CharacterData(target: nat) | ChildList(addedNodes: seq<nat>)

  /** Nodes `handleMutation` passes to `scheduleApply` for a `childList` record. */
  predicate Schedulable(dom: Dom, node: nat) {
    dom.kind(node) == ElementNode || dom.kind(node) == FragmentNode
  }

  /** The `instanceof HTMLElement || instanceof DocumentFragment` filter over added nodes, in order. */
  function ElementsAndFragments(dom: Dom, nodes: seq<nat>): (r: seq<nat>)
    ensures |r| <= |nodes|
    ensures forall i :: 0 <= i < |r| ==> Schedulable(dom, r[i])
  {
    if |nodes| == 0 then []
    else
      var init := nodes[..|nodes| - 1];
      var last := nodes[|nodes| - 1];
      assert nodes == init + [last];
      ElementsAndFragments(dom, init) + (if Schedulable(dom, last) then [last] else [])
  }

  /** The nodes a record schedules, in order: the text node's parent, or the added elements and fragments. */
  function ScheduledBy(dom: Dom, record: Mutation): (r: seq<nat>)
    ensures record.CharacterData? ==> |r| <= 1
    ensures record.ChildList? ==> forall x :: x in r <==> x in record.addedNodes && Schedulable(dom, x)
  {
    match record
    case CharacterData(target) =>
      if dom.parentNode(target).Some? then [dom.parentNode(target).value] else []
    case ChildList(addedNodes) =>
      ElementsAndFragmentsMembers(dom, addedNodes);
      ElementsAndFragments(dom, addedNodes)
  }

  /** `pendingNodes.add` for each node in turn. */
  function AddEach(pending: seq<nat>, nodes: seq<nat>): seq<nat>
    decreases |nodes|
  {
    if |nodes| == 0 then pending
    else AddEach(AddLast(pending, nodes[0]), nodes[1..])
  }

  /** After adding nodes the pending set holds the old nodes and the new ones. */
  lemma {:induction false} AddEachElems(pending: seq<nat>, nodes: seq<nat>)
    ensures Elems(AddEach(pending, nodes)) == Elems(pending) + Elems(nodes)
    decreases |nodes|
  {
    if |nodes| > 0 {
      AddEachElems(AddLast(pending, nodes[0]), nodes[1..]);
      assert nodes == [nodes[0]] + nodes[1..];
      assert Elems(nodes) == {nodes[0]} + Elems(nodes[1..]);
    }
  }

  /** A pending set without repeats keeps none after adding nodes. */
  lemma {:induction false} AddEachNoDup(pending: seq<nat>, nodes: seq<nat>)
    requires NoDup(pending)
    ensures NoDup(AddEach(pending, nodes))
    decreases |nodes|
  {
    if |nodes| > 0 {
      AddEachNoDup(AddLast(pending, nodes[0]), nodes[1..]);
    }
  }

  /** Adding nodes leaves the old pending nodes first, in their order. */
  lemma {:induction false} AddEachPrefix(pending: seq<nat>, nodes: seq<nat>)
    ensures |AddEach(pending, nodes)| >= |pending| && AddEach(pending, nodes)[..|pending|] == pending
    decreases |nodes|
  {
    if |nodes| > 0 {
      var next := AddLast(pending, nodes[0]);
      var r := AddEach(next, nodes[1..]);
      AddEachPrefix(next, nodes[1..]);
      assert next[..|pending|] == pending;
      assert r[..|pending|] == r[..|next|][..|pending|];
    }
  }

  /**
   * `TagApplier`: the pending set, in insertion order, and the handle of the frame
   * that will flush it. `frameRequests` counts the frames requested so far; a request
   * returns the new count as its id.
   */
  class TagApplier {
    const selector: string
    const getters: Getters
    var pendingNodes: seq<nat>
    var flushHandle: Option<nat>
    var frameRequests: nat
    var observedRoot: Option<nat>

    /** A frame is outstanding exactly while some node waits for it. */
    ghost predicate Valid()
      reads this
    {
      NoDup(pendingNodes) && (flushHandle.Some? <==> |pendingNodes| > 0)
    }

    constructor(selector: string, getters: Getters)
      ensures this.selector == selector && this.getters == getters
      ensures pendingNodes == [] && flushHandle == None && frameRequests == 0 && observedRoot == None
      ensures Valid()
    {
      this.selector := selector;
      this.getters := getters;
      pendingNodes := [];
      flushHandle := None;
      frameRequests := 0;
      observedRoot := None;
    }

    /** `apply`: the root pass with this applier's selector and getters. */
    method Apply(page: Page, dom: Dom, root: nat)
      requires page.Valid()
      modifies page
      ensures page.classLists == ApplyCandidates(old(page.classLists), Candidates(dom, selector, root), getters)
      ensures page.Valid()
    {
      ApplyColoredTagClassesInRoot(page, dom, root, selector, getters);
    }

    /** `start`: stop, apply once to the root, then observe it. */
    method Start(page: Page, dom: Dom, root: nat)
      requires page.Valid()
      modifies this, page
      ensures page.classLists == ApplyCandidates(old(page.classLists), Candidates(dom, selector, root), getters)
      ensures observedRoot == Some(root) && page.Valid()
      ensures pendingNodes == old(pendingNodes) && flushHandle == old(flushHandle) && frameRequests == old(frameRequests)
    {
      Stop();
      Apply(page, dom, root);
      observedRoot := Some(root);
    }

    /** `stop`: disconnect the observer. */
    method Stop()
      modifies this
      ensures observedRoot == None
      ensures pendingNodes == old(pendingNodes) && flushHandle == old(flushHandle) && frameRequests == old(frameRequests)
    {
      observedRoot := None;
    }

    /**
     * `scheduleApply`: remember the node, and request a frame unless one is already
     * outstanding.
     */
    method ScheduleApply(target: nat)
      requires Valid()
      modifies this
      ensures pendingNodes == AddLast(old(pendingNodes), target)
      ensures frameRequests == old(frameRequests) + (if old(flushHandle).None? then 1 else 0)
      ensures flushHandle == if old(flushHandle).None? then Some(frameRequests) else old(flushHandle)
      ensures observedRoot == old(observedRoot)
      ensures Valid()
    {
      pendingNodes := AddLast(pendingNodes, target);
      if flushHandle.Some? {
        return;
      }
      frameRequests := frameRequests + 1;
      flushHandle := Some(frameRequests);
    }

    /** `handleMutation`: schedule the parent of changed text, or each added element or fragment. */
    method HandleMutation(dom: Dom, record: Mutation)
      requires Valid()
      modifies this
      ensures pendingNodes == AddEach(old(pendingNodes), ScheduledBy(dom, record))
      ensures frameRequests == old(frameRequests) + (if old(flushHandle).None? && |ScheduledBy(dom, record)| > 0 then 1 else 0)
      ensures observedRoot == old(observedRoot)
      ensures Valid()
    {
      if record.CharacterData? {
        var parent := dom.parentNode(record.target);
        if parent.Some? {
          ScheduleApply(parent.value);
        }
        return;
      }
      ScheduleAdded(dom, record.addedNodes);
    }

    /** Schedule `node` when it is an element or a fragment; leave everything as it is otherwise. */
    method ScheduleIfElement(dom: Dom, node: nat)
      requires Valid()
      modifies this
      ensures Schedulable(dom, node) ==> pendingNodes == AddLast(old(pendingNodes), node) && frameRequests == old(frameRequests) + (if old(flushHandle).None? then 1 else 0)
      ensures !Schedulable(dom, node) ==> pendingNodes == old(pendingNodes) && frameRequests == old(frameRequests)
      ensures if Schedulable(dom, node) then flushHandle.Some? else flushHandle == old(flushHandle)
      ensures observedRoot == old(observedRoot)
      ensures Valid()
    {
      if Schedulable(dom, node) {
        ScheduleApply(node);
      }
    }

    /** The `childList` half of `handleMutation`: schedule each added element or fragment. */
    method ScheduleAdded(dom: Dom, added: seq<nat>)
      requires Valid()
      modifies this
      ensures pendingNodes == AddEach(old(pendingNodes), ElementsAndFragments(dom, added))
      ensures frameRequests == old(frameRequests) + (if old(flushHandle).None? && |ElementsAndFragments(dom, added)| > 0 then 1 else 0)
      ensures observedRoot == old(observedRoot)
      ensures Valid()
    {
      ghost var start, startHandle, startRequests := pendingNodes, flushHandle, frameRequests;
      ghost var scheduled: seq<nat> := [];
      var i := 0;
      assert added[..0] == [];
      while i < |added|
        invariant i <= |added| && Valid() && observedRoot == old(observedRoot)
        invariant scheduled == ElementsAndFragments(dom, added[..i])
        invariant pendingNodes == AddEach(start, scheduled)
        invariant frameRequests == startRequests + (if startHandle.None? && |scheduled| > 0 then 1 else 0)
        invariant flushHandle.None? <==> startHandle.None? && |scheduled| == 0
      {
        ElementsAndFragmentsStep(dom, added, i);
        AddEachSnoc(start, scheduled, added[i]);
        ScheduleIfElement(dom, added[i]);
        if Schedulable(dom, added[i]) {
          scheduled := scheduled + [added[i]];
        }
        i := i + 1;
      }
      assert added[..|added|] == added;
    }

    /**
     * The frame callback: clear the handle, take the pending nodes, empty the set and
     * apply to each node in turn.
     */
    method FrameFires(page: Page, dom: Dom)
      requires Valid() && page.Valid() && flushHandle.Some?
      modifies this, page
      ensures page.classLists == ApplyRoots(old(page.classLists), dom, selector, getters, old(pendingNodes))
      ensures pendingNodes == [] && flushHandle == None
      ensures frameRequests == old(frameRequests) && observedRoot == old(observedRoot)
      ensures Valid() && page.Valid()
    {
      flushHandle := None;
      var nodes := pendingNodes;
      pendingNodes := [];
      var i := 0;
      while i < |nodes|
        invariant 0 <= i <= |nodes|
        invariant page.Valid()
        invariant page.classLists == ApplyRoots(old(page.classLists), dom, selector, getters, nodes[..i])
        invariant pendingNodes == [] && flushHandle == None
        invariant frameRequests == old(frameRequests) && observedRoot == old(observedRoot)
      {
        ApplyRootsSnoc(old(page.classLists), dom, selector, getters, nodes, i);
        Apply(page, dom, nodes[i]);
        i := i + 1;
      }
      assert nodes[..|nodes|] == nodes;
    }
  }

  /** The filter keeps exactly the schedulable added nodes. */
  lemma {:induction false} ElementsAndFragmentsMembers(dom: Dom, nodes: seq<nat>)
    ensures forall x :: x in ElementsAndFragments(dom, nodes) <==> x in nodes && Schedulable(dom, x)
    decreases |nodes|
  {
    if |nodes| > 0 {
      var init := nodes[..|nodes| - 1];
      assert nodes == init + [nodes[|nodes| - 1]];
      ElementsAndFragmentsMembers(dom, init);
    }
  }

  /** One more added node extends the filtered prefix by that node exactly when it is schedulable. */
  lemma ElementsAndFragmentsStep(dom: Dom, added: seq<nat>, i: nat)
    requires i < |added|
    ensures ElementsAndFragments(dom, added[..i + 1])
         == ElementsAndFragments(dom, added[..i]) + (if Schedulable(dom, added[i]) then [added[i]] else [])
  {
    assert added[..i + 1][..i] == added[..i];
  }

  lemma {:induction false} AddEachSnoc(pending: seq<nat>, nodes: seq<nat>, x: nat)
    ensures AddEach(pending, nodes + [x]) == AddLast(AddEach(pending, nodes), x)
    decreases |nodes|
  {
    if |nodes| > 0 {
      assert (nodes + [x])[1..] == nodes[1..] + [x];
      AddEachSnoc(AddLast(pending, nodes[0]), nodes[1..], x);
    }
  }
}
