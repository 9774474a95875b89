/**
 * `applyColoredClasses`, the CodeMirror view plugin's pass over the `cm-hashtag`
 * elements of the editor in document order. An element whose trimmed text is `#`
 * becomes the current hash element; every later element gets the class
 * `colored-tag-<lower-cased trimmed text>`, and so does the current hash element.
 *
 * The page is the map of class lists of `TagApplying.Page`; it holds a list for every
 * element the pass visits. `innerText` is a function of the element. The pass is
 * stated for any test that picks the hash elements and any naming of the classes;
 * `HashTest` and `ClassNaming` are the ones the plugin uses.
 */
module HashtagClasses {
  import opened Seqs
  import opened Strings
  import opened ClassLists
  import opened TagApplying

  /** `el.innerText.trim() === "#"`, for each element. */
  function HashTest(innerText: nat -> string): nat -> bool {
    (n: nat) => Trim(innerText(n)) == "#"
  }

  /** `colored-tag-${text.toLowerCase()}` for each element's trimmed text. */
  function ClassNaming(innerText: nat -> string): nat -> string {
    (n: nat) => ColoredClass(ToLower(Trim(innerText(n))))
  }

  /** `currentHashEl` once the given elements are visited: the last whose text is `#`. */
  function LastHash(hashes: nat -> bool, nodes: seq<nat>): (r: Option<nat>)
    ensures r.Some? ==> hashes(r.value)
    decreases |nodes|
  {
    if |nodes| == 0 then None
    else if hashes(nodes[|nodes| - 1]) then Some(nodes[|nodes| - 1])
    else LastHash(hashes, nodes[..|nodes| - 1])
  }

  // ---------------------------------------------------------------------------
  // One tag element and its hash element, on the class lists

  /** The classes a cleanup for `keep` takes away: `colored-tag-` classes other than `keep`. */
  function IsStale(keep: string): string -> bool {
    cls => IsColored(cls) && cls != keep
  }

  /** The stale classes of a list, in list order. */
  function Stale(list: seq<string>, keep: string): seq<string> {
    Filter(list, IsStale(keep))
  }

  /** `classList.remove(cls)` for each of `classes` in turn. */
  function RemoveEach(list: seq<string>, classes: seq<string>): seq<string>
    decreases |classes|
  {
    if |classes| == 0 then list
    else RemoveClass(RemoveEach(list, classes[..|classes| - 1]), classes[|classes| - 1])
  }

  /** `cleanupOldClasses` on the lists: the element's stale classes leave the element and the hash element. */
  function Strip(m: map<nat, seq<string>>, el: nat, hash: nat, keep: string): map<nat, seq<string>> {
    var list := ClassesOf(m, el);
    m[el := Cleaned(list, keep)][hash := RemoveEach(ClassesOf(m, hash), Stale(list, keep))]
  }

  /** `applyClassName` on the lists: both get `cls` when the element lacks it. */
  function Give(m: map<nat, seq<string>>, el: nat, hash: nat, cls: string): map<nat, seq<string>> {
    if cls in ClassesOf(m, el) then m
    else
      var m1 := m[el := AddClass(ClassesOf(m, el), cls)];
      m1[hash := AddClass(ClassesOf(m1, hash), cls)]
  }

  /** One visited tag element: cleanup, then the class. */
  function Tag(m: map<nat, seq<string>>, el: nat, hash: nat, cls: string): map<nat, seq<string>> {
    Give(Strip(m, el, hash, cls), el, hash, cls)
  }

  /** `applyColoredClasses` on the lists, one visited element at a time. */
  function ApplyAll(m: map<nat, seq<string>>, hashes: nat -> bool, classes: nat -> string, nodes: seq<nat>): map<nat, seq<string>>
    decreases |nodes|
  {
    if |nodes| == 0 then m
    else
      var init := nodes[..|nodes| - 1];
      var el := nodes[|nodes| - 1];
      var prev := ApplyAll(m, hashes, classes, init);
      var hash := LastHash(hashes, init);
      if hashes(el) || hash.None? then prev
      else Tag(prev, el, hash.value, classes(el))
  }

  // ---------------------------------------------------------------------------
  // The methods

  /**
   * `cleanupOldClasses`: over a snapshot of the element's classes, each `colored-tag-`
   * class other than `newClassName` is removed from the element and from the hash element.
   */
  method CleanupOldClasses(page: Page, el: nat, hashEl: nat, newClassName: string)
    requires page.Valid() && el in page.classLists && hashEl in page.classLists && el != hashEl
    modifies page
    ensures page.classLists == Strip(old(page.classLists), el, hashEl, newClassName)
    ensures page.Valid()
  {
    ghost var before := page.classLists;
    var classes := page.classLists[el];
    var j := 0;
    StripLoopInit(before, el, hashEl, newClassName);
    while j < |classes|
      invariant StripLoop(before, el, hashEl, classes, j, newClassName, page.classLists)
    {
      var cls := classes[j];
      ghost var cur := page.classLists;
      if IsColored(cls) && cls != newClassName {
        page.classLists := page.classLists[el := RemoveClass(page.classLists[el], cls)];
        page.classLists := page.classLists[hashEl := RemoveClass(page.classLists[hashEl], cls)];
      }
      StripLoopStep(before, el, hashEl, classes, j, newClassName, cur, page.classLists);
      j := j + 1;
    }
    StripLoopDone(before, el, hashEl, classes, newClassName, page.classLists);
  }

  /** `applyClassName`: the element and the hash element get the class only when the element lacks it. */
  method ApplyClassName(page: Page, el: nat, hashEl: nat, className: string)
    requires page.Valid()
    modifies page
    ensures page.classLists == Give(old(page.classLists), el, hashEl, className)
    ensures page.Valid()
  {
    var list := ClassesOf(page.classLists, el);
    if className !in list {
      page.classLists := page.classLists[el := AddClass(list, className)];
      page.classLists := page.classLists[hashEl := AddClass(ClassesOf(page.classLists, hashEl), className)];
    }
  }

  /** `applyColoredClasses` over the `cm-hashtag` elements in document order. */
  method ApplyColoredClasses(page: Page, innerText: nat -> string, nodes: seq<nat>)
    requires page.Valid() && forall n :: n in nodes ==> n in page.classLists
    modifies page
    ensures page.classLists == ApplyAll(old(page.classLists), HashTest(innerText), ClassNaming(innerText), nodes)
    ensures page.Valid()
  {
    ghost var start := page.classLists;
    ghost var hashes, classes := HashTest(innerText), ClassNaming(innerText);
    var currentHashEl: Option<nat> := None;
    var i := 0;
    ApplyLoopInit(start, hashes, classes, nodes);
    while i < |nodes|
      invariant page.Valid()
      invariant ApplyLoop(start, hashes, classes, nodes, i, currentHashEl, page.classLists)
    {
      var el := nodes[i];
      var text := Trim(innerText(el));
      ghost var cur, hash := page.classLists, currentHashEl;
      ApplyLoopKeys(start, hashes, classes, nodes, i, currentHashEl, page.classLists);
      if text == "#" {
        currentHashEl := Some(el);
      } else if currentHashEl.Some? {
        var className := ColoredClass(ToLower(text));
        CleanupOldClasses(page, el, currentHashEl.value, className);
        ApplyClassName(page, el, currentHashEl.value, className);
      }
      ApplyLoopStep(start, hashes, classes, nodes, i, hash, cur, currentHashEl, page.classLists);
      i := i + 1;
    }
    ApplyLoopDone(start, hashes, classes, nodes, currentHashEl, page.classLists);
  }

  // ---------------------------------------------------------------------------
  // Loop lemmas

  /** After `j` classes of the snapshot: the element is cleaned up to `j`, the hash element lost their stale ones. */
  ghost predicate StripLoop(before: map<nat, seq<string>>, el: nat, hash: nat, classes: seq<string>, j: nat, keep: string,
                            cur: map<nat, seq<string>>) {
    j <= |classes| && el in before && hash in before && el != hash && classes == before[el] &&
    cur == before[el := Cleaned(classes[..j], keep) + classes[j..]][hash := RemoveEach(before[hash], Stale(classes[..j], keep))]
  }

  lemma StripLoopInit(before: map<nat, seq<string>>, el: nat, hash: nat, keep: string)
    requires el in before && hash in before && el != hash
    ensures StripLoop(before, el, hash, before[el], 0, keep, before)
  {
    var classes := before[el];
    assert Cleaned(classes[..0], keep) + classes[0..] == classes by {
      assert classes[..0] == [] && classes[0..] == classes;
    }
    assert Stale(classes[..0], keep) == [] by {
      assert classes[..0] == [];
    }
    MapSame(before, el);
    MapSame(before, hash);
  }

  lemma StripLoopStep(before: map<nat, seq<string>>, el: nat, hash: nat, classes: seq<string>, j: nat, keep: string,
                      cur: map<nat, seq<string>>, next: map<nat, seq<string>>)
    requires StripLoop(before, el, hash, classes, j, keep, cur) && j < |classes|
    requires NoDup(before[el])
    requires next == if IsColored(classes[j]) && classes[j] != keep then cur[el := RemoveClass(cur[el], classes[j])][hash := RemoveClass(cur[hash], classes[j])] else cur
    ensures StripLoop(before, el, hash, classes, j + 1, keep, next)
  {
    var c := classes[j];
    var cleaned := Cleaned(classes[..j], keep) + classes[j..];
    var stale := Stale(classes[..j], keep);
    CleanStep(classes, j, keep);
    StalePrefix(classes, j, keep);
    if IsColored(c) && c != keep {
      assert RemoveEach(before[hash], stale + [c]) == RemoveClass(RemoveEach(before[hash], stale), c) by {
        assert (stale + [c])[..|stale|] == stale;
      }
      assert cur[el] == cleaned && cur[hash] == RemoveEach(before[hash], stale);
      MapPairTwice(before, el, hash, cleaned, RemoveEach(before[hash], stale),
                   RemoveClass(cleaned, c), RemoveClass(RemoveEach(before[hash], stale), c));
    } else {
      assert Cleaned(classes[..j + 1], keep) + classes[j + 1..] == cleaned;
      assert Stale(classes[..j + 1], keep) == stale;
    }
  }

  lemma StripLoopDone(before: map<nat, seq<string>>, el: nat, hash: nat, classes: seq<string>, keep: string, cur: map<nat, seq<string>>)
    requires StripLoop(before, el, hash, classes, |classes|, keep, cur)
    requires forall n :: n in before ==> NoDup(before[n])
    ensures cur == Strip(before, el, hash, keep)
    ensures forall n :: n in cur ==> NoDup(cur[n])
  {
    assert Cleaned(classes[..|classes|], keep) + classes[|classes|..] == Cleaned(classes, keep) by {
      assert classes[..|classes|] == classes && classes[|classes|..] == [];
    }
    assert Stale(classes[..|classes|], keep) == Stale(classes, keep) by {
      assert classes[..|classes|] == classes;
    }
    RemoveEachNoDup(before[hash], Stale(classes, keep));
  }

  /** The stale classes of one more class of the snapshot. */
  lemma StalePrefix(classes: seq<string>, j: nat, keep: string)
    requires j < |classes|
    ensures Stale(classes[..j + 1], keep) == Stale(classes[..j], keep) + (if IsColored(classes[j]) && classes[j] != keep then [classes[j]] else [])
  {
    assert classes[..j + 1] == classes[..j] + [classes[j]];
    FilterAppend(classes[..j], [classes[j]], IsStale(keep));
    FilterOne(classes[j], IsStale(keep));
  }

  lemma MapPairTwice<K, V>(m: map<K, V>, k1: K, k2: K, a: V, b: V, a': V, b': V)
    requires k1 != k2
    ensures m[k1 := a][k2 := b][k1 := a'][k2 := b'] == m[k1 := a'][k2 := b']
  {
  }

  lemma {:induction false} RemoveEachNoDup(list: seq<string>, classes: seq<string>)
    requires NoDup(list)
    ensures NoDup(RemoveEach(list, classes))
    decreases |classes|
  {
    if |classes| > 0 {
      RemoveEachNoDup(list, classes[..|classes| - 1]);
    }
  }

  /** After `i` elements: the lists are those of the first `i` steps and `currentHashEl` is the last hash so far. */
  ghost predicate ApplyLoop(start: map<nat, seq<string>>, hashes: nat -> bool, classes: nat -> string, nodes: seq<nat>, i: nat,
                            hash: Option<nat>, cur: map<nat, seq<string>>) {
    i <= |nodes| &&
    (forall n :: n in nodes ==> n in start) &&
    start.Keys <= cur.Keys &&
    (hash.Some? ==> hash.value in nodes) &&
    cur == ApplyAll(start, hashes, classes, nodes[..i]) &&
    hash == LastHash(hashes, nodes[..i])
  }

  lemma ApplyLoopInit(start: map<nat, seq<string>>, hashes: nat -> bool, classes: nat -> string, nodes: seq<nat>)
    requires forall n :: n in nodes ==> n in start
    ensures ApplyLoop(start, hashes, classes, nodes, 0, None, start)
  {
    assert nodes[..0] == [];
  }

  lemma ApplyLoopKeys(start: map<nat, seq<string>>, hashes: nat -> bool, classes: nat -> string, nodes: seq<nat>, i: nat,
                      hash: Option<nat>, cur: map<nat, seq<string>>)
    requires ApplyLoop(start, hashes, classes, nodes, i, hash, cur) && i < |nodes|
    ensures nodes[i] in cur
    ensures hash.Some? ==> hash.value in cur && hashes(hash.value)
  {
  }

  lemma ApplyLoopStep(start: map<nat, seq<string>>, hashes: nat -> bool, classes: nat -> string, nodes: seq<nat>, i: nat,
                      hash: Option<nat>, cur: map<nat, seq<string>>, hash': Option<nat>, next: map<nat, seq<string>>)
    requires ApplyLoop(start, hashes, classes, nodes, i, hash, cur) && i < |nodes|
    requires hash' == if hashes(nodes[i]) then Some(nodes[i]) else hash
    requires next == if hashes(nodes[i]) || hash.None? then cur else Tag(cur, nodes[i], hash.value, classes(nodes[i]))
    ensures ApplyLoop(start, hashes, classes, nodes, i + 1, hash', next)
  {
    ApplyAllSnoc(start, hashes, classes, nodes, i);
  }

  lemma ApplyLoopDone(start: map<nat, seq<string>>, hashes: nat -> bool, classes: nat -> string, nodes: seq<nat>,
                      hash: Option<nat>, cur: map<nat, seq<string>>)
    requires ApplyLoop(start, hashes, classes, nodes, |nodes|, hash, cur)
    ensures cur == ApplyAll(start, hashes, classes, nodes)
  {
    assert nodes[..|nodes|] == nodes;
  }

  lemma ApplyAllSnoc(m: map<nat, seq<string>>, hashes: nat -> bool, classes: nat -> string, nodes: seq<nat>, i: nat)
    requires i < |nodes|
    ensures var prev := ApplyAll(m, hashes, classes, nodes[..i]);
            var hash := LastHash(hashes, nodes[..i]);
            ApplyAll(m, hashes, classes, nodes[..i + 1]) ==
            if hashes(nodes[i]) || hash.None? then prev else Tag(prev, nodes[i], hash.value, classes(nodes[i]))
    ensures LastHash(hashes, nodes[..i + 1]) == if hashes(nodes[i]) then Some(nodes[i]) else LastHash(hashes, nodes[..i])
  {
    assert nodes[..i + 1][..i] == nodes[..i];
  }

  // ---------------------------------------------------------------------------
  // What one step does

  /** `classList.remove` for each class keeps exactly the classes not among them. */
  lemma {:induction false} RemoveEachMembers(list: seq<string>, classes: seq<string>)
    ensures forall c :: c in RemoveEach(list, classes) <==> c in list && c !in classes
    decreases |classes|
  {
    if |classes| > 0 {
      var init := classes[..|classes| - 1];
      var last := classes[|classes| - 1];
      RemoveEachMembers(list, init);
      RemoveClassMembers(RemoveEach(list, init), last);
      assert classes == init + [last];
    }
  }

  lemma RemoveClassMembers(list: seq<string>, cls: string)
    ensures forall c :: c in RemoveClass(list, cls) <==> c in list && c != cls
  {
    var r := RemoveClass(list, cls);
    forall c | c in r
      ensures c in list
    {
      var i :| 0 <= i < |r| && r[i] == c;
    }
  }

  /** The stale classes of a list are its `colored-tag-` classes other than `keep`. */
  lemma StaleMembers(list: seq<string>, keep: string)
    ensures forall c :: c in Stale(list, keep) <==> c in list && IsColored(c) && c != keep
  {
    FilterKeeps(list, IsStale(keep));
    var r := Stale(list, keep);
    forall c | c in r
      ensures c in list && IsColored(c) && c != keep
    {
      var i :| 0 <= i < |r| && r[i] == c;
    }
  }

  /**
   * `cleanupOldClasses`: the element keeps its plain classes and `keep`; the hash
   * element loses exactly the element's stale classes, so a `colored-tag-` class held
   * only by the hash element stays; no other element changes.
   */
  lemma StripMembers(m: map<nat, seq<string>>, el: nat, hash: nat, keep: string)
    requires el != hash
    ensures forall c :: c in ClassesOf(Strip(m, el, hash, keep), el) <==> c in ClassesOf(m, el) && (!IsColored(c) || c == keep)
    ensures forall c :: c in ClassesOf(Strip(m, el, hash, keep), hash) <==>
                        c in ClassesOf(m, hash) && !(c in ClassesOf(m, el) && IsColored(c) && c != keep)
    ensures forall n :: n != el && n != hash ==> ClassesOf(Strip(m, el, hash, keep), n) == ClassesOf(m, n)
  {
    var list := ClassesOf(m, el);
    RemoveEachMembers(ClassesOf(m, hash), Stale(list, keep));
    StaleMembers(list, keep);
  }

  /**
   * One tag element: afterwards `cls` is its only `colored-tag-` class and its plain
   * classes stay; the hash element loses the element's stale classes and gains `cls`
   * only when the element lacked it; no other element changes.
   */
  lemma TagResult(m: map<nat, seq<string>>, el: nat, hash: nat, cls: string)
    requires el != hash
    ensures Settled(ClassesOf(Tag(m, el, hash, cls), el), cls)
    ensures forall c :: c in ClassesOf(m, el) && !IsColored(c) ==> c in ClassesOf(Tag(m, el, hash, cls), el)
    ensures forall c :: c in ClassesOf(Tag(m, el, hash, cls), hash) <==>
                        (c in ClassesOf(m, hash) && !(c in ClassesOf(m, el) && IsColored(c) && c != cls)) ||
                        (c == cls && cls !in ClassesOf(m, el))
    ensures forall n :: n != el && n != hash ==> ClassesOf(Tag(m, el, hash, cls), n) == ClassesOf(m, n)
  {
    var list := ClassesOf(m, el);
    var stripped := Strip(m, el, hash, cls);
    StripMembers(m, el, hash, cls);
    assert ClassesOf(stripped, el) == Cleaned(list, cls);
    assert ClassesOf(Tag(m, el, hash, cls), el) == Applied(list, cls);
    AppliedIdempotent(list, cls);
    AppliedClasses(list, cls);
    assert cls in Cleaned(list, cls) <==> cls in list;
  }

  lemma {:induction false} FilterNone<T>(s: seq<T>, p: T -> bool)
    requires forall i :: 0 <= i < |s| ==> !p(s[i])
    ensures Filter(s, p) == []
    decreases |s|
  {
    if |s| > 0 {
      FilterNone(s[1..], p);
    }
  }

  /** A tag element already settled on its class: the step changes nothing. */
  lemma TagOnSettled(m: map<nat, seq<string>>, el: nat, hash: nat, cls: string)
    requires el in m && hash in m && el != hash
    requires Settled(m[el], cls)
    ensures Tag(m, el, hash, cls) == m
  {
    var list := m[el];
    AppliedSettled(list, cls);
    FilterNone(list, IsStale(cls));
    MapSame(m, el);
    MapSame(m, hash);
  }

  // ---------------------------------------------------------------------------
  // What the whole pass does

  /** Elements before the first `#` are left alone, and no hash element is current yet. */
  lemma {:induction false} ApplyAllNoHash(m: map<nat, seq<string>>, hashes: nat -> bool, classes: nat -> string, nodes: seq<nat>)
    requires forall k :: 0 <= k < |nodes| ==> !hashes(nodes[k])
    ensures ApplyAll(m, hashes, classes, nodes) == m
    ensures LastHash(hashes, nodes) == None
    decreases |nodes|
  {
    if |nodes| > 0 {
      ApplyAllNoHash(m, hashes, classes, nodes[..|nodes| - 1]);
    }
  }

  /** The pass only ever adds class lists. */
  lemma {:induction false} ApplyAllKeys(m: map<nat, seq<string>>, hashes: nat -> bool, classes: nat -> string, nodes: seq<nat>)
    ensures m.Keys <= ApplyAll(m, hashes, classes, nodes).Keys
    decreases |nodes|
  {
    if |nodes| > 0 {
      ApplyAllKeys(m, hashes, classes, nodes[..|nodes| - 1]);
    }
  }

  /** A tag element with a hash element before it. */
  predicate Tagged(hashes: nat -> bool, nodes: seq<nat>, k: nat)
    requires k < |nodes|
  {
    !hashes(nodes[k]) && LastHash(hashes, nodes[..k]).Some?
  }

  /** A settled element stays settled through a step on another or on itself with the same class. */
  lemma TagKeepsSettled(m: map<nat, seq<string>>, el: nat, hash: nat, cls: string, x: nat, cx: string)
    requires el != hash && x != hash
    requires x == el ==> cx == cls
    requires x != el ==> Settled(ClassesOf(m, x), cx)
    ensures Settled(ClassesOf(Tag(m, el, hash, cls), x), cx)
  {
    TagResult(m, el, hash, cls);
  }

  /** After the pass, a tag element with a hash element before it carries its class and no other `colored-tag-` class. */
  lemma {:induction false} ApplyAllSettles(m: map<nat, seq<string>>, hashes: nat -> bool, classes: nat -> string, nodes: seq<nat>, k: nat)
    requires k < |nodes| && Tagged(hashes, nodes, k)
    ensures Settled(ClassesOf(ApplyAll(m, hashes, classes, nodes), nodes[k]), classes(nodes[k]))
    decreases |nodes|, 1
  {
    var n := |nodes| - 1;
    if k < n {
      SettlesEarlier(m, hashes, classes, nodes, k);
    } else {
      assert nodes[..n] == nodes[..k];
      StepKeepsSettled(m, hashes, classes, nodes, nodes[k], classes(nodes[k]));
    }
  }

  lemma {:induction false} SettlesEarlier(m: map<nat, seq<string>>, hashes: nat -> bool, classes: nat -> string, nodes: seq<nat>, k: nat)
    requires k < |nodes| - 1 && Tagged(hashes, nodes, k)
    ensures Settled(ClassesOf(ApplyAll(m, hashes, classes, nodes), nodes[k]), classes(nodes[k]))
    decreases |nodes|, 0
  {
    var init := nodes[..|nodes| - 1];
    assert nodes[..k] == init[..k] && init[k] == nodes[k];
    ApplyAllSettles(m, hashes, classes, init, k);
    LastHashStays(hashes, init, k);
    StepKeepsSettled(m, hashes, classes, nodes, nodes[k], classes(nodes[k]));
  }

  /** Once a hash element is seen, there stays a current one. */
  lemma {:induction false} LastHashStays(hashes: nat -> bool, nodes: seq<nat>, k: nat)
    requires k <= |nodes| && LastHash(hashes, nodes[..k]).Some?
    ensures LastHash(hashes, nodes).Some?
    decreases |nodes|
  {
    if k < |nodes| && !hashes(nodes[|nodes| - 1]) {
      var init := nodes[..|nodes| - 1];
      assert init[..k] == nodes[..k];
      LastHashStays(hashes, init, k);
    } else if k == |nodes| {
      assert nodes[..k] == nodes;
    }
  }

  /** The last step keeps a settled tag element settled, and settles the last element when it is a tag element. */
  lemma StepKeepsSettled(m: map<nat, seq<string>>, hashes: nat -> bool, classes: nat -> string, nodes: seq<nat>, x: nat, cx: string)
    requires |nodes| > 0 && !hashes(x)
    requires x == nodes[|nodes| - 1] ==> cx == classes(x) && LastHash(hashes, nodes[..|nodes| - 1]).Some?
    requires x != nodes[|nodes| - 1] ==> Settled(ClassesOf(ApplyAll(m, hashes, classes, nodes[..|nodes| - 1]), x), cx)
    ensures Settled(ClassesOf(ApplyAll(m, hashes, classes, nodes), x), cx)
  {
    var init := nodes[..|nodes| - 1];
    var el := nodes[|nodes| - 1];
    var hash := LastHash(hashes, init);
    ApplyAllLast(m, hashes, classes, nodes);
    if !hashes(el) && hash.Some? {
      TagKeepsSettled(ApplyAll(m, hashes, classes, init), el, hash.value, classes(el), x, cx);
    }
  }

  /** The last element's step. */
  lemma ApplyAllLast(m: map<nat, seq<string>>, hashes: nat -> bool, classes: nat -> string, nodes: seq<nat>)
    requires |nodes| > 0
    ensures var init := nodes[..|nodes| - 1];
            var el := nodes[|nodes| - 1];
            var hash := LastHash(hashes, init);
            ApplyAll(m, hashes, classes, nodes) ==
            if hashes(el) || hash.None? then ApplyAll(m, hashes, classes, init)
            else Tag(ApplyAll(m, hashes, classes, init), el, hash.value, classes(el))
  {
  }

  /** When every tag element is already settled on its class, the pass changes nothing. */
  lemma {:induction false} ApplyAllOnSettled(m: map<nat, seq<string>>, hashes: nat -> bool, classes: nat -> string, nodes: seq<nat>)
    requires forall n :: n in nodes ==> n in m
    requires forall k :: 0 <= k < |nodes| && Tagged(hashes, nodes, k) ==> Settled(ClassesOf(m, nodes[k]), classes(nodes[k]))
    ensures ApplyAll(m, hashes, classes, nodes) == m
    decreases |nodes|
  {
    if |nodes| > 0 {
      var n := |nodes| - 1;
      var init := nodes[..n];
      var el := nodes[n];
      var hash := LastHash(hashes, init);
      forall k | 0 <= k < |init| && Tagged(hashes, init, k)
        ensures Settled(ClassesOf(m, init[k]), classes(init[k]))
      {
        assert nodes[..k] == init[..k] && init[k] == nodes[k];
        assert Tagged(hashes, nodes, k);
      }
      ApplyAllOnSettled(m, hashes, classes, init);
      if !hashes(el) && hash.Some? {
        assert nodes[..n] == init;
        assert Tagged(hashes, nodes, n);
        LastHashIn(hashes, init);
        TagOnSettled(m, el, hash.value, classes(el));
      }
    }
  }

  lemma {:induction false} LastHashIn(hashes: nat -> bool, nodes: seq<nat>)
    ensures LastHash(hashes, nodes).Some? ==> LastHash(hashes, nodes).value in nodes
    decreases |nodes|
  {
    if |nodes| > 0 {
      LastHashIn(hashes, nodes[..|nodes| - 1]);
    }
  }

  /** Running the pass a second time over the same elements changes nothing. */
  lemma ApplyAllIdempotent(m: map<nat, seq<string>>, hashes: nat -> bool, classes: nat -> string, nodes: seq<nat>)
    requires forall n :: n in nodes ==> n in m
    ensures ApplyAll(ApplyAll(m, hashes, classes, nodes), hashes, classes, nodes) == ApplyAll(m, hashes, classes, nodes)
  {
    ApplyAllKeys(m, hashes, classes, nodes);
    forall k | 0 <= k < |nodes| && Tagged(hashes, nodes, k)
      ensures Settled(ClassesOf(ApplyAll(m, hashes, classes, nodes), nodes[k]), classes(nodes[k]))
    {
      ApplyAllSettles(m, hashes, classes, nodes, k);
    }
    ApplyAllOnSettled(ApplyAll(m, hashes, classes, nodes), hashes, classes, nodes);
  }
}
