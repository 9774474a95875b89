/**
 * The two legacy `coloredClassApplyer` view plugins (`src/coloredClassApplyerPlugin.ts`
 * and the root `coloredClassApplyerPlugin.ts`). A first pass pairs every `cm-hashtag`
 * element whose untrimmed text is not `#` with the most recent `#` element (or none)
 * and its class name; a second pass then changes the class lists pair by pair.
 *
 * The second pass walks the element's LIVE `DOMTokenList` with `forEach` while removing
 * from it, so the class right after a removed one is never visited. A `null` hash
 * element makes `hashEl.classList` throw a `TypeError`, which ends the whole pass;
 * `ok == false` stands for that exception, and the class lists keep what was already done.
 * The root file adds the class unconditionally; the `src` file only when the element lacks it.
 */
module LegacyAppliers {
  import opened Seqs
  import opened Strings
  import opened ClassLists
  import opened TagApplying
  import opened HashtagClasses

  /** One entry of `tagElements`. */
  datatype TagElement = TagElement(el: nat, hashEl: Option<nat>, className: string)

  /** `el.innerText === "#"`: the legacy test does not trim. */
  function UntrimmedHashTest(innerText: nat -> string): nat -> bool {
    (n: nat) => innerText(n) == "#"
  }

  /** The first pass: each element that is not a hash element, with the hash element current at that point. */
  function TagElements(hashes: nat -> bool, classes: nat -> string, nodes: seq<nat>): seq<TagElement>
    decreases |nodes|
  {
    if |nodes| == 0 then []
    else
      var init := nodes[..|nodes| - 1];
      var el := nodes[|nodes| - 1];
      TagElements(hashes, classes, init) + (if hashes(el) then [] else [TagElement(el, LastHash(hashes, init), classes(el))])
  }

  // ---------------------------------------------------------------------------
  // The live-list cleanup

  /**
   * `el.classList.forEach` from position `i` with removal: a stale class is removed at
   * its position and the walk moves on to the next position, so the class that slid
   * into the removed one's place is skipped. The result is the list left behind and
   * the classes removed, in order.
   */
  function Sweep(list: seq<string>, keep: string, i: nat): (r: (seq<string>, seq<string>))
    decreases |list| - i + 1
  {
    if i >= |list| then (list, [])
    else if IsColored(list[i]) && list[i] != keep then
      var next := Sweep(list[..i] + list[i + 1..], keep, i + 1);
      (next.0, [list[i]] + next.1)
    else Sweep(list, keep, i + 1)
  }

  /** The position of the first stale class from `i` on, or the length when there is none. */
  function FirstStale(list: seq<string>, keep: string, i: nat): (r: nat)
    ensures i <= |list| ==> i <= r <= |list|
    ensures r < |list| ==> IsColored(list[r]) && list[r] != keep
    decreases |list| - i
  {
    if i >= |list| then |list|
    else if IsColored(list[i]) && list[i] != keep then i
    else FirstStale(list, keep, i + 1)
  }

  /**
   * The cleanup half of one entry of the second pass. Without a hash element the first
   * stale class is removed from the element and the pass throws.
   */
  function SweepStep(m: map<nat, seq<string>>, t: TagElement): (map<nat, seq<string>>, bool) {
    var list := ClassesOf(m, t.el);
    match t.hashEl
    case None =>
      var f := FirstStale(list, t.className, 0);
      if f < |list| then (m[t.el := list[..f] + list[f + 1..]], false) else (m, true)
    case Some(h) =>
      var swept := Sweep(list, t.className, 0);
      (m[t.el := swept.0][h := RemoveEach(ClassesOf(m, h), swept.1)], true)
  }

  /**
   * The adding half: the class goes to the element and then to the hash element, which
   * throws when there is none. The `src` file skips this when the element has the class.
   */
  function AddStep(m: map<nat, seq<string>>, t: TagElement, unconditional: bool): (map<nat, seq<string>>, bool) {
    var list := ClassesOf(m, t.el);
    if unconditional || t.className !in list then
      var m1 := m[t.el := AddClass(list, t.className)];
      match t.hashEl
      case None => (m1, false)
      case Some(h) => (m1[h := AddClass(ClassesOf(m1, h), t.className)], true)
    else (m, true)
  }

  /** One entry of the second pass. */
  function LegacyStep(m: map<nat, seq<string>>, t: TagElement, unconditional: bool): (map<nat, seq<string>>, bool) {
    var swept := SweepStep(m, t);
    if swept.1 then AddStep(swept.0, t, unconditional) else swept
  }

  /** The second pass: entry after entry until one throws. */
  function RunAll(m: map<nat, seq<string>>, ts: seq<TagElement>, unconditional: bool): (map<nat, seq<string>>, bool)
    decreases |ts|
  {
    if |ts| == 0 then (m, true)
    else
      var prev := RunAll(m, ts[..|ts| - 1], unconditional);
      if !prev.1 then prev else LegacyStep(prev.0, ts[|ts| - 1], unconditional)
  }

  /** A `ViewUpdate`, reduced to the two flags the root plugin reads. */
  datatype ViewUpdate = ViewUpdate(docChanged: bool, focusChanged: bool)

  // ---------------------------------------------------------------------------
  // The methods

  /** The first pass of `coloredClassApplyer`: it reads only the elements' text, never a class list. */
  method CollectTagElements(innerText: nat -> string, nodes: seq<nat>) returns (tagElements: seq<TagElement>)
    ensures tagElements == TagElements(UntrimmedHashTest(innerText), ClassNaming(innerText), nodes)
  {
    ghost var hashes, classes := UntrimmedHashTest(innerText), ClassNaming(innerText);
    tagElements := [];
    var hashEl: Option<nat> := None;
    var i := 0;
    assert nodes[..0] == [];
    while i < |nodes|
      invariant i <= |nodes|
      invariant tagElements == TagElements(hashes, classes, nodes[..i])
      invariant hashEl == LastHash(hashes, nodes[..i])
    {
      var el := nodes[i];
      assert nodes[..i + 1][..i] == nodes[..i];
      if innerText(el) == "#" {
        hashEl := Some(el);
      } else {
        tagElements := tagElements + [TagElement(el, hashEl, ColoredClass(ToLower(Trim(innerText(el)))))];
      }
      i := i + 1;
    }
    assert nodes[..|nodes|] == nodes;
  }

  /** The `el.classList.forEach` cleanup of one entry. */
  method SweepClasses(page: Page, t: TagElement) returns (ok: bool)
    requires page.Valid() && t.el in page.classLists
    requires t.hashEl.Some? ==> t.hashEl.value in page.classLists && t.hashEl.value != t.el
    modifies page
    ensures (page.classLists, ok) == SweepStep(old(page.classLists), t)
    ensures page.Valid()
  {
    ghost var start := page.classLists;
    ghost var removed: seq<string> := [];
    var i := 0;
    SweepLoopInit(start, t);
    while i < |page.classLists[t.el]|
      invariant page.Valid()
      invariant SweepLoop(start, t, i, removed, page.classLists)
    {
      var list := page.classLists[t.el];
      var cls := list[i];
      ghost var cur, removedBefore := page.classLists, removed;
      if IsColored(cls) && cls != t.className {
        RemoveAtNoDup(list, i);
        page.classLists := page.classLists[t.el := list[..i] + list[i + 1..]];
        if t.hashEl.None? {
          SweepLoopFails(start, t, i, cur, page.classLists);
          return false;
        }
        RemoveClassMembers(page.classLists[t.hashEl.value], cls);
        page.classLists := page.classLists[t.hashEl.value := RemoveClass(page.classLists[t.hashEl.value], cls)];
        removed := removed + [cls];
      }
      SweepLoopStep(start, t, i, removedBefore, cur, removed, page.classLists);
      i := i + 1;
    }
    SweepLoopDone(start, t, i, removed, page.classLists);
    ok := true;
  }

  /** The adding half of one entry. `unconditional` selects the root file's version. */
  method AddClassName(page: Page, t: TagElement, unconditional: bool) returns (ok: bool)
    requires page.Valid() && t.el in page.classLists
    requires t.hashEl.Some? ==> t.hashEl.value in page.classLists && t.hashEl.value != t.el
    modifies page
    ensures (page.classLists, ok) == AddStep(old(page.classLists), t, unconditional)
    ensures page.Valid()
  {
    var list := page.classLists[t.el];
    ok := true;
    if unconditional || t.className !in list {
      page.classLists := page.classLists[t.el := AddClass(list, t.className)];
      if t.hashEl.None? {
        return false;
      }
      page.classLists := page.classLists[t.hashEl.value := AddClass(page.classLists[t.hashEl.value], t.className)];
    }
  }

  /** One entry of the second pass: the cleanup, then the adding unless the cleanup threw. */
  method ApplyTagElement(page: Page, t: TagElement, unconditional: bool) returns (ok: bool)
    requires page.Valid() && t.el in page.classLists
    requires t.hashEl.Some? ==> t.hashEl.value in page.classLists && t.hashEl.value != t.el
    modifies page
    ensures (page.classLists, ok) == LegacyStep(old(page.classLists), t, unconditional)
    ensures page.Valid()
  {
    ok := SweepClasses(page, t);
    if ok {
      ok := AddClassName(page, t, unconditional);
    }
  }

  /** `coloredClassApplyer`: both passes; `ok == false` when an entry without a hash element threw. */
  method ColoredClassApplyer(page: Page, innerText: nat -> string, nodes: seq<nat>, unconditional: bool) returns (ok: bool)
    requires page.Valid() && forall n :: n in nodes ==> n in page.classLists
    modifies page
    ensures (page.classLists, ok) == RunAll(old(page.classLists), TagElements(UntrimmedHashTest(innerText), ClassNaming(innerText), nodes), unconditional)
    ensures page.Valid()
  {
    var tagElements := CollectTagElements(innerText, nodes);
    ghost var start := page.classLists;
    TagElementsFrom(UntrimmedHashTest(innerText), ClassNaming(innerText), nodes);
    var i := 0;
    RunLoopInit(start, tagElements, unconditional);
    while i < |tagElements|
      invariant page.Valid() && RunLoop(start, tagElements, unconditional, i, page.classLists)
    {
      var t := tagElements[i];
      ghost var cur := page.classLists;
      RunLoopKeys(start, tagElements, unconditional, i, cur);
      ok := ApplyTagElement(page, t, unconditional);
      RunLoopStep(start, tagElements, unconditional, i, cur, page.classLists, ok);
      if !ok {
        return;
      }
      i := i + 1;
    }
    RunLoopDone(start, tagElements, unconditional, i, page.classLists);
    ok := true;
  }

  /** The root plugin's `update`: the pass runs only when the document or the focus changed. */
  method RootUpdate(page: Page, innerText: nat -> string, nodes: seq<nat>, update: ViewUpdate) returns (ok: bool)
    requires page.Valid() && forall n :: n in nodes ==> n in page.classLists
    modifies page
    ensures !(update.docChanged || update.focusChanged) ==> page.classLists == old(page.classLists) && ok
    ensures update.docChanged || update.focusChanged ==>
              (page.classLists, ok) == RunAll(old(page.classLists), TagElements(UntrimmedHashTest(innerText), ClassNaming(innerText), nodes), true)
    ensures page.Valid()
  {
    if !(update.docChanged || update.focusChanged) {
      return true;
    }
    ok := ColoredClassApplyer(page, innerText, nodes, true);
  }

  // ---------------------------------------------------------------------------
  // Loop lemmas

  /**
   * After the walk reached position `i`: what is left to sweep of the live list ends
   * where the whole sweep ends, the hash element lost the classes removed so far, and
   * without a hash element nothing has been removed and nothing before `i` is stale.
   */
  ghost predicate SweepLoop(start: map<nat, seq<string>>, t: TagElement, i: nat, removed: seq<string>, cur: map<nat, seq<string>>) {
    var keep := t.className;
    t.el in start && t.el in cur &&
    var list0, list := start[t.el], cur[t.el];
    var whole, rest := Sweep(list0, keep, 0), Sweep(list, keep, i);
    i <= |list| + 1 &&
    rest.0 == whole.0 && removed + rest.1 == whole.1 &&
    match t.hashEl
    case None =>
      removed == [] && cur == start && FirstStale(list0, keep, i) == FirstStale(list0, keep, 0)
    case Some(h) =>
      h in start && h != t.el && cur == start[t.el := list][h := RemoveEach(start[h], removed)]
  }

  lemma SweepLoopInit(start: map<nat, seq<string>>, t: TagElement)
    requires t.el in start && (t.hashEl.Some? ==> t.hashEl.value in start && t.hashEl.value != t.el)
    ensures SweepLoop(start, t, 0, [], start)
  {
    if t.hashEl.Some? {
      MapSame(start, t.el);
      MapSame(start, t.hashEl.value);
    }
  }

  lemma SweepLoopStep(start: map<nat, seq<string>>, t: TagElement, i: nat, removed: seq<string>, cur: map<nat, seq<string>>,
                      removed': seq<string>, next: map<nat, seq<string>>)
    requires SweepLoop(start, t, i, removed, cur) && i < |cur[t.el]|
    requires var list, c := cur[t.el], cur[t.el][i];
             if IsColored(c) && c != t.className then
               t.hashEl.Some? && removed' == removed + [c] &&
               next == cur[t.el := list[..i] + list[i + 1..]][t.hashEl.value := RemoveClass(cur[t.hashEl.value], c)]
             else removed' == removed && next == cur
    ensures SweepLoop(start, t, i + 1, removed', next)
  {
    var list, c := cur[t.el], cur[t.el][i];
    if IsColored(c) && c != t.className {
      var h := t.hashEl.value;
      assert RemoveEach(start[h], removed + [c]) == RemoveClass(RemoveEach(start[h], removed), c) by {
        assert (removed + [c])[..|removed|] == removed;
      }
      assert removed' + Sweep(list[..i] + list[i + 1..], t.className, i + 1).1 == removed + Sweep(list, t.className, i).1;
      MapPairTwice(start, t.el, h, list, RemoveEach(start[h], removed),
                   list[..i] + list[i + 1..], RemoveEach(start[h], removed'));
    }
  }

  lemma SweepLoopFails(start: map<nat, seq<string>>, t: TagElement, i: nat, cur: map<nat, seq<string>>, next: map<nat, seq<string>>)
    requires SweepLoop(start, t, i, [], cur) && i < |cur[t.el]| && t.hashEl.None?
    requires IsColored(cur[t.el][i]) && cur[t.el][i] != t.className
    requires next == cur[t.el := cur[t.el][..i] + cur[t.el][i + 1..]]
    ensures (next, false) == SweepStep(start, t)
  {
  }

  lemma SweepLoopDone(start: map<nat, seq<string>>, t: TagElement, i: nat, removed: seq<string>, cur: map<nat, seq<string>>)
    requires SweepLoop(start, t, i, removed, cur) && i >= |cur[t.el]|
    ensures (cur, true) == SweepStep(start, t)
  {
    var list0, list := start[t.el], cur[t.el];
    assert Sweep(list, t.className, i) == (list, []);
    assert list == Sweep(list0, t.className, 0).0 && removed == Sweep(list0, t.className, 0).1;
    match t.hashEl
    case None =>
      assert FirstStale(list0, t.className, 0) == |list0|;
    case Some(h) =>
  }

  /** Dropping one position keeps a list free of repeats. */
  lemma RemoveAtNoDup(list: seq<string>, i: nat)
    requires NoDup(list) && i < |list|
    ensures NoDup(list[..i] + list[i + 1..])
  {
    var r := list[..i] + list[i + 1..];
    forall a, b | 0 <= a < b < |r|
      ensures r[a] != r[b]
    {
      var a' := if a < i then a else a + 1;
      var b' := if b < i then b else b + 1;
      assert r[a] == list[a'] && r[b] == list[b'];
    }
  }

  /** After `i` entries of the second pass, none of which threw. */
  ghost predicate RunLoop(start: map<nat, seq<string>>, ts: seq<TagElement>, unconditional: bool, i: nat, cur: map<nat, seq<string>>) {
    i <= |ts| && start.Keys <= cur.Keys &&
    (forall t :: t in ts ==> t.el in start && (t.hashEl.Some? ==> t.hashEl.value in start && t.hashEl.value != t.el)) &&
    (cur, true) == RunAll(start, ts[..i], unconditional)
  }

  lemma RunLoopInit(start: map<nat, seq<string>>, ts: seq<TagElement>, unconditional: bool)
    requires forall t :: t in ts ==> t.el in start && (t.hashEl.Some? ==> t.hashEl.value in start && t.hashEl.value != t.el)
    ensures RunLoop(start, ts, unconditional, 0, start)
  {
    assert ts[..0] == [];
  }

  lemma RunLoopKeys(start: map<nat, seq<string>>, ts: seq<TagElement>, unconditional: bool, i: nat, cur: map<nat, seq<string>>)
    requires RunLoop(start, ts, unconditional, i, cur) && i < |ts|
    ensures ts[i].el in cur && (ts[i].hashEl.Some? ==> ts[i].hashEl.value in cur && ts[i].hashEl.value != ts[i].el)
  {
    assert ts[i] in ts;
  }

  lemma RunLoopStep(start: map<nat, seq<string>>, ts: seq<TagElement>, unconditional: bool, i: nat,
                    cur: map<nat, seq<string>>, next: map<nat, seq<string>>, ok: bool)
    requires RunLoop(start, ts, unconditional, i, cur) && i < |ts|
    requires (next, ok) == LegacyStep(cur, ts[i], unconditional)
    ensures ok ==> RunLoop(start, ts, unconditional, i + 1, next)
    ensures !ok ==> (next, ok) == RunAll(start, ts, unconditional)
  {
    assert ts[..i + 1][..i] == ts[..i];
    LegacyStepKeys(cur, ts[i], unconditional);
    if !ok {
      RunAllStops(start, ts, unconditional, i + 1);
    }
  }

  lemma RunLoopDone(start: map<nat, seq<string>>, ts: seq<TagElement>, unconditional: bool, i: nat, cur: map<nat, seq<string>>)
    requires RunLoop(start, ts, unconditional, i, cur) && i >= |ts|
    ensures (cur, true) == RunAll(start, ts, unconditional)
  {
    assert ts[..i] == ts;
  }

  /** An entry keeps every element's list in the map. */
  lemma LegacyStepKeys(m: map<nat, seq<string>>, t: TagElement, unconditional: bool)
    ensures m.Keys <= LegacyStep(m, t, unconditional).0.Keys
  {
  }

  // ---------------------------------------------------------------------------
  // What the passes do

  /**
   * The skip: of two stale classes in a row the live walk removes only the first and
   * leaves the second, where a walk over a snapshot (`Cleaned`) removes both.
   */
  lemma SweepSkipsNext(a: string, b: string, keep: string)
    requires IsColored(a) && a != keep && IsColored(b) && b != keep
    ensures Sweep([a, b], keep, 0) == ([b], [a])
    ensures Cleaned([a, b], keep) == []
  {
    assert [a, b][..0] + [a, b][1..] == [b];
    assert Sweep([b], keep, 1) == ([b], []);
    assert Sweep([a, b], keep, 0) == (Sweep([b], keep, 1).0, [a] + Sweep([b], keep, 1).1);
    assert [a] + [] == [a];
    assert [a, b][1..] == [b] && [b][1..] == [];
    assert Filter([b], Stays(keep)) == [];
  }

  /**
   * The live walk never removes a class that should stay, removes only stale classes,
   * and leaves nothing that was not there.
   */
  lemma {:induction false} SweepMembers(list: seq<string>, keep: string, i: nat)
    ensures forall c :: c in Sweep(list, keep, i).0 ==> c in list
    ensures forall c :: c in list && (!IsColored(c) || c == keep) ==> c in Sweep(list, keep, i).0
    ensures forall c :: c in Sweep(list, keep, i).1 ==> c in list && IsColored(c) && c != keep
    decreases |list| - i + 1
  {
    if i < |list| {
      if IsColored(list[i]) && list[i] != keep {
        var rest := list[..i] + list[i + 1..];
        SweepMembers(rest, keep, i + 1);
        forall c | c in rest
          ensures c in list
        {
          var j :| 0 <= j < |rest| && rest[j] == c;
          if j < i {
            assert list[j] == c;
          } else {
            assert list[j + 1] == c;
          }
        }
        forall c | c in list && (!IsColored(c) || c == keep)
          ensures c in rest
        {
          var j :| 0 <= j < |list| && list[j] == c;
          assert j != i;
          if j < i {
            assert rest[j] == c;
          } else {
            assert rest[j - 1] == c;
          }
        }
      } else {
        SweepMembers(list, keep, i + 1);
      }
    }
  }

  /** `FirstStale` reaches the end exactly when no stale class follows `i`. */
  lemma {:induction false} FirstStaleFrom(list: seq<string>, keep: string, i: nat)
    requires i <= |list|
    ensures FirstStale(list, keep, i) == |list| <==> forall j :: i <= j < |list| ==> !IsColored(list[j]) || list[j] == keep
    decreases |list| - i
  {
    if i < |list| {
      FirstStaleFrom(list, keep, i + 1);
    }
  }

  lemma FirstStaleNone(list: seq<string>, keep: string)
    ensures FirstStale(list, keep, 0) == |list| <==> forall c :: c in list ==> !IsColored(c) || c == keep
  {
    FirstStaleFrom(list, keep, 0);
  }

  /**
   * An entry without a hash element: it gets through only in the `src` version, and only
   * when the element already has its class and no other `colored-tag-` class; whatever
   * happens, no other element's list changes.
   */
  lemma NullHashOutcome(m: map<nat, seq<string>>, t: TagElement, unconditional: bool)
    requires t.hashEl.None?
    ensures var list := ClassesOf(m, t.el);
            LegacyStep(m, t, unconditional).1 <==>
              !unconditional && t.className in list && forall c :: c in list ==> !IsColored(c) || c == t.className
    ensures forall n :: n != t.el ==> ClassesOf(LegacyStep(m, t, unconditional).0, n) == ClassesOf(m, n)
  {
    FirstStaleNone(ClassesOf(m, t.el), t.className);
  }

  /**
   * An entry with a hash element never throws. The element ends with its class, keeps
   * every class that should stay and gains nothing else; the hash element loses exactly
   * the classes the live walk removed and gains the class when it was added.
   */
  lemma WithHashOutcome(m: map<nat, seq<string>>, t: TagElement, unconditional: bool)
    requires t.hashEl.Some? && t.hashEl.value != t.el
    ensures var r, before := LegacyStep(m, t, unconditional), ClassesOf(m, t.el);
            var after := ClassesOf(r.0, t.el);
            r.1 && t.className in after &&
            (forall c :: c in after ==> c in before || c == t.className) &&
            (forall c :: c in before && (!IsColored(c) || c == t.className) ==> c in after)
    ensures var r, swept := LegacyStep(m, t, unconditional), Sweep(ClassesOf(m, t.el), t.className, 0);
            var h := t.hashEl.value;
            forall c :: c in ClassesOf(r.0, h) <==>
              (c in ClassesOf(m, h) && c !in swept.1) || (c == t.className && (unconditional || t.className !in swept.0))
    ensures forall n :: n != t.el && n != t.hashEl.value ==> ClassesOf(LegacyStep(m, t, unconditional).0, n) == ClassesOf(m, n)
  {
    var h, before := t.hashEl.value, ClassesOf(m, t.el);
    var swept := Sweep(before, t.className, 0);
    SweepMembers(before, t.className, 0);
    RemoveEachMembers(ClassesOf(m, h), swept.1);
    var m1 := SweepStep(m, t).0;
    assert ClassesOf(m1, t.el) == swept.0;
    assert ClassesOf(m1, h) == RemoveEach(ClassesOf(m, h), swept.1);
    if unconditional || t.className !in swept.0 {
      AddClassMembers(swept.0, t.className);
      var m2 := m1[t.el := AddClass(swept.0, t.className)];
      AddClassMembers(ClassesOf(m2, h), t.className);
    }
  }

  lemma AddClassMembers(list: seq<string>, cls: string)
    ensures forall c :: c in AddClass(list, cls) <==> c in list || c == cls
  {
    var r := AddClass(list, cls);
    assert forall c :: c in r <==> c in Elems(r);
    assert forall c :: c in list <==> c in Elems(list);
  }

  /**
   * The first pass pairs every element that is not a hash element with the most recent
   * hash element before it, or none.
   */
  lemma {:induction false} TagElementsPaired(hashes: nat -> bool, classes: nat -> string, nodes: seq<nat>)
    ensures forall k :: 0 <= k < |nodes| && !hashes(nodes[k]) ==>
              TagElement(nodes[k], LastHash(hashes, nodes[..k]), classes(nodes[k])) in TagElements(hashes, classes, nodes)
    decreases |nodes|
  {
    if |nodes| > 0 {
      var init := nodes[..|nodes| - 1];
      TagElementsPaired(hashes, classes, init);
      forall k | 0 <= k < |nodes| - 1
        ensures nodes[..k] == init[..k] && nodes[k] == init[k]
      {
      }
    }
  }

  /** Once an entry throws, later entries are never reached. */
  lemma {:induction false} RunAllStops(m: map<nat, seq<string>>, ts: seq<TagElement>, unconditional: bool, i: nat)
    requires i <= |ts| && !RunAll(m, ts[..i], unconditional).1
    ensures RunAll(m, ts, unconditional) == RunAll(m, ts[..i], unconditional)
    decreases |ts|
  {
    if i < |ts| {
      var init := ts[..|ts| - 1];
      assert init[..i] == ts[..i];
      RunAllStops(m, init, unconditional, i);
    } else {
      assert ts[..i] == ts;
    }
  }

  /** Every entry of the first pass is a non-hash element of the page, with a hash element or none. */
  lemma {:induction false} TagElementsFrom(hashes: nat -> bool, classes: nat -> string, nodes: seq<nat>)
    ensures forall t :: t in TagElements(hashes, classes, nodes) ==>
              t.el in nodes && !hashes(t.el) && t.className == classes(t.el) &&
              (t.hashEl.Some? ==> t.hashEl.value in nodes && hashes(t.hashEl.value))
    decreases |nodes|
  {
    if |nodes| > 0 {
      var init := nodes[..|nodes| - 1];
      TagElementsFrom(hashes, classes, init);
      LastHashIn(hashes, init);
    }
  }
}
