/**
 * The sibling-order registry: every tag path the vault has used gets a positive
 * order number that is never changed afterwards, and a new path is numbered one
 * past the largest order among its siblings. A JavaScript `Map` keeps its keys in
 * insertion order, so the registry is a map of values plus the sequence of keys.
 */
module Tags {
  import opened Seqs
  import opened Strings
  import opened Records

  /** The contents of `tagsMap`: the stored orders and the key order. */
  datatype Known = Known(orders: map<string, int>, keys: seq<string>)

  /** The key sequence lists exactly the keys of the map, each once. */
  predicate Consistent(st: Known) {
    NoDup(st.keys) && Elems(st.keys) == st.orders.Keys
  }

  /** `[combinedTag, chunk].filter(Boolean).join("/")`: empty parts are skipped. */
  function JoinKey(combined: string, chunk: string): string {
    if combined == "" then chunk
    else if chunk == "" then combined
    else combined + "/" + chunk
  }

  /** The keys visited for `chunks[i..]` when the path so far is `combined`. */
  function PathKeys(chunks: seq<string>, i: nat, combined: string): (r: seq<string>)
    requires i <= |chunks|
    ensures |r| == |chunks| - i
    decreases |chunks| - i
  {
    if i == |chunks| then []
    else
      var key := JoinKey(combined, chunks[i]);
      [key] + PathKeys(chunks, i + 1, key)
  }

  /** Every cumulative key of `tag` is registered. */
  predicate Closed(orders: map<string, int>, tag: string) {
    var chunks := Split(tag, '/');
    forall k :: k in PathKeys(chunks, 0, "") ==> k in orders
  }

  /** Registering more keys keeps a closed tag closed. */
  lemma ClosedGrows(small: map<string, int>, large: map<string, int>, tag: string)
    requires small.Keys <= large.Keys && Closed(small, tag)
    ensures Closed(large, tag)
  {
  }

  /** `tagsMap.get(tag) || 0`. */
  function StoredOrder(orders: map<string, int>, tag: string): int {
    if tag in orders then orders[tag] else 0
  }

  /** The sibling filter: same segment count, and a string prefix test against the parent path. */
  function SiblingOf(depth: nat, parentPath: string): string -> bool {
    tag => |Split(tag, '/')| == depth + 1 && (parentPath != "" ==> StartsWith(tag, parentPath))
  }

  function MaxInt(a: int, b: int): int {
    if a >= b then a else b
  }

  /** `siblings.reduce((max, s) => Math.max(max, tagsMap.get(s) || 0), acc)`. */
  function MaxOrder(orders: map<string, int>, siblings: seq<string>, acc: int): (r: int)
    ensures r >= acc
    ensures forall i :: 0 <= i < |siblings| ==> r >= StoredOrder(orders, siblings[i])
    ensures r == acc || exists i :: 0 <= i < |siblings| && r == StoredOrder(orders, siblings[i])
    decreases |siblings|
  {
    if |siblings| == 0 then acc
    else MaxOrder(orders, siblings[1..], MaxInt(acc, StoredOrder(orders, siblings[0])))
  }

  /**
   * `calculateOrderForNewTag`: one past the largest stored order among the siblings
   * in `allTags`, and at least 1.
   */
  function OrderForNewTag(orders: map<string, int>, allTags: seq<string>, depth: nat, parentPath: string): (r: int)
    ensures r >= 1
    ensures forall t :: t in allTags && SiblingOf(depth, parentPath)(t) ==> r > StoredOrder(orders, t)
    ensures r == 1 || exists t :: t in allTags && SiblingOf(depth, parentPath)(t) && r == StoredOrder(orders, t) + 1
  {
    var siblings := Filter(allTags, SiblingOf(depth, parentPath));
    FilterKeeps(allTags, SiblingOf(depth, parentPath));
    MaxOrder(orders, siblings, 0) + 1
  }

  /** `tagsMap.set(key, order)` for a key not yet present. */
  function AddKey(st: Known, key: string, order: int): (r: Known)
    requires key !in st.orders
    ensures Consistent(st) ==> Consistent(r)
  {
    var r := Known(st.orders[key := order], st.keys + [key]);
    assert Elems(r.keys) == Elems(st.keys) + {key};
    r
  }

  /**
   * `assignOrderToTagPath` from chunk `i` on: each cumulative key that is missing
   * is added with `OrderForNewTag`; the flag says whether anything was added.
   */
  function AssignFrom(st: Known, chunks: seq<string>, i: nat, combined: string, allTags: seq<string>): (r: (Known, bool))
    requires i <= |chunks|
    ensures Consistent(st) ==> Consistent(r.0)
    ensures |st.keys| <= |r.0.keys| && r.0.keys[..|st.keys|] == st.keys
    ensures forall k :: k in st.orders ==> k in r.0.orders && r.0.orders[k] == st.orders[k]
    ensures forall k :: k in r.0.orders && k !in st.orders ==> r.0.orders[k] >= 1 && k in PathKeys(chunks, i, combined)
    ensures forall k :: k in PathKeys(chunks, i, combined) ==> k in r.0.orders
    ensures r.1 <==> |r.0.keys| > |st.keys|
    ensures (forall k :: k in PathKeys(chunks, i, combined) ==> k in st.orders) ==> r == (st, false)
    decreases |chunks| - i
  {
    if i == |chunks| then (st, false)
    else
      var key := JoinKey(combined, chunks[i]);
      if key in st.orders then
        AssignFrom(st, chunks, i + 1, key, allTags)
      else
        var order := OrderForNewTag(st.orders, allTags, i, combined);
        var next := AddKey(st, key, order);
        var r := AssignFrom(next, chunks, i + 1, key, allTags);
        PrefixTrans(st.keys, next.keys, r.0.keys);
        (r.0, true)
  }

  /** The loop of `assignOrderToTagPath` after `i` chunks has the outcome of `AssignFrom` from the start. */
  ghost predicate AssignLoop(start: Known, cur: Known, changed: bool, chunks: seq<string>, i: nat, combined: string, allTags: seq<string>) {
    i <= |chunks| &&
    var r := AssignFrom(cur, chunks, i, combined, allTags);
    (r.0, changed || r.1) == AssignFrom(start, chunks, 0, "", allTags)
  }

  /** One turn of the loop: the chunk's key is added when missing, and the flag records it. */
  lemma AssignLoopStep(start: Known, cur: Known, changed: bool, chunks: seq<string>, i: nat, combined: string, allTags: seq<string>,
                       next: Known, nextChanged: bool)
    requires AssignLoop(start, cur, changed, chunks, i, combined, allTags) && i < |chunks|
    requires var key := JoinKey(combined, chunks[i]);
             if key in cur.orders then next == cur && nextChanged == changed
             else next == AddKey(cur, key, OrderForNewTag(cur.orders, allTags, i, combined)) && nextChanged
    ensures AssignLoop(start, next, nextChanged, chunks, i + 1, JoinKey(combined, chunks[i]), allTags)
  {
  }

  /** When every chunk is done the loop's registry and flag are those of `AssignFrom`. */
  lemma AssignLoopDone(start: Known, cur: Known, changed: bool, chunks: seq<string>, combined: string, allTags: seq<string>)
    requires AssignLoop(start, cur, changed, chunks, |chunks|, combined, allTags)
    ensures (cur, changed) == AssignFrom(start, chunks, 0, "", allTags)
    ensures Consistent(start) ==> Consistent(cur)
  {
  }

  lemma PrefixTrans<T>(a: seq<T>, b: seq<T>, c: seq<T>)
    requires |a| <= |b| && b[..|a|] == a
    requires |b| <= |c| && c[..|b|] == b
    ensures c[..|a|] == a
  {
    assert c[..|a|] == c[..|b|][..|a|];
  }

  /** The loop of `updateKnownTags` over `allTags[i..]`. */
  function UpdateFrom(st: Known, allTags: seq<string>, i: nat): (r: (Known, bool))
    requires i <= |allTags|
    ensures Consistent(st) ==> Consistent(r.0)
    ensures |st.keys| <= |r.0.keys| && r.0.keys[..|st.keys|] == st.keys
    ensures r.1 <==> |r.0.keys| > |st.keys|
    decreases |allTags| - i
  {
    if i == |allTags| then (st, false)
    else
      var a := AssignFrom(st, Split(allTags[i], '/'), 0, "", allTags);
      var r := UpdateFrom(a.0, allTags, i + 1);
      PrefixTrans(st.keys, a.0.keys, r.0.keys);
      (r.0, a.1 || r.1)
  }

  /**
   * What the update loop does to the orders: existing orders stay, every new order is
   * positive and belongs to a cumulative key of some tag visited, every visited tag
   * ends up closed, and nothing happens when every tag was closed already.
   */
  lemma {:induction false} UpdateFromOrders(st: Known, allTags: seq<string>, i: nat)
    requires i <= |allTags|
    ensures var r := UpdateFrom(st, allTags, i);
            && (forall k :: k in st.orders ==> k in r.0.orders && r.0.orders[k] == st.orders[k])
            && (forall k :: k in r.0.orders && k !in st.orders ==> r.0.orders[k] >= 1)
            && (forall k :: k in r.0.orders && k !in st.orders ==>
                  exists j :: i <= j < |allTags| && k in PathKeys(Split(allTags[j], '/'), 0, ""))
            && (forall j :: i <= j < |allTags| ==> Closed(r.0.orders, allTags[j]))
            && ((forall j :: i <= j < |allTags| ==> Closed(st.orders, allTags[j])) ==> r == (st, false))
    decreases |allTags| - i
  {
    if i < |allTags| {
      var chunks := Split(allTags[i], '/');
      var a := AssignFrom(st, chunks, 0, "", allTags);
      var r := UpdateFrom(st, allTags, i);
      assert r.0 == UpdateFrom(a.0, allTags, i + 1).0;
      UpdateFromOrders(a.0, allTags, i + 1);
      forall k | k in r.0.orders && k !in st.orders
        ensures r.0.orders[k] >= 1
        ensures exists j :: i <= j < |allTags| && k in PathKeys(Split(allTags[j], '/'), 0, "")
      {
        if k in a.0.orders {
          assert k in PathKeys(chunks, 0, "");
        }
      }
      forall j | i <= j < |allTags| ensures Closed(r.0.orders, allTags[j]) {
        if j == i {
          assert Closed(a.0.orders, allTags[i]);
          ClosedGrows(a.0.orders, r.0.orders, allTags[i]);
        }
      }
      if forall j :: i <= j < |allTags| ==> Closed(st.orders, allTags[j]) {
        assert Closed(st.orders, allTags[i]);
        assert a == (st, false);
      }
    }
  }

  /** The loop of `updateKnownTags` after `i` tags has the outcome of `UpdateFrom` from the start. */
  ghost predicate UpdateLoop(start: Known, cur: Known, changed: bool, allTags: seq<string>, i: nat) {
    i <= |allTags| &&
    var r := UpdateFrom(cur, allTags, i);
    (r.0, changed || r.1) == UpdateFrom(start, allTags, 0)
  }

  /** One turn of the loop: the tag's path is assigned and the flag absorbs its report. */
  lemma UpdateLoopStep(start: Known, cur: Known, changed: bool, allTags: seq<string>, i: nat, next: Known, stepChanged: bool)
    requires UpdateLoop(start, cur, changed, allTags, i) && i < |allTags|
    requires (next, stepChanged) == AssignFrom(cur, Split(allTags[i], '/'), 0, "", allTags)
    ensures UpdateLoop(start, next, changed || stepChanged, allTags, i + 1)
  {
  }

  /** Once every tag is done the registry and the flag are those of `UpdateFrom`. */
  lemma UpdateLoopDone(start: Known, cur: Known, changed: bool, allTags: seq<string>)
    requires UpdateLoop(start, cur, changed, allTags, |allTags|)
    ensures (cur, changed) == UpdateFrom(start, allTags, 0)
  {
  }

  /** A tag as the metadata cache reports it is kept when it is non-empty and does not end in `/`. */
  predicate AcceptedTag(tag: string) {
    !EndsWith(tag, '/') && |tag| > 0
  }

  /** `Object.keys(getTags()).map(t => t.replace(/#/g, "")).filter(...)`. */
  function AppTags(cacheTags: seq<string>): (r: seq<string>)
    ensures forall i :: 0 <= i < |r| ==> '#' !in r[i] && AcceptedTag(r[i])
    ensures forall i :: 0 <= i < |cacheTags| && AcceptedTag(RemoveChar(cacheTags[i], '#')) ==>
              RemoveChar(cacheTags[i], '#') in r
  {
    var stripped := seq(|cacheTags|, i requires 0 <= i < |cacheTags| => RemoveChar(cacheTags[i], '#'));
    var r := Filter(stripped, AcceptedTag);
    FilterKeeps(stripped, AcceptedTag);
    assert forall i :: 0 <= i < |r| ==> r[i] in stripped;
    assert forall i :: 0 <= i < |cacheTags| ==> stripped[i] == RemoveChar(cacheTags[i], '#');
    r
  }

  /** `Array.from(new Set([...tagsMap.keys(), ...appTags]))`. */
  function AllTags(keys: seq<string>, appTags: seq<string>): (r: seq<string>)
    ensures NoDup(r)
    ensures Elems(r) == Elems(keys) + Elems(appTags)
  {
    assert Elems(keys + appTags) == Elems(keys) + Elems(appTags);
    Dedup(keys + appTags)
  }

  /** `updateKnownTags` on the registry contents, for the tag keys the metadata cache reports. */
  function KnownTagsAfterUpdate(st: Known, cacheTags: seq<string>): (r: (Known, bool))
  {
    UpdateFrom(st, AllTags(st.keys, AppTags(cacheTags)), 0)
  }

  /**
   * After an update every registered tag and every accepted incoming tag has all its
   * cumulative keys registered; no existing order changed and every new order is positive.
   */
  lemma UpdateClosesTags(st: Known, cacheTags: seq<string>)
    requires Consistent(st)
    ensures var r := KnownTagsAfterUpdate(st, cacheTags).0;
            Consistent(r) &&
            (forall t :: t in st.keys ==> Closed(r.orders, t)) &&
            (forall t :: t in AppTags(cacheTags) ==> Closed(r.orders, t)) &&
            (forall k :: k in st.orders ==> k in r.orders && r.orders[k] == st.orders[k]) &&
            (forall k :: k in r.orders && k !in st.orders ==> r.orders[k] >= 1)
  {
    var all := AllTags(st.keys, AppTags(cacheTags));
    UpdateFromOrders(st, all, 0);
    forall t | t in st.keys || t in AppTags(cacheTags) ensures t in all {
      assert t in Elems(all);
    }
  }

  /** `updateKnownTags` reports a change exactly when it registered a new key. */
  lemma UpdateReportsGrowth(st: Known, cacheTags: seq<string>)
    requires Consistent(st)
    ensures var (r, changed) := KnownTagsAfterUpdate(st, cacheTags);
            changed <==> r.orders.Keys != st.orders.Keys
  {
    var (r, changed) := KnownTagsAfterUpdate(st, cacheTags);
    if changed {
      var k := r.keys[|st.keys|];
      assert k in Elems(r.keys);
      assert k !in st.orders by {
        assert NoDup(r.keys);
        forall j | 0 <= j < |st.keys| ensures st.keys[j] != k {
          assert st.keys[j] == r.keys[j];
        }
      }
    }
  }

  /** A second update with the same cache contents changes nothing and reports no change. */
  lemma UpdateRepeat(st: Known, cacheTags: seq<string>)
    requires Consistent(st)
    ensures var first := KnownTagsAfterUpdate(st, cacheTags).0;
            KnownTagsAfterUpdate(first, cacheTags) == (first, false)
  {
    var first := KnownTagsAfterUpdate(st, cacheTags).0;
    var all2 := AllTags(first.keys, AppTags(cacheTags));
    forall j | 0 <= j < |all2| ensures Closed(first.orders, all2[j]) {
      assert all2[j] in Elems(all2);
      ClosedAfterUpdate(st, cacheTags, all2[j]);
    }
    UpdateFromOrders(first, all2, 0);
  }

  /** After an update every registered tag and every accepted incoming tag is closed. */
  lemma ClosedAfterUpdate(st: Known, cacheTags: seq<string>, t: string)
    requires Consistent(st)
    requires var first := KnownTagsAfterUpdate(st, cacheTags).0;
             t in first.orders || t in AppTags(cacheTags)
    ensures Closed(KnownTagsAfterUpdate(st, cacheTags).0.orders, t)
  {
    var all1 := AllTags(st.keys, AppTags(cacheTags));
    var first := KnownTagsAfterUpdate(st, cacheTags).0;
    UpdateClosesTags(st, cacheTags);
    if t !in AppTags(cacheTags) && t !in st.keys {
      assert t !in st.orders by { assert t !in Elems(st.keys); }
      UpdateFromOrders(st, all1, 0);
      var m :| 0 <= m < |all1| && t in PathKeys(Split(all1[m], '/'), 0, "");
      PathKeyOfPathKey(all1[m], t);
      assert Closed(first.orders, all1[m]);
    }
  }

  /** The cumulative keys of a cumulative key of `tag` are cumulative keys of `tag`. */
  lemma PathKeyOfPathKey(tag: string, k: string)
    requires k in PathKeys(Split(tag, '/'), 0, "")
    ensures forall k' :: k' in PathKeys(Split(k, '/'), 0, "") ==> k' in PathKeys(Split(tag, '/'), 0, "")
  {
    PathKeysNested(Split(tag, '/'), 0, "");
  }

  /** The keys above a key: its own cumulative keys, and nothing above the empty path. */
  function Above(c: string): set<string> {
    if c == "" then {} else Elems(PathKeys(Split(c, '/'), 0, ""))
  }

  /** The last cumulative key of `c` is `c` itself. */
  predicate SelfEnding(c: string) {
    c == "" || (var ks := PathKeys(Split(c, '/'), 0, ""); ks[|ks| - 1] == c)
  }

  lemma {:induction false} PathKeysNested(chunks: seq<string>, i: nat, c: string)
    requires i <= |chunks|
    requires forall j :: 0 <= j < |chunks| ==> '/' !in chunks[j]
    requires SelfEnding(c)
    ensures forall k :: k in PathKeys(chunks, i, c) ==>
              Elems(PathKeys(Split(k, '/'), 0, "")) <= Elems(PathKeys(chunks, i, c)) + Above(c)
    decreases |chunks| - i
  {
    if i < |chunks| {
      var x := chunks[i];
      var k0 := JoinKey(c, x);
      KeyStep(c, x);
      PathKeysNested(chunks, i + 1, k0);
      var all := PathKeys(chunks, i, c);
      assert all == [k0] + PathKeys(chunks, i + 1, k0);
      assert Elems(all) == {k0} + Elems(PathKeys(chunks, i + 1, k0));
    }
  }

  /** One more chunk: the new key's cumulative keys are the old ones plus itself. */
  lemma KeyStep(c: string, x: string)
    requires '/' !in x && SelfEnding(c)
    ensures SelfEnding(JoinKey(c, x))
    ensures Elems(PathKeys(Split(JoinKey(c, x), '/'), 0, "")) <= {JoinKey(c, x)} + Above(c)
    ensures Above(JoinKey(c, x)) <= {JoinKey(c, x)} + Above(c)
  {
    var k0 := JoinKey(c, x);
    if x == "" {
      if c == "" {
        assert Split("", '/') == [""];
        assert PathKeys([""], 0, "") == [""];
      }
    } else if c == "" {
      SplitNoSep(x);
      assert PathKeys([x], 0, "") == [x];
    } else {
      SplitAppend(c, x);
      var a := Split(c, '/');
      PathKeysAppend(a, 0, "", x);
      var ks := PathKeys(a, 0, "");
      assert LastKey(a, 0, "") == c;
      assert PathKeys(Split(k0, '/'), 0, "") == ks + [k0];
      assert Elems(ks + [k0]) == Elems(ks) + {k0};
    }
  }

  lemma {:induction false} SplitNoSep(x: string)
    requires '/' !in x
    ensures Split(x, '/') == [x]
    decreases |x|
  {
    if |x| > 0 {
      SplitNoSep(x[1..]);
      assert [x[0]] + x[1..] == x;
    }
  }

  lemma {:induction false} SplitAppend(a: string, x: string)
    requires '/' !in x
    ensures Split(a + "/" + x, '/') == Split(a, '/') + [x]
    decreases |a|
  {
    var s := a + "/" + x;
    if |a| == 0 {
      assert s[1..] == x;
      SplitNoSep(x);
    } else {
      assert s[0] == a[0];
      assert s[1..] == a[1..] + "/" + x;
      SplitAppend(a[1..], x);
    }
  }

  /** The last key visited, or the starting path when there is no chunk left. */
  function LastKey(chunks: seq<string>, i: nat, c: string): string
    requires i <= |chunks|
  {
    if i == |chunks| then c else PathKeys(chunks, i, c)[|chunks| - i - 1]
  }

  lemma {:induction false} PathKeysAppend(a: seq<string>, i: nat, c: string, x: string)
    requires i <= |a|
    ensures PathKeys(a + [x], i, c) == PathKeys(a, i, c) + [JoinKey(LastKey(a, i, c), x)]
    decreases |a| - i
  {
    if i < |a| {
      var key := JoinKey(c, a[i]);
      assert (a + [x])[i] == a[i];
      PathKeysAppend(a, i + 1, key, x);
      assert LastKey(a, i, c) == LastKey(a, i + 1, key);
    } else {
      assert (a + [x])[i] == x;
    }
  }

  /** `TagManager`: the registry and the set of tags already rendered. */
  class TagManager {
    var tagsMap: map<string, int>
    var keys: seq<string>
    var renderedTags: set<string>

    ghost predicate Valid()
      reads this
    {
      Consistent(Known(tagsMap, keys))
    }

    /** `new Map(Object.entries(knownTags))`. */
    constructor(knownTags: seq<(string, int)>)
      ensures tagsMap == ToMap(knownTags) && keys == MapOrder(knownTags)
      ensures renderedTags == {}
      ensures Valid()
    {
      tagsMap := ToMap(knownTags);
      keys := MapOrder(knownTags);
      renderedTags := {};
    }

    predicate IsRendered(tagName: string)
      reads this
    {
      tagName in renderedTags
    }

    method ClearRenderedTags()
      modifies this
      ensures renderedTags == {}
      ensures tagsMap == old(tagsMap) && keys == old(keys)
    {
      renderedTags := {};
    }

    method MarkAsRendered(tagName: string)
      modifies this
      ensures renderedTags == old(renderedTags) + {tagName}
      ensures tagsMap == old(tagsMap) && keys == old(keys)
    {
      renderedTags := renderedTags + {tagName};
    }

    /** `Object.fromEntries(tagsMap.entries())`: the entries, in the map's order. */
    method ExportKnownTags() returns (r: seq<(string, int)>)
      requires Valid()
      ensures r == FromMap(tagsMap, keys)
      ensures ToMap(r) == tagsMap && MapOrder(r) == keys
    {
      r := FromMap(tagsMap, keys);
      EntriesRoundTrip(tagsMap, keys);
    }

    /** `updateKnownTags`, given the tag keys the metadata cache reports. */
    method UpdateKnownTags(cacheTags: seq<string>) returns (hasChanges: bool)
      requires Valid()
      modifies this
      ensures (Known(tagsMap, keys), hasChanges) == KnownTagsAfterUpdate(Known(old(tagsMap), old(keys)), cacheTags)
      ensures renderedTags == old(renderedTags)
      ensures Valid()
    {
      var appTags := AppTags(cacheTags);
      var allTags := AllTags(keys, appTags);
      ghost var start := Known(tagsMap, keys);
      hasChanges := false;
      var i: nat := 0;
      while i < |allTags|
        invariant UpdateLoop(start, Known(tagsMap, keys), hasChanges, allTags, i)
        invariant Valid() && renderedTags == old(renderedTags)
      {
        ghost var before := Known(tagsMap, keys);
        var changed := AssignOrderToTagPath(allTags[i], allTags);
        UpdateLoopStep(start, before, hasChanges, allTags, i, Known(tagsMap, keys), changed);
        if changed {
          hasChanges := true;
        }
        i := i + 1;
      }
      UpdateLoopDone(start, Known(tagsMap, keys), hasChanges, allTags);
    }

    /** `tagsMap.set(key, order)` for a key the map does not hold yet: the key goes last. */
    method SetNewKey(key: string, order: int)
      requires key !in tagsMap
      modifies this
      ensures Known(tagsMap, keys) == AddKey(Known(old(tagsMap), old(keys)), key, order)
      ensures renderedTags == old(renderedTags)
    {
      tagsMap, keys := tagsMap[key := order], keys + [key];
    }

    /** `assignOrderToTagPath`: registers every missing cumulative key of `tag`. */
    method AssignOrderToTagPath(tag: string, allTags: seq<string>) returns (hasChanges: bool)
      requires Valid()
      modifies this
      ensures (Known(tagsMap, keys), hasChanges) == AssignFrom(Known(old(tagsMap), old(keys)), Split(tag, '/'), 0, "", allTags)
      ensures renderedTags == old(renderedTags)
      ensures Valid()
    {
      var chunks := Split(tag, '/');
      ghost var start := Known(tagsMap, keys);
      var combinedTag := "";
      hasChanges := false;
      var chunkIndex: nat := 0;
      while chunkIndex < |chunks|
        invariant renderedTags == old(renderedTags)
        invariant AssignLoop(start, Known(tagsMap, keys), hasChanges, chunks, chunkIndex, combinedTag, allTags)
      {
        ghost var before, changedBefore := Known(tagsMap, keys), hasChanges;
        var key := JoinKey(combinedTag, chunks[chunkIndex]);
        if key !in tagsMap {
          var order := OrderForNewTag(tagsMap, allTags, chunkIndex, combinedTag);
          SetNewKey(key, order);
          hasChanges := true;
        }
        AssignLoopStep(start, before, changedBefore, chunks, chunkIndex, combinedTag, allTags, Known(tagsMap, keys), hasChanges);
        combinedTag := key;
        chunkIndex := chunkIndex + 1;
      }
      AssignLoopDone(start, Known(tagsMap, keys), hasChanges, chunks, combinedTag, allTags);
    }
  }
}
