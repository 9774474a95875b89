/**
 * Plain JavaScript objects used as dictionaries (`Record<string, V>`), seen through
 * `Object.entries`: a sequence of key/value pairs in enumeration order.
 */
module Records {
  import opened Seqs

  function EntryKeys<V>(es: seq<(string, V)>): (r: seq<string>)
    ensures |r| == |es|
    ensures forall i :: 0 <= i < |es| ==> r[i] == es[i].0
  {
    seq(|es|, i requires 0 <= i < |es| => es[i].0)
  }

  /**
   * The values of `new Map(entries)`: a key given twice keeps the value of its
   * last entry.
   */
  function ToMap<V>(es: seq<(string, V)>): (r: map<string, V>)
    ensures r.Keys == Elems(EntryKeys(es))
    decreases |es|
  {
    if |es| == 0 then map[]
    else
      var init := es[..|es| - 1];
      var r := ToMap(init)[es[|es| - 1].0 := es[|es| - 1].1];
      assert EntryKeys(es) == EntryKeys(init) + [es[|es| - 1].0];
      r
  }

  /** The iteration order of `new Map(entries)`: each key at its first entry. */
  function MapOrder<V>(es: seq<(string, V)>): (r: seq<string>)
    ensures NoDup(r)
    ensures Elems(r) == ToMap(es).Keys
  {
    Dedup(EntryKeys(es))
  }

  /** `Object.fromEntries(m.entries())` for a map iterated in the order `keys`. */
  function FromMap<V>(m: map<string, V>, keys: seq<string>): (r: seq<(string, V)>)
    requires Elems(keys) <= m.Keys
    ensures EntryKeys(r) == keys
  {
    seq(|keys|, i requires 0 <= i < |keys| => (keys[i], m[keys[i]]))
  }

  lemma {:induction false} DedupNoDup<T>(s: seq<T>)
    requires NoDup(s)
    ensures Dedup(s) == s
    decreases |s|
  {
    if |s| > 0 {
      var init, x := s[..|s| - 1], s[|s| - 1];
      NoDupInit(s);
      DedupNoDup(init);
      calc {
        Dedup(s);
        AddLast(Dedup(init), x);
        AddLast(init, x);
        init + [x];
        s;
      }
    }
  }

  /** Without duplicates, the last element is new and the rest has no duplicates either. */
  lemma NoDupInit<T>(s: seq<T>)
    requires NoDup(s) && |s| > 0
    ensures NoDup(s[..|s| - 1]) && s[|s| - 1] !in s[..|s| - 1]
  {
    var init, x := s[..|s| - 1], s[|s| - 1];
    forall i, j | 0 <= i < j < |init| ensures init[i] != init[j] {
      assert init[i] == s[i] && init[j] == s[j];
    }
    forall i | 0 <= i < |init| ensures init[i] != x {
      assert init[i] == s[i];
    }
  }

  /**
   * Exporting a map with distinct keys and reading the entries back gives the same
   * values in the same order.
   */
  lemma EntriesRoundTrip<V>(m: map<string, V>, keys: seq<string>)
    requires NoDup(keys) && Elems(keys) == m.Keys
    ensures ToMap(FromMap(m, keys)) == m
    ensures MapOrder(FromMap(m, keys)) == keys
  {
    EntriesValues(m, keys);
    DedupNoDup(keys);
  }

  lemma EntriesValues<V>(m: map<string, V>, keys: seq<string>)
    requires NoDup(keys) && Elems(keys) == m.Keys
    ensures ToMap(FromMap(m, keys)) == m
  {
    var es := FromMap(m, keys);
    var r := ToMap(es);
    assert r.Keys == m.Keys;
    forall k | k in m ensures r[k] == m[k] {
      var i :| 0 <= i < |keys| && keys[i] == k;
      assert es[i].0 == k;
      forall j | i < j < |es| ensures es[j].0 != es[i].0 {
        assert keys[j] != keys[i];
      }
      LastEntryValue(es, i);
    }
  }

  /** The position of key `k` among the entries. */
  function KeyIndex<V>(es: seq<(string, V)>, k: string): (i: nat)
    requires k in EntryKeys(es)
    ensures i < |es| && es[i].0 == k
    ensures forall j :: 0 <= j < i ==> es[j].0 != k
    decreases |es|
  {
    if es[0].0 == k then 0
    else
      assert k in EntryKeys(es[1..]) by {
        var j :| 0 <= j < |es| && EntryKeys(es)[j] == k;
        assert EntryKeys(es[1..])[j - 1] == k;
      }
      1 + KeyIndex(es[1..], k)
  }

  /**
   * `record[k] = v` on a plain object: an existing key keeps its place and takes the
   * new value, a new key goes last.
   */
  function RecordSet<V>(es: seq<(string, V)>, k: string, v: V): (r: seq<(string, V)>)
    ensures EntryKeys(r) == AddLast(EntryKeys(es), k)
    ensures forall i :: 0 <= i < |r| ==> r[i] == (k, v) || (i < |es| && r[i] == es[i])
    ensures NoDup(EntryKeys(es)) ==> ToMap(r) == ToMap(es)[k := v]
  {
    if k in EntryKeys(es) then
      var i := KeyIndex(es, k);
      ReplaceValue(es, i, v);
      es[i := (k, v)]
    else
      AppendValue(es, k, v);
      es + [(k, v)]
  }

  lemma ReplaceValue<V>(es: seq<(string, V)>, i: nat, v: V)
    requires i < |es|
    ensures EntryKeys(es[i := (es[i].0, v)]) == EntryKeys(es)
    ensures NoDup(EntryKeys(es)) ==> ToMap(es[i := (es[i].0, v)]) == ToMap(es)[es[i].0 := v]
  {
    var k := es[i].0;
    var r := es[i := (k, v)];
    assert EntryKeys(r) == EntryKeys(es);
    if NoDup(EntryKeys(es)) {
      var before, after := ToMap(es), ToMap(r);
      assert after.Keys == before[k := v].Keys by {
        assert k == EntryKeys(es)[i];
      }
      forall key | key in after ensures after[key] == before[k := v][key] {
        ReplacedValueAt(es, i, v, key);
      }
    }
  }

  lemma ReplacedValueAt<V>(es: seq<(string, V)>, i: nat, v: V, key: string)
    requires i < |es| && NoDup(EntryKeys(es))
    requires key in ToMap(es[i := (es[i].0, v)])
    ensures ToMap(es[i := (es[i].0, v)])[key] == ToMap(es)[es[i].0 := v][key]
  {
    var r := es[i := (es[i].0, v)];
    assert EntryKeys(r) == EntryKeys(es);
    var j := KeyIndex(r, key);
    assert ToMap(r)[key] == r[j].1 by { UniqueKeyValue(r, j); }
    if j != i {
      assert key != es[i].0 && ToMap(es)[key] == es[j].1 by {
        assert EntryKeys(es)[j] != EntryKeys(es)[i];
        UniqueKeyValue(es, j);
      }
    }
  }

  lemma AppendValue<V>(es: seq<(string, V)>, k: string, v: V)
    ensures EntryKeys(es + [(k, v)]) == EntryKeys(es) + [k]
    ensures ToMap(es + [(k, v)]) == ToMap(es)[k := v]
  {
    var r := es + [(k, v)];
    assert r[..|r| - 1] == es;
    assert EntryKeys(r) == EntryKeys(es) + [k];
  }

  /** With distinct keys every entry's value is the map's value. */
  lemma UniqueKeyValue<V>(es: seq<(string, V)>, i: nat)
    requires NoDup(EntryKeys(es)) && i < |es|
    ensures ToMap(es)[es[i].0] == es[i].1
  {
    KeyNotRepeated(es, i);
    LastEntryValue(es, i);
  }

  lemma KeyNotRepeated<V>(es: seq<(string, V)>, i: nat)
    requires NoDup(EntryKeys(es)) && i < |es|
    ensures forall j :: i < j < |es| ==> es[j].0 != es[i].0
  {
    var ks := EntryKeys(es);
    forall j | i < j < |es| ensures es[j].0 != es[i].0 {
      assert ks[i] != ks[j];
    }
  }

  /** An entry whose key does not come again gives the map its value. */
  lemma {:induction false} LastEntryValue<V>(es: seq<(string, V)>, i: nat)
    requires i < |es|
    requires forall j :: i < j < |es| ==> es[j].0 != es[i].0
    ensures es[i].0 in ToMap(es) && ToMap(es)[es[i].0] == es[i].1
    decreases |es|
  {
    var n := |es| - 1;
    var key := es[i].0;
    var m := ToMap(es[..n]);
    assert ToMap(es) == m[es[n].0 := es[n].1];
    if i < n {
      var init := es[..n];
      assert forall j :: i < j < |init| ==> init[j].0 != init[i].0 by {
        forall j | i < j < |init|
          ensures init[j].0 != init[i].0
        {
          assert init[j] == es[j] && init[i] == es[i];
        }
      }
      LastEntryValue(init, i);
      assert init[i] == es[i];
      assert es[n].0 != key;
    }
  }

  // ---------------------------------------------------------------------------
  // Building a record entry by entry

  /** The non-empty keys `keyOf` gives the entries, in order, repeats included. */
  function Keys<E>(es: seq<E>, keyOf: E -> string): seq<string>
    decreases |es|
  {
    if |es| == 0 then []
    else
      var k := keyOf(es[|es| - 1]);
      Keys(es[..|es| - 1], keyOf) + (if k == "" then [] else [k])
  }

  /**
   * A `forEach` that runs `record[keyOf(e)] = valueOf(e)` for every entry whose key is
   * non-empty: each key appears once, at its first occurrence.
   */
  function Build<E, V>(es: seq<E>, keyOf: E -> string, valueOf: E -> V): (r: seq<(string, V)>)
    ensures EntryKeys(r) == Dedup(Keys(es, keyOf))
    decreases |es|
  {
    if |es| == 0 then []
    else
      var init := es[..|es| - 1];
      var e := es[|es| - 1];
      var prior := Build(init, keyOf, valueOf);
      var k := keyOf(e);
      if k == "" then
        assert Keys(es, keyOf) == Keys(init, keyOf);
        prior
      else
        assert Dedup(Keys(es, keyOf)) == AddLast(Dedup(Keys(init, keyOf)), k) by {
          var ks := Keys(es, keyOf);
          assert ks == Keys(init, keyOf) + [k];
          assert ks[..|ks| - 1] == Keys(init, keyOf);
        }
        RecordSet(prior, k, valueOf(e))
  }

  /** The loop after `i + 1` entries is one more `record[k] = v` on the loop after `i`. */
  lemma BuildStep<E, V>(es: seq<E>, keyOf: E -> string, valueOf: E -> V, i: nat)
    requires i < |es|
    ensures Build(es[..i + 1], keyOf, valueOf) ==
            if keyOf(es[i]) == "" then Build(es[..i], keyOf, valueOf)
            else RecordSet(Build(es[..i], keyOf, valueOf), keyOf(es[i]), valueOf(es[i]))
  {
    assert es[..i + 1][..i] == es[..i];
  }

  /** One more entry sets its own key and leaves every other key alone. */
  lemma BuildStepAt<E, V>(es: seq<E>, keyOf: E -> string, valueOf: E -> V, key: string)
    requires |es| > 0
    ensures var e := es[|es| - 1];
            var m := ToMap(Build(es, keyOf, valueOf));
            var m0 := ToMap(Build(es[..|es| - 1], keyOf, valueOf));
            (key == keyOf(e) && key != "" ==> key in m && m[key] == valueOf(e)) &&
            (key != keyOf(e) ==> (key in m <==> key in m0)) &&
            (key != keyOf(e) && key in m0 ==> m[key] == m0[key])
  {
    var e := es[|es| - 1];
    var prior := Build(es[..|es| - 1], keyOf, valueOf);
    if keyOf(e) != "" {
      assert NoDup(EntryKeys(prior));
      assert ToMap(RecordSet(prior, keyOf(e), valueOf(e))) == ToMap(prior)[keyOf(e) := valueOf(e)];
    }
  }

  /** The keys of the later entries are the keys of the earlier ones, then the last entry's. */
  lemma KeysSnoc<E>(es: seq<E>, keyOf: E -> string, i: nat)
    requires i < |es|
    ensures var k := keyOf(es[|es| - 1]);
            Keys(es[i..], keyOf) == Keys(es[i..|es| - 1], keyOf) + (if k == "" then [] else [k])
  {
    var later := es[i..];
    assert later[..|later| - 1] == es[i..|es| - 1];
    assert later[|later| - 1] == es[|es| - 1];
  }

  /**
   * A key set by entry `i` and by no later entry ends up with entry `i`'s value: the
   * last assignment to a key wins.
   */
  lemma {:induction false} BuildValue<E, V>(es: seq<E>, keyOf: E -> string, valueOf: E -> V, i: nat)
    requires i < |es| && keyOf(es[i]) != ""
    requires keyOf(es[i]) !in Keys(es[i + 1..], keyOf)
    ensures keyOf(es[i]) in ToMap(Build(es, keyOf, valueOf))
    ensures ToMap(Build(es, keyOf, valueOf))[keyOf(es[i])] == valueOf(es[i])
    decreases |es|
  {
    var init := es[..|es| - 1];
    var k := keyOf(es[i]);
    BuildStepAt(es, keyOf, valueOf, k);
    if i < |es| - 1 {
      KeysSnoc(es, keyOf, i + 1);
      assert init[i + 1..] == es[i + 1..|es| - 1];
      assert init[i] == es[i];
      BuildValue(init, keyOf, valueOf, i);
    }
  }

  /** Every listed key comes from some entry. */
  lemma {:induction false} KeysOrigin<E>(es: seq<E>, keyOf: E -> string, k: string)
    requires k in Keys(es, keyOf)
    ensures k != "" && exists j :: 0 <= j < |es| && keyOf(es[j]) == k
    decreases |es|
  {
    var init := es[..|es| - 1];
    var last := keyOf(es[|es| - 1]);
    if k in Keys(init, keyOf) {
      KeysOrigin(init, keyOf, k);
      var j :| 0 <= j < |init| && keyOf(init[j]) == k;
      assert es[j] == init[j];
    } else {
      assert k == last;
    }
  }

  /** Every entry with a non-empty key contributes it. */
  lemma {:induction false} KeysContain<E>(es: seq<E>, keyOf: E -> string, i: nat)
    requires i < |es| && keyOf(es[i]) != ""
    ensures keyOf(es[i]) in Keys(es, keyOf)
    decreases |es|
  {
    var init := es[..|es| - 1];
    if i < |es| - 1 {
      assert init[i] == es[i];
      KeysContain(init, keyOf, i);
    }
  }

  /** A property every entry's value has, every value of the built record has. */
  lemma {:induction false} BuildValuesHold<E, V>(es: seq<E>, keyOf: E -> string, valueOf: E -> V, ok: V -> bool)
    requires forall j :: 0 <= j < |es| ==> ok(valueOf(es[j]))
    ensures forall i :: 0 <= i < |Build(es, keyOf, valueOf)| ==> ok(Build(es, keyOf, valueOf)[i].1)
    decreases |es|
  {
    if |es| > 0 {
      var init := es[..|es| - 1];
      var e := es[|es| - 1];
      var prior := Build(init, keyOf, valueOf);
      assert forall j :: 0 <= j < |init| ==> init[j] == es[j];
      BuildValuesHold(init, keyOf, valueOf, ok);
      if keyOf(e) != "" {
        var r := RecordSet(prior, keyOf(e), valueOf(e));
        forall i | 0 <= i < |r| ensures ok(r[i].1) {
          if r[i] != (keyOf(e), valueOf(e)) {
            assert r[i] == prior[i];
          }
        }
      }
    }
  }
}
