/**
 * Element class lists as the tag appliers see them. A `DOMTokenList` is a sequence of
 * class names without repeats, in insertion order; `add` appends a missing name and
 * `remove` deletes one.
 */
module ClassLists {
  import opened Seqs
  import opened Strings

  /** `COLORED_TAG_PREFIX`. */
  const ColoredTagPrefix := "colored-tag-"

  /** `buildColoredTagClass`: the class a tag element gets, `colored-tag-<name>`. */
  function ColoredClass(name: string): (r: string)
    ensures IsColored(r) && r[|ColoredTagPrefix|..] == name
  {
    ColoredTagPrefix + name
  }

  /** `cls.startsWith("colored-tag-")`. */
  predicate IsColored(cls: string) {
    StartsWith(cls, ColoredTagPrefix)
  }

  /** Two names differ exactly when the classes built from them differ. */
  lemma ColoredClassInjective(a: string, b: string)
    ensures ColoredClass(a) == ColoredClass(b) <==> a == b
  {
    if ColoredClass(a) == ColoredClass(b) {
      assert a == ColoredClass(a)[|ColoredTagPrefix|..];
    }
  }

  /** `classList.add(cls)`: appended unless already present. */
  function AddClass(list: seq<string>, cls: string): (r: seq<string>)
    ensures cls in r && Elems(r) == Elems(list) + {cls}
    ensures NoDup(list) ==> NoDup(r)
    ensures cls in list ==> r == list
  {
    AddLast(list, cls)
  }

  /** `classList.remove(cls)`: every other class kept, in order. */
  function RemoveClass(list: seq<string>, cls: string): (r: seq<string>)
    ensures cls !in r
    ensures forall c :: c in list && c != cls ==> c in r
    ensures NoDup(list) ==> NoDup(r)
  {
    FilterKeeps(list, Except(cls));
    assert NoDup(list) ==> NoDup(Filter(list, Except(cls))) by {
      if NoDup(list) {
        FilterNoDup(list, Except(cls));
      }
    }
    Filter(list, Except(cls))
  }

  /** The classes a cleanup for `keep` leaves alone: plain classes and `keep` itself. */
  function Stays(keep: string): string -> bool {
    cls => !IsColored(cls) || cls == keep
  }

  /** A class list after removing every `colored-tag-` class other than `keep`. */
  function Cleaned(list: seq<string>, keep: string): (r: seq<string>)
    ensures forall c :: c in r ==> c in list && (!IsColored(c) || c == keep)
    ensures forall c :: c in list && (!IsColored(c) || c == keep) ==> c in r
    ensures NoDup(list) ==> NoDup(r)
  {
    FilterKeeps(list, Stays(keep));
    assert NoDup(list) ==> NoDup(Filter(list, Stays(keep))) by {
      if NoDup(list) {
        FilterNoDup(list, Stays(keep));
      }
    }
    Filter(list, Stays(keep))
  }

  /** A class list once cleaned for `cls` and given `cls` when it lacks it. */
  function Applied(list: seq<string>, cls: string): (r: seq<string>)
  {
    AddClass(Cleaned(list, cls), cls)
  }

  /**
   * After `Applied`, `cls` is the only `colored-tag-` class, and every class outside
   * the prefix is still there.
   */
  lemma AppliedClasses(list: seq<string>, cls: string)
    ensures cls in Applied(list, cls)
    ensures forall c :: c in Applied(list, cls) && IsColored(c) ==> c == cls
    ensures forall c :: c in list && !IsColored(c) ==> c in Applied(list, cls)
    ensures forall c :: c in Applied(list, cls) ==> c in list || c == cls
    ensures NoDup(list) ==> NoDup(Applied(list, cls))
  {
    var cleaned := Cleaned(list, cls);
    assert Elems(Applied(list, cls)) == Elems(cleaned) + {cls};
    forall c | c in Applied(list, cls)
      ensures c in cleaned || c == cls
    {
      assert c in Elems(Applied(list, cls));
    }
    forall c | c in list && !IsColored(c)
      ensures c in Applied(list, cls)
    {
      assert c in Elems(cleaned);
    }
  }

  /** Cleaning twice for the same class is cleaning once. */
  lemma {:induction false} CleanedIdempotent(list: seq<string>, keep: string)
    ensures Cleaned(Cleaned(list, keep), keep) == Cleaned(list, keep)
  {
    FilterTwice(list, Stays(keep));
  }

  lemma {:induction false} FilterTwice<T>(s: seq<T>, p: T -> bool)
    ensures Filter(Filter(s, p), p) == Filter(s, p)
    decreases |s|
  {
    if |s| > 0 {
      FilterTwice(s[1..], p);
    }
  }

  /** A list already holding `cls` as its only `colored-tag-` class. */
  predicate Settled(list: seq<string>, cls: string) {
    cls in list && forall c :: c in list && IsColored(c) ==> c == cls
  }

  /** A settled list is left exactly as it is by `Applied`. */
  lemma {:induction false} AppliedSettled(list: seq<string>, cls: string)
    requires Settled(list, cls)
    ensures Cleaned(list, cls) == list
    ensures Applied(list, cls) == list
  {
    FilterAll(list, Stays(cls));
  }

  /** Applying the same class twice gives the list of applying it once. */
  lemma AppliedIdempotent(list: seq<string>, cls: string)
    ensures Settled(Applied(list, cls), cls)
    ensures Applied(Applied(list, cls), cls) == Applied(list, cls)
  {
    AppliedClasses(list, cls);
    AppliedSettled(Applied(list, cls), cls);
  }
}
