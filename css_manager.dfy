/**
 * `src/CSSManager.ts`: CSS text is buffered and written to the document head in one
 * batch by a microtask. The head is a sequence of elements, each marked with the
 * `colored-tags-style` attribute or not; the microtask queue is the count of flushes
 * scheduled and not yet run.
 */
module Css {
  import opened Seqs
  import opened Strings

  /** An element of `document.head`: whether it carries `colored-tags-style`, and its text. */
  datatype HeadElement = HeadElement(marked: bool, text: string)

  class DocumentHead {
    var elements: seq<HeadElement>

    constructor (elements: seq<HeadElement>)
      ensures this.elements == elements
    {
      this.elements := elements;
    }
  }

  /** `querySelector("[colored-tags-style]")`: the first marked element. */
  function FirstMarked(els: seq<HeadElement>): (r: Option<nat>)
    ensures r.Some? ==> r.value < |els| && els[r.value].marked && forall j :: 0 <= j < r.value ==> !els[j].marked
    ensures r.None? ==> forall j :: 0 <= j < |els| ==> !els[j].marked
    decreases |els|
  {
    if |els| == 0 then None
    else if els[0].marked then Some(0)
    else match FirstMarked(els[1..])
      case None => None
      case Some(i) => Some(i + 1)
  }

  /** The head after a flush of `buffer`. */
  function Flushed(els: seq<HeadElement>, buffer: seq<string>): seq<HeadElement> {
    match FirstMarked(els)
    case Some(i) => els[i := els[i].(text := els[i].text + Join(buffer, "\n"))]
    case None => els + [HeadElement(true, Join(buffer, "\n"))]
  }

  /** The head without its marked elements. */
  function WithoutMarked(els: seq<HeadElement>): seq<HeadElement>
    decreases |els|
  {
    if |els| == 0 then []
    else WithoutMarked(els[..|els| - 1]) + (if els[|els| - 1].marked then [] else [els[|els| - 1]])
  }

  function MarkedCount(els: seq<HeadElement>): nat
    decreases |els|
  {
    if |els| == 0 then 0 else MarkedCount(els[..|els| - 1]) + (if els[|els| - 1].marked then 1 else 0)
  }

  class CssManager {
    var appendBuffer: seq<string>
    var isPending: bool
    /** Flush microtasks queued by `append` and not yet run. */
    var queuedFlushes: nat

    /** At most one flush is ever outstanding, and exactly one while `isPending`. */
    ghost predicate Valid()
      reads this
    {
      queuedFlushes == if isPending then 1 else 0
    }

    constructor ()
      ensures Valid() && appendBuffer == [] && !isPending
    {
      appendBuffer := [];
      isPending := false;
      queuedFlushes := 0;
    }

    /** `append`: the text goes to the end of the buffer; a flush is queued only if none is pending. */
    method Append(css: string)
      requires Valid()
      modifies this
      ensures Valid()
      ensures appendBuffer == old(appendBuffer) + [css] && isPending
      ensures queuedFlushes == old(queuedFlushes) + (if old(isPending) then 0 else 1)
    {
      appendBuffer := appendBuffer + [css];
      if isPending {
        return;
      }
      isPending := true;
      queuedFlushes := queuedFlushes + 1;
    }

    /** The queued microtask runs `flush`. */
    method Flush(head: DocumentHead)
      requires Valid() && queuedFlushes > 0
      modifies this, head
      ensures Valid() && appendBuffer == [] && !isPending && queuedFlushes == old(queuedFlushes) - 1
      ensures head.elements == Flushed(old(head.elements), old(appendBuffer))
    {
      queuedFlushes := queuedFlushes - 1;
      var styleEl := FirstMarked(head.elements);
      var text := Join(appendBuffer, "\n");
      if styleEl.None? {
        head.elements := head.elements + [HeadElement(true, "")];
        styleEl := Some(|head.elements| - 1);
        assert "" + text == text;
        assert head.elements[styleEl.value := HeadElement(true, text)] == old(head.elements) + [HeadElement(true, text)];
      }
      var i := styleEl.value;
      head.elements := head.elements[i := head.elements[i].(text := head.elements[i].text + text)];
      appendBuffer := [];
      isPending := false;
    }

    /** `removeAll`: every marked element leaves the head; the buffer and the pending flush stay. */
    method RemoveAll(head: DocumentHead)
      modifies head
      ensures head.elements == WithoutMarked(old(head.elements))
    {
      var els := head.elements;
      var kept: seq<HeadElement> := [];
      var i := 0;
      while i < |els|
        invariant i <= |els|
        invariant kept == WithoutMarked(els[..i])
      {
        assert els[..i + 1][..i] == els[..i];
        if !els[i].marked {
          kept := kept + [els[i]];
        }
        i := i + 1;
      }
      assert els[..|els|] == els;
      head.elements := kept;
    }
  }

  // ---------------------------------------------------------------------------
  // Lemmas

  lemma {:induction false} MarkedCountZero(els: seq<HeadElement>)
    ensures MarkedCount(els) == 0 <==> forall j :: 0 <= j < |els| ==> !els[j].marked
    decreases |els|
  {
    if |els| > 0 {
      MarkedCountZero(els[..|els| - 1]);
    }
  }

  lemma {:induction false} MarkedCountUpdate(els: seq<HeadElement>, i: nat, e: HeadElement)
    requires i < |els| && e.marked == els[i].marked
    ensures MarkedCount(els[i := e]) == MarkedCount(els)
    decreases |els|
  {
    var n := |els| - 1;
    if i < n {
      assert els[i := e][..n] == els[..n][i := e];
      MarkedCountUpdate(els[..n], i, e);
    } else {
      assert els[i := e][..n] == els[..n];
    }
  }

  /**
   * A flush writes the whole buffer, joined by newlines, to the first marked element,
   * and creates one at the end of the head only when there is none; no other element
   * changes, and the number of marked elements grows only from zero to one.
   */
  lemma FlushedHead(els: seq<HeadElement>, buffer: seq<string>)
    ensures FirstMarked(Flushed(els, buffer)).Some?
    ensures var r := Flushed(els, buffer);
            var i := FirstMarked(r).value;
            r[i].text == (if FirstMarked(els).Some? then els[i].text else "") + Join(buffer, "\n") &&
            (forall j :: 0 <= j < |els| && j != i ==> r[j] == els[j]) &&
            MarkedCount(r) == (if MarkedCount(els) == 0 then 1 else MarkedCount(els))
  {
    MarkedCountZero(els);
    var r := Flushed(els, buffer);
    match FirstMarked(els)
    case Some(i) =>
      MarkedCountUpdate(els, i, els[i].(text := els[i].text + Join(buffer, "\n")));
      assert FirstMarked(r) == Some(i) by {
        FirstMarkedAt(r, i);
      }
    case None =>
      assert r[..|els|] == els;
      FirstMarkedAt(r, |els|);
  }

  lemma FirstMarkedAt(els: seq<HeadElement>, i: nat)
    requires i < |els| && els[i].marked && forall j :: 0 <= j < i ==> !els[j].marked
    ensures FirstMarked(els) == Some(i)
  {
  }

  /**
   * Two flushes in a row land in the same element: the second batch follows the first
   * directly, with no newline between the batches.
   */
  lemma FlushesAccumulate(els: seq<HeadElement>, b1: seq<string>, b2: seq<string>)
    ensures FirstMarked(Flushed(els, b1)).Some? && FirstMarked(Flushed(els, b1)) == FirstMarked(Flushed(Flushed(els, b1), b2))
    ensures var r1 := Flushed(els, b1);
            var r2 := Flushed(r1, b2);
            r2[FirstMarked(r2).value].text == r1[FirstMarked(r1).value].text + Join(b2, "\n")
  {
    FlushedHead(els, b1);
    FlushedHead(Flushed(els, b1), b2);
    var r1 := Flushed(els, b1);
    var i := FirstMarked(r1).value;
    FirstMarkedAt(Flushed(r1, b2), i);
  }

  /** After `removeAll` no marked element is left and the others keep their order. */
  lemma {:induction false} WithoutMarkedMembers(els: seq<HeadElement>)
    ensures forall e :: e in WithoutMarked(els) <==> e in els && !e.marked
    decreases |els|
  {
    if |els| > 0 {
      var init, last := els[..|els| - 1], els[|els| - 1];
      WithoutMarkedMembers(init);
      assert els == init + [last];
      assert forall e :: e in els <==> e in init || e == last;
    }
  }

  lemma {:induction false} WithoutMarkedNone(els: seq<HeadElement>)
    ensures MarkedCount(WithoutMarked(els)) == 0
    decreases |els|
  {
    if |els| > 0 {
      var init, last := els[..|els| - 1], els[|els| - 1];
      WithoutMarkedNone(init);
      var w := WithoutMarked(init);
      assert WithoutMarked(els) == w + (if last.marked then [] else [last]);
      if !last.marked {
        var r := w + [last];
        assert r[..|r| - 1] == w;
        assert MarkedCount(r) == MarkedCount(w);
      } else {
        assert w + [] == w;
      }
    }
  }

  lemma {:induction false} WithoutMarkedUnmarked(els: seq<HeadElement>)
    requires MarkedCount(els) == 0
    ensures WithoutMarked(els) == els
    decreases |els|
  {
    if |els| > 0 {
      var init := els[..|els| - 1];
      WithoutMarkedUnmarked(init);
      assert els == init + [els[|els| - 1]];
    }
  }
}
