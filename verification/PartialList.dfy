/**
 The intrusive double linked list of a size class's partially used spans. The head's prev is the tail.
 */
module PartialList {

  import opened SpanLists

  /** Links are mutual, except that the head's prev closes the circle. */
  ghost function Prev(spans: seq<Span>, i: nat): Span
    requires i < |spans|
  {
    if i == 0 then spans[|spans| - 1] else spans[i - 1]
  }

  ghost predicate Linked(spans: seq<Span>, i: nat)
    reads spans
    requires i < |spans|
  {
    spans[i].next == Next(spans, i) && spans[i].prev == Prev(spans, i)
  }

  class PartialList {
    var head: Span?
    /** The spans from head to tail. */
    ghost var spans: seq<Span>

    ghost predicate Valid()
      reads this, spans
    {
      && head == (if spans == [] then null else spans[0])
      && Distinct(spans) && forall i | 0 <= i < |spans| :: Linked(spans, i)
    }

    constructor ()
      ensures Valid() && spans == []
    {
      head, spans := null, [];
    }

    /** Adds a span at the head. */
    method Add(span: Span)
      requires Valid() && span !in spans
      modifies this, span, spans
      ensures Valid() && spans == [span] + old(spans)
    {
      ghost var was := spans;
      if head != null {
        assert Linked(was, 0);
        span.next := head;
        span.prev := head.prev;
        head.prev := span;
      } else {
        span.next := null;
        span.prev := span;
      }
      head := span;
      spans := [span] + spans;
      forall i | 0 <= i < |spans| ensures Linked(spans, i) {
        if i > 0 { assert old(Linked(was, i - 1)); }
      }
    }

    /** Adds a span at the tail. */
    method AddTail(span: Span)
      requires Valid() && span !in spans
      modifies this, span, spans
      ensures Valid() && spans == old(spans) + [span]
    {
      ghost var was, n := spans, |spans|;
      span.next := null;
      if head != null {
        assert old(Linked(was, 0));
        var tail := head.prev;
        assert tail == was[n - 1];
        tail.next := span;
        span.prev := tail;
        head.prev := span;
      } else {
        span.prev := span;
        head := span;
      }
      spans := spans + [span];
      forall i | 0 <= i < |spans| ensures Linked(spans, i) {
        if i < n { assert old(Linked(was, i)); }
      }
    }

    method PopHead()
      requires Valid() && spans != []
      modifies this, spans
      ensures Valid() && spans == old(spans)[1..]
      ensures forall s <- old(spans) :: s.next == old(s.next)
    {
      ghost var was := spans;
      var span := head;
      assert Linked(was, 0);
      head := span.next;
      if head != null {
        head.prev := span.prev;
      }
      spans := spans[1..];
      forall i | 0 <= i < |spans| ensures Linked(spans, i) { assert old(Linked(was, i + 1)); }
    }

    /** Unlinks a span from anywhere in the list. */
    method Remove(span: Span, ghost k: nat)
      requires Valid() && k < |spans| && spans[k] == span
      modifies this, spans
      ensures Valid() && spans == old(spans)[..k] + old(spans)[k + 1..]
    {
      ghost var was, n := spans, |spans|;
      if head == span {
        assert k == 0;
        PopHead();
      } else {
        assert k > 0 && Linked(was, k);
        var next, prev := span.next, span.prev;
        prev.next := next;
        if next != null {
          next.prev := prev;
        } else {
          head.prev := prev;
        }
        spans := was[..k] + was[k + 1..];
        Unlinked(was, spans, k);
        forall i | 0 <= i < |spans| ensures Linked(spans, i) { assert old(Linked(was, if i < k then i else i + 1)); }
      }
    }
  }

  /** The neighbours in a list from which the k-th span, not the first, is taken. */
  lemma Unlinked(was: seq<Span>, spans: seq<Span>, k: nat)
    requires Distinct(was) && 0 < k < |was| && spans == was[..k] + was[k + 1..]
    ensures Distinct(spans) && |spans| == |was| - 1 && spans[0] == was[0]
    ensures forall i | 0 <= i < |spans| :: spans[i] == was[if i < k then i else i + 1]
  {
  }
}
