/**
 Single linked lists of cached spans. Only the first span of a list knows its length; a global cache is a stack of
 such lists, linked through the prev of their first spans.
 */
module SpanLists {

  class Span {
    var next: Span?
    var prev: Span?
    var list_size: nat

    constructor ()
    {
      next, prev, list_size := null, null, 0;
    }
  }

  predicate Distinct(spans: seq<Span>) { forall i, j | 0 <= i < j < |spans| :: spans[i] != spans[j] }

  ghost function Next(spans: seq<Span>, i: nat): Span?
    requires i < |spans|
  {
    if i + 1 < |spans| then spans[i + 1] else null
  }

  /** The chain of next pointers, which ends in null. */
  ghost predicate Chained(spans: seq<Span>)
    reads spans
  {
    Distinct(spans) && forall i | 0 <= i < |spans| :: spans[i].next == Next(spans, i)
  }

  /** A list: a chain whose first span holds its length. */
  ghost predicate IsList(spans: seq<Span>)
    reads spans
  {
    |spans| > 0 && Chained(spans) && spans[0].list_size == |spans|
  }

  /** What a list head variable holds: null, or the first span of a list. */
  ghost predicate Heads(head: Span?, spans: seq<Span>)
    reads spans
  {
    if spans == [] then head == null else head == spans[0] && IsList(spans)
  }

  method Push(head: Span?, span: Span, ghost spans: seq<Span>) returns (head': Span, size: nat)
    requires Heads(head, spans) && span !in spans
    modifies span
    ensures Heads(head', [span] + spans) && size == |spans| + 1
    ensures span.prev == old(span.prev)
  {
    span.next := head;
    if head != null {
      span.list_size := head.list_size + 1;
    } else {
      span.list_size := 1;
    }
    ghost var longer := [span] + spans;
    forall i | 0 <= i < |longer| ensures longer[i].next == Next(longer, i) {
      if i > 0 { assert longer[i] == spans[i - 1] && spans[i - 1].next == Next(spans, i - 1); }
    }
    return span, span.list_size;
  }

  method Pop(head: Span, ghost spans: seq<Span>) returns (span: Span, head': Span?)
    requires Heads(head, spans)
    modifies spans
    ensures spans != [] && span == spans[0] && Heads(head', spans[1..])
    ensures forall s <- spans :: s.prev == old(s.prev)
  {
    span := head;
    head' := null;
    assert span.next == Next(spans, 0);
    if span.list_size > 1 {
      head' := span.next;
      head'.list_size := span.list_size - 1;
    }
    ghost var rest := spans[1..];
    forall i | 0 <= i < |rest| ensures rest[i].next == Next(rest, i) {
      assert rest[i] == spans[i + 1] && spans[i + 1].next == Next(spans, i + 1);
    }
  }

  /** Where a list is cut: limit spans stay in front, and at least two. */
  function CutAt(size: nat, limit: nat): (n: nat)
    ensures n <= size
  {
    var l := if limit < 2 then 2 else limit;
    if size > l then l else size
  }

  /** The loop of split: finds the last span of the front part and the first of the rest. */
  method FindCut(span: Span, limit: nat, ghost spans: seq<Span>) returns (last: Span, next: Span)
    requires Heads(span, spans) && 1 <= limit < |spans|
    ensures last == spans[limit - 1] && next == spans[limit]
  {
    var list_size := 1;
    last := span;
    assert span.next == Next(spans, 0);
    next := span.next;
    while list_size < limit
      invariant 1 <= list_size <= limit
      invariant last == spans[list_size - 1] && next == spans[list_size]
    {
      assert spans[list_size].next == Next(spans, list_size);
      last := next;
      next := next.next;
      list_size := list_size + 1;
    }
  }

  /** Cuts a list in two. */
  method Split(span: Span, limit: nat, ghost spans: seq<Span>) returns (next: Span?)
    requires spans != [] && Heads(span, spans)
    modifies spans
    ensures var n := CutAt(|spans|, limit); Heads(span, spans[..n]) && Heads(next, spans[n..])
    ensures forall s <- spans :: s != span ==> s.prev == old(s.prev)
  {
    next := null;
    var l := if limit < 2 then 2 else limit;
    if span.list_size > l {
      var last, rest := FindCut(span, l, spans);
      last.next := null;
      rest.list_size := span.list_size - l;
      span.list_size := l;
      span.prev := null;
      next := rest;
      CutChains(spans, l);
    } else {
      assert spans[..|spans|] == spans;
    }
  }

  /** Two chains out of what was one, the last link of the first cut. */
  lemma CutChains(spans: seq<Span>, n: nat)
    requires Distinct(spans) && 0 < n < |spans| && spans[n - 1].next == null
    requires forall i | 0 <= i < |spans| && i != n - 1 :: spans[i].next == Next(spans, i)
    ensures Chained(spans[..n]) && Chained(spans[n..])
  {
    var front, back := spans[..n], spans[n..];
    forall i | 0 <= i < n ensures front[i].next == Next(front, i) {
      if i < n - 1 { assert spans[i].next == Next(spans, i); }
    }
    forall i | 0 <= i < |back| ensures back[i].next == Next(back, i) {
      assert spans[n + i].next == Next(spans, n + i);
    }
  }
}
