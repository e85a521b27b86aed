/**
 The blocks of one small or medium span: what every step keeps is that they are partitioned into live blocks, the
 heap's free list, the span's own free list, the deferred free list, and the blocks not carved yet.
 */
module SpanBlocks {

  type Block = nat

  datatype State = Active | Partial | Full

  /** Which heap and size class use a span. */
  datatype Key = Key(heap: nat, class_idx: nat)

  datatype Span = Span(owner: Key, state: State, block_count: nat, free_list_limit: nat, free_list: seq<Block>,
                       deferred: seq<Block>, list_size: nat, used_count: nat)

  function Range(lo: nat, hi: nat): (r: seq<Block>)
    requires lo <= hi
    ensures |r| == hi - lo && forall i | 0 <= i < |r| :: r[i] == lo + i
    decreases hi
  {
    if lo == hi then [] else Range(lo, hi - 1) + [hi - 1]
  }

  /** Every carved block is in exactly one place. */
  ghost predicate Partitioned(s: Span, heap_free: seq<Block>, live: set<Block>) {
    multiset(heap_free) + multiset(s.free_list) + multiset(s.deferred) + multiset(live) == multiset(Range(0, s.free_list_limit))
  }

  ghost predicate SpanOk(s: Span, heap_free: seq<Block>, live: set<Block>) {
    && 0 < s.free_list_limit <= s.block_count && s.list_size == |s.deferred|
    && Partitioned(s, heap_free, live)
    && match s.state
       case Active => true
       case Partial =>
         && heap_free == [] && s.free_list != [] && s.free_list_limit == s.block_count
         && s.used_count == |s.deferred| + |live|
       case Full =>
         && heap_free == [] && s.free_list == [] && s.free_list_limit == s.block_count
         && s.used_count == s.block_count && live != {}
  }

  lemma {:induction false} RangeBag(lo: nat, hi: nat, b: Block)
    requires lo <= hi
    ensures multiset(Range(lo, hi))[b] == if lo <= b < hi then 1 else 0
    decreases hi
  {
    if lo < hi { RangeBag(lo, hi - 1, b); }
  }

  lemma RangeJoin(lo: nat, mid: nat, hi: nat)
    requires lo <= mid <= hi
    ensures multiset(Range(lo, hi)) == multiset(Range(lo, mid)) + multiset(Range(mid, hi))
  {
    forall b: Block ensures multiset(Range(lo, hi))[b] == (multiset(Range(lo, mid)) + multiset(Range(mid, hi)))[b] {
      RangeBag(lo, hi, b);
      RangeBag(lo, mid, b);
      RangeBag(mid, hi, b);
    }
  }

  /** Counting the parts. */
  lemma PartitionSize(s: Span, heap_free: seq<Block>, live: set<Block>)
    requires Partitioned(s, heap_free, live)
    ensures |heap_free| + |s.free_list| + |s.deferred| + |live| == s.free_list_limit
  {
    assert |multiset(heap_free) + multiset(s.free_list) + multiset(s.deferred) + multiset(live)| == |multiset(Range(0, s.free_list_limit))|;
  }

  /** A block of one part is in no other. */
  lemma PartsDisjoint(s: Span, heap_free: seq<Block>, live: set<Block>, b: Block)
    requires Partitioned(s, heap_free, live)
    ensures multiset(heap_free)[b] + multiset(s.free_list)[b] + multiset(s.deferred)[b] + (if b in live then 1 else 0)
      == if b < s.free_list_limit then 1 else 0
  {
    RangeBag(0, s.free_list_limit, b);
    assert (multiset(heap_free) + multiset(s.free_list) + multiset(s.deferred) + multiset(live))[b]
      == multiset(Range(0, s.free_list_limit))[b];
  }

  // ----- what an allocation does to a span -----

  /** The first block of the heap's free list is not live. */
  lemma PopOk(s: Span, heap_free: seq<Block>, live: set<Block>)
    requires SpanOk(s, heap_free, live) && s.state.Active? && heap_free != []
    ensures heap_free[0] !in live && SpanOk(s, heap_free[1..], live + {heap_free[0]})
  {
    var b := heap_free[0];
    assert heap_free == [b] + heap_free[1..];
    PartsDisjoint(s, heap_free, live, b);
    assert multiset(live + {b}) == multiset(live) + multiset{b};
  }

  lemma SwapFreeOk(s: Span, live: set<Block>)
    requires SpanOk(s, [], live) && s.state.Active?
    ensures SpanOk(s.(free_list := []), s.free_list, live)
  {
  }

  lemma SwapDeferredOk(s: Span, live: set<Block>)
    requires SpanOk(s, [], live) && s.state.Active? && s.free_list == []
    ensures SpanOk(s.(deferred := [], list_size := 0), s.deferred, live)
  {
  }

  /** The next batch: its first block is handed out, the others are the heap's free list. */
  lemma CarveOk(s: Span, live: set<Block>, n: nat)
    requires SpanOk(s, [], live) && s.state.Active? && s.free_list == [] && 1 <= n <= s.block_count - s.free_list_limit
    ensures var l := s.free_list_limit;
      l !in live && SpanOk(s.(free_list_limit := l + n), Range(l + 1, l + n), live + {l})
  {
    hide Range;
    var l: Block := s.free_list_limit;
    PartsDisjoint(s, [], live, l);
    assert multiset(live + {l}) == multiset(live) + multiset{l};
    RangeStep(l, n);
    BagsOfBatch(multiset(s.deferred), multiset(live), multiset(Range(0, l)), multiset{l}, multiset(Range(l + 1, l + n)));
  }

  lemma RangeStep(l: Block, n: nat)
    requires n >= 1
    ensures multiset(Range(0, l + n)) == multiset(Range(0, l)) + multiset{l} + multiset(Range(l + 1, l + n))
  {
    RangeOne(l);
    hide Range;
    RangeJoin(0, l, l + n);
    RangeJoin(l, l + 1, l + n);
    var a, b, c := multiset(Range(0, l)), multiset{l}, multiset(Range(l + 1, l + n));
    assert a + (b + c) == a + b + c;
  }

  lemma RangeOne(l: Block)
    ensures Range(l, l + 1) == [l] && multiset(Range(l, l + 1)) == multiset{l}
  {
    assert Range(l, l + 1) == [l];
  }

  lemma BagsOfBatch(d: multiset<Block>, v: multiset<Block>, m: multiset<Block>, one: multiset<Block>, rest: multiset<Block>)
    requires d + v == m
    ensures rest + d + (v + one) == m + one + rest
  {
  }

  /** A used up span is fully live. */
  lemma FullOk(s: Span, live: set<Block>)
    requires SpanOk(s, [], live) && s.state.Active? && s.free_list == [] && s.deferred == [] && s.free_list_limit >= s.block_count
    ensures SpanOk(s.(state := Full, used_count := s.block_count), [], live)
  {
    PartitionSize(s, [], live);
  }

  lemma PromoteOk(s: Span, live: set<Block>)
    requires SpanOk(s, [], live) && s.state.Partial?
    ensures SpanOk(s.(state := Active, free_list := []), s.free_list, live)
  {
  }

  function NewSpan(owner: Key, block_count: nat, n: nat): Span { Span(owner, Active, block_count, n, [], [], 0, 0) }

  lemma NewOk(owner: Key, block_count: nat, n: nat)
    requires 1 <= n <= block_count
    ensures SpanOk(NewSpan(owner, block_count, n), Range(1, n), {0})
  {
    RangeJoin(0, 1, n);
    assert Range(0, 1) == [0];
  }

  // ----- what a free does to a span -----

  function PushFree(s: Span, b: Block): Span { s.(free_list := [b] + s.free_list) }

  lemma FreeMoves(s: Span, heap_free: seq<Block>, live: set<Block>, b: Block)
    requires Partitioned(s, heap_free, live) && b in live
    ensures Partitioned(PushFree(s, b), heap_free, live - {b})
    ensures Partitioned(s.(deferred := [b] + s.deferred, list_size := s.list_size + 1), heap_free, live - {b})
    ensures |live - {b}| == |live| - 1
  {
    assert multiset(live) == multiset(live - {b}) + multiset{b};
  }

  lemma FreeActiveOk(s: Span, heap_free: seq<Block>, live: set<Block>, b: Block)
    requires SpanOk(s, heap_free, live) && s.state.Active? && b in live
    ensures SpanOk(PushFree(s, b), heap_free, live - {b})
  {
    FreeMoves(s, heap_free, live, b);
  }

  /** Freed by its own heap: the span is empty exactly when the used count meets the deferred count. */
  lemma FreeDirectOk(s: Span, live: set<Block>, b: Block)
    requires SpanOk(s, [], live) && !s.state.Active? && b in live
    ensures s.used_count > 0 && (s.used_count - 1 == s.list_size <==> live == {b})
    ensures live != {b} ==> SpanOk(PushFree(s, b).(state := Partial, used_count := s.used_count - 1), [], live - {b})
  {
    FreeMoves(s, [], live, b);
    PartitionSize(s, [], live);
    if |live| == 1 { assert live - {b} == {}; assert live == {b}; }
  }

  /** Freed by another heap: a full span is empty exactly when all its other blocks are in the deferred list. */
  lemma FreeDeferredOk(s: Span, heap_free: seq<Block>, live: set<Block>, b: Block)
    requires SpanOk(s, heap_free, live) && b in live
    ensures s.state.Full? ==> (s.list_size + 1 == s.block_count <==> live == {b})
    ensures !(s.state.Full? && live == {b}) ==>
      SpanOk(s.(deferred := [b] + s.deferred, list_size := s.list_size + 1), heap_free, live - {b})
  {
    FreeMoves(s, heap_free, live, b);
    PartitionSize(s, heap_free, live);
    if |live| == 1 { assert live - {b} == {}; assert live == {b}; }
  }

  /** The test by which the final cleanup recognizes an empty span among the active and partial ones. */
  predicate LooksEmpty(s: Span, heap_free: seq<Block>) {
    if s.state.Active? then
      (if s.free_list_limit < s.block_count then s.free_list_limit else s.block_count) == |heap_free| + |s.free_list| + s.list_size
    else s.used_count == s.list_size
  }

  lemma LooksEmptyIsEmpty(s: Span, heap_free: seq<Block>, live: set<Block>)
    requires SpanOk(s, heap_free, live)
    ensures LooksEmpty(s, heap_free) <==> live == {}
  {
    PartitionSize(s, heap_free, live);
  }
}
