/**
 The operations on small and medium blocks: allocate in a heap, free in the owning heap, free from another heap.
 */
module SmallAllocator {

  import opened SizeClasses
  import opened SpanBlocks
  import opened SmallBlocks
  import opened Options
  import SuperSpans
  import BlockCarving

  /** Where a block comes from, in the program's order; AnotherSpan: the class has nothing left. */
  datatype Source = ClassList | SpanList | Carved | DeferredList | NextPartial | AnotherSpan

  /** What becomes of a span when one of its blocks is freed. */
  datatype Fate = Kept | ToHeapCache | ToDeferredCache

  /**
   A span leaves use when its last live block is freed, unless it is active (freed by its heap) or not full (freed by
   any other): then it stays, though empty.
   */
  function FateOf(heap: nat, span: Span, last: bool): Fate {
    if span.owner.heap == heap then if last && !span.state.Active? then ToHeapCache else Kept
    else if last && span.state.Full? then ToDeferredCache else Kept
  }

  class Allocator {
    const table: seq<SizeClass>
    const page_size: nat
    /** Where each region lies in memory. */
    const region_base: nat -> nat
    var classes: map<Key, HeapClass>
    var spans: map<SpanId, Span>
    ghost var live: map<SpanId, set<Block>>

    ghost function State(): Store
      reads this
    {
      Store(classes, spans, live)
    }

    ghost predicate Valid()
      reads this
    {
      && |table| == SIZE_CLASS_COUNT && SetUp(table, SIZE_CLASS_COUNT) && page_size > 0
      && Inv(State(), None)
      && forall s <- spans :: spans[s].owner.class_idx < SIZE_CLASS_COUNT
           && spans[s].block_count == table[spans[s].owner.class_idx].block_count
    }

    ghost predicate IsLive(s: SpanId, b: Block)
      reads this
    {
      s in live && b in live[s]
    }

    constructor (table: seq<SizeClass>, page_size: nat, region_base: nat -> nat)
      requires |table| == SIZE_CLASS_COUNT && SetUp(table, SIZE_CLASS_COUNT) && page_size > 0
      ensures Valid() && live == map[] && this.table == table && this.page_size == page_size
    {
      this.table, this.page_size, this.region_base := table, page_size, region_base;
      classes, spans, live := map[], map[], map[];
    }

    /** How many blocks the next call of free_list_partial_init links up. */
    function Batch(s: SpanId, class_idx: nat, limit: nat): (n: nat)
      requires |table| == SIZE_CLASS_COUNT && class_idx < SIZE_CLASS_COUNT && page_size > 0 && limit < table[class_idx].block_count
      ensures 1 <= n <= table[class_idx].block_count - limit
      ensures BlockCarving.Limits(region_base(s.region) + s.start * SPAN_SIZE, table[class_idx].block_size, table[class_idx].block_count, page_size, limit)[1]
              == limit + n
    {
      var address := region_base(s.region) + s.start * SPAN_SIZE;
      var size, start := table[class_idx].block_size, BlockCarving.FirstBlock(address);
      BlockCarving.CarveCount(BlockCarving.PageStart(address, size, limit, page_size),
        BlockCarving.Address(start, size, limit), table[class_idx].block_count - limit, size, page_size)
    }

    /** Exactly one block, not live before, has become live. */
    twostate predicate Allocated(k: Key, s: SpanId, b: Block)
      reads this
    {
      && !old(IsLive(s, b)) && s in spans && spans[s].owner == k && b < spans[s].block_count
      && live == old(live)[s := (if s in old(live) then old(live)[s] else {}) + {b}]
    }

    /** The first source that has a block. */
    ghost function SourceOf(k: Key): Source
      reads this
    {
      var hc := ClassOf(State(), k);
      if hc.free_list != [] then ClassList
      else if hc.partial == [] || hc.partial[0] !in spans then AnotherSpan
      else
        var span := spans[hc.partial[0]];
        if span.free_list != [] then SpanList
        else if span.free_list_limit < span.block_count then Carved
        else if span.deferred != [] then DeferredList
        else if |hc.partial| > 1 then NextPartial else AnotherSpan
    }

    /** The block that each source gives, and what it leaves of the class and of the span. */
    twostate predicate TakenFrom(k: Key, source: Source, s: SpanId, b: Block)
      requires |table| == SIZE_CLASS_COUNT && k.class_idx < SIZE_CLASS_COUNT && page_size > 0
      reads this
    {
      var was, now := old(ClassOf(State(), k)), ClassOf(State(), k);
      match source
      case ClassList =>
        && was.free_list != [] && was.partial != [] && s == was.partial[0] && b == was.free_list[0]
        && now == HeapClass(was.free_list[1..], was.partial) && spans == old(spans)
      case SpanList =>
        && was.partial != [] && s == was.partial[0] && s in old(spans) && old(spans)[s].free_list != []
        && b == old(spans)[s].free_list[0] && now == HeapClass(old(spans)[s].free_list[1..], was.partial)
        && spans == old(spans)[s := old(spans)[s].(free_list := [])]
      case Carved =>
        && was.partial != [] && s == was.partial[0] && s in old(spans) && b == old(spans)[s].free_list_limit
        && b < table[k.class_idx].block_count
        && var n := Batch(s, k.class_idx, b);
        && now == HeapClass(Range(b + 1, b + n), was.partial)
        && spans == old(spans)[s := old(spans)[s].(free_list_limit := b + n)]
      case DeferredList =>
        && was.partial != [] && s == was.partial[0] && s in old(spans) && old(spans)[s].deferred != []
        && b == old(spans)[s].deferred[0] && now == HeapClass(old(spans)[s].deferred[1..], was.partial)
        && spans == old(spans)[s := old(spans)[s].(deferred := [], list_size := 0)]
      case NextPartial =>
        && |was.partial| > 1 && s == was.partial[1] && s in old(spans) && old(spans)[s].free_list != []
        && b == old(spans)[s].free_list[0] && now == HeapClass(old(spans)[s].free_list[1..], was.partial[1..])
        && s in spans && spans[s] == old(spans)[s].(state := Active, free_list := [])
        && was.partial[0] in spans && spans[was.partial[0]].state == Full
      case AnotherSpan => now.partial == []
    }

    /** Hands out a block that was not live, or finds that the class needs another span. */
    method Allocate(k: Key) returns (found: bool, s: SpanId, b: Block)
      requires Valid() && k.class_idx < SIZE_CLASS_COUNT
      modifies this
      ensures found ==> Valid() && Allocated(k, s, b) && spans.Keys == old(spans.Keys)
      ensures !found ==> Open(k) && ClassOf(State(), k).partial == [] && live == old(live) && spans.Keys == old(spans.Keys)
      ensures (found <==> !old(SourceOf(k)).AnotherSpan?) && TakenFrom(k, old(SourceOf(k)), s, b)
    {
      hide Inv, SetUp;
      if k in classes && classes[k].free_list != [] {
        s, b := PopActive(k);
        found := true;
      } else {
        found, s, b := AllocateFallback(k);
      }
    }

    /** Pops the class's free list, which belongs to the active span. */
    method PopActive(k: Key) returns (s: SpanId, b: Block)
      requires Valid() && k.class_idx < SIZE_CLASS_COUNT && ClassOf(State(), k).free_list != []
      modifies this
      ensures Valid() && Allocated(k, s, b) && spans.Keys == old(spans.Keys)
      ensures TakenFrom(k, ClassList, s, b)
    {
      hide Inv, SpanOk, SetUp;
      ghost var st := State();
      ActiveHead(st, k);
      var hc := classes[k];
      s, b := hc.partial[0], hc.free_list[0];
      PopOk(spans[s], hc.free_list, live[s]);
      ActiveStep(st, k, hc.free_list[1..], spans[s], live[s] + {b});
      LiveBelowCount(spans[s], hc.free_list[1..], live[s] + {b}, b);
      classes := classes[k := HeapClass(hc.free_list[1..], hc.partial)];
      live := live[s := live[s] + {b}];
      assert spans == spans[s := spans[s]];
    }

    /** The slower ways to a block, in their order. */
    method AllocateFallback(k: Key) returns (found: bool, s: SpanId, b: Block)
      requires Valid() && k.class_idx < SIZE_CLASS_COUNT && ClassOf(State(), k).free_list == []
      modifies this
      ensures found ==> Valid() && Allocated(k, s, b) && spans.Keys == old(spans.Keys)
      ensures !found ==> Open(k) && ClassOf(State(), k).partial == [] && live == old(live) && spans.Keys == old(spans.Keys)
      ensures (found <==> !old(SourceOf(k)).AnotherSpan?) && TakenFrom(k, old(SourceOf(k)), s, b)
    {
      hide Inv, SpanOk, SetUp, Range, Allocator.Batch;
      found := true;
      if k in classes && classes[k].partial != [] {
        ActiveHead(State(), k);
        s, b := classes[k].partial[0], 0;
        if spans[s].free_list != [] {
          SwapFree(k);
          s, b := PopActive(k);
        } else if spans[s].free_list_limit < spans[s].block_count {
          s, b := CarveMore(k);
        } else if spans[s].deferred != [] {
          SwapDeferred(k);
          s, b := PopActive(k);
        } else {
          found, s, b := ReplaceActive(k);
        }
      } else {
        OpenIfUnused(State(), k);
        found, s, b := false, SuperSpans.Span(0, 0), 0;
      }
    }

    method SwapFree(k: Key)
      requires Valid() && ClassOf(State(), k).partial != [] && ClassOf(State(), k).free_list == []
      requires ClassOf(State(), k).partial[0] in spans && spans[ClassOf(State(), k).partial[0]].free_list != []
      modifies this`classes, this`spans
      ensures Valid() && ClassOf(State(), k).free_list != [] && spans.Keys == old(spans.Keys)
      ensures var s := old(ClassOf(State(), k).partial[0]);
        && ClassOf(State(), k) == HeapClass(old(spans)[s].free_list, old(ClassOf(State(), k).partial))
        && spans == old(spans)[s := old(spans)[s].(free_list := [])]
    {
      hide Inv, SpanOk, SetUp;
      ghost var st := State();
      ActiveHead(st, k);
      var s := classes[k].partial[0];
      var span := spans[s];
      SwapFreeOk(span, live[s]);
      ActiveStep(st, k, span.free_list, span.(free_list := []), live[s]);
      classes := classes[k := HeapClass(span.free_list, classes[k].partial)];
      spans := spans[s := span.(free_list := [])];
      assert live == live[s := live[s]];
    }

    method SwapDeferred(k: Key)
      requires Valid() && ClassOf(State(), k).partial != [] && ClassOf(State(), k).free_list == []
      requires ClassOf(State(), k).partial[0] in spans
      requires var span := spans[ClassOf(State(), k).partial[0]]; span.free_list == [] && span.deferred != []
      modifies this`classes, this`spans
      ensures Valid() && ClassOf(State(), k).free_list != [] && spans.Keys == old(spans.Keys)
      ensures var s := old(ClassOf(State(), k).partial[0]);
        && ClassOf(State(), k) == HeapClass(old(spans)[s].deferred, old(ClassOf(State(), k).partial))
        && spans == old(spans)[s := old(spans)[s].(deferred := [], list_size := 0)]
    {
      hide Inv, SpanOk, SetUp;
      ghost var st := State();
      ActiveHead(st, k);
      var s := classes[k].partial[0];
      var span := spans[s];
      SwapDeferredOk(span, live[s]);
      ActiveStep(st, k, span.deferred, span.(deferred := [], list_size := 0), live[s]);
      classes := classes[k := HeapClass(span.deferred, classes[k].partial)];
      spans := spans[s := span.(deferred := [], list_size := 0)];
      assert live == live[s := live[s]];
    }

    /** Links up another batch of the active span's blocks. */
    method CarveMore(k: Key) returns (s: SpanId, b: Block)
      requires Valid() && ClassOf(State(), k).partial != [] && ClassOf(State(), k).free_list == []
      requires ClassOf(State(), k).partial[0] in spans
      requires var span := spans[ClassOf(State(), k).partial[0]]; span.free_list == [] && span.free_list_limit < span.block_count
      requires k.class_idx < SIZE_CLASS_COUNT
      modifies this
      ensures Valid() && Allocated(k, s, b) && spans.Keys == old(spans.Keys)
      ensures TakenFrom(k, Carved, s, b)
    {
      hide Inv, SpanOk, SetUp;
      ghost var st := State();
      ActiveHead(st, k);
      s := classes[k].partial[0];
      var span := spans[s];
      b := span.free_list_limit;
      var n := Batch(s, k.class_idx, b);
      CarveOk(span, live[s], n);
      ActiveStep(st, k, Range(b + 1, b + n), span.(free_list_limit := b + n), live[s] + {b});
      classes := classes[k := HeapClass(Range(b + 1, b + n), classes[k].partial)];
      spans := spans[s := span.(free_list_limit := b + n)];
      live := live[s := live[s] + {b}];
    }

    /** The active span is used up: it becomes full, and the next partial span takes its place, if there is one. */
    method ReplaceActive(k: Key) returns (found: bool, s: SpanId, b: Block)
      requires Valid() && ClassOf(State(), k).partial != [] && ClassOf(State(), k).free_list == []
      requires ClassOf(State(), k).partial[0] in spans
      requires var span := spans[ClassOf(State(), k).partial[0]];
        span.free_list == [] && span.deferred == [] && span.free_list_limit >= span.block_count
      requires k.class_idx < SIZE_CLASS_COUNT
      modifies this
      ensures found ==> Valid() && Allocated(k, s, b) && spans.Keys == old(spans.Keys)
      ensures !found ==> Open(k) && ClassOf(State(), k).partial == [] && live == old(live) && spans.Keys == old(spans.Keys)
      ensures found <==> old(|ClassOf(State(), k).partial|) > 1
      ensures TakenFrom(k, if found then NextPartial else AnotherSpan, s, b)
    {
      hide Inv, SpanOk, SetUp, Range, Allocator.Valid, Allocator.Open, Allocator.Batch;
      s, b := classes[k].partial[0], 0;
      SetActiveFull(k);
      found := classes[k].partial != [];
      if found {
        Promote(k);
        s, b := PopActive(k);
      }
    }

    /** Marks the active span as full and takes it off the list. */
    method SetActiveFull(k: Key)
      requires Valid() && ClassOf(State(), k).partial != [] && ClassOf(State(), k).free_list == []
      requires ClassOf(State(), k).partial[0] in spans
      requires var span := spans[ClassOf(State(), k).partial[0]];
        span.free_list == [] && span.deferred == [] && span.free_list_limit >= span.block_count
      modifies this`classes, this`spans
      ensures Open(k) && spans.Keys == old(spans.Keys)
      ensures k in classes && classes[k] == HeapClass([], old(ClassOf(State(), k).partial)[1..])
      ensures var s := old(ClassOf(State(), k).partial[0]);
        spans == old(spans)[s := old(spans)[s].(state := Full, used_count := old(spans)[s].block_count)]
      ensures old(ClassOf(State(), k).partial[0]) !in classes[k].partial
    {
      hide Inv, SpanOk, SetUp;
      ghost var st := State();
      ActiveHead(st, k);
      var s := classes[k].partial[0];
      FullOk(spans[s], live[s]);
      FullStep(st, k, spans[s].(state := Full, used_count := spans[s].block_count));
      ClassAt(st, k, None);
      classes := classes[k := HeapClass([], classes[k].partial[1..])];
      spans := spans[s := spans[s].(state := Full, used_count := spans[s].block_count)];
      assert live == live[s := live[s]];
    }

    ghost predicate Open(k: Key)
      reads this
    {
      && |table| == SIZE_CLASS_COUNT && SetUp(table, SIZE_CLASS_COUNT) && page_size > 0
      && Inv(State(), Some(k))
      && forall s <- spans :: spans[s].owner.class_idx < SIZE_CLASS_COUNT
           && spans[s].block_count == table[spans[s].owner.class_idx].block_count
    }

    method Promote(k: Key)
      requires Open(k) && ClassOf(State(), k).partial != []
      modifies this`classes, this`spans
      ensures Valid() && ClassOf(State(), k).free_list != [] && spans.Keys == old(spans.Keys)
      ensures var s := old(ClassOf(State(), k).partial[0]);
        && s in old(spans) && ClassOf(State(), k) == HeapClass(old(spans)[s].free_list, old(ClassOf(State(), k).partial))
        && spans == old(spans)[s := old(spans)[s].(state := Active, free_list := [])]
    {
      hide Inv, SpanOk, SetUp;
      ghost var st := State();
      PartialHead(st, k);
      var s := classes[k].partial[0];
      var span := spans[s];
      PromoteOk(span, live[s]);
      PartialSpanHasFree(span, live[s]);
      PromoteStep(st, k, span.free_list, span.(state := Active, free_list := []));
      classes := classes[k := HeapClass(span.free_list, classes[k].partial)];
      spans := spans[s := span.(state := Active, free_list := [])];
      assert live == live[s := live[s]];
    }

    /** The first batch of the span's blocks is linked up. */
    twostate predicate OpenedFor(k: Key, s: SpanId)
      requires |table| == SIZE_CLASS_COUNT && k.class_idx < SIZE_CLASS_COUNT && page_size > 0 && table[k.class_idx].block_count > 0
      reads this
    {
      var n := Batch(s, k.class_idx, 0);
      && ClassOf(State(), k) == HeapClass(Range(1, n), [s])
      && spans == old(spans)[s := NewSpan(k, table[k.class_idx].block_count, n)]
    }

    /** Makes a span from the caches the active one and hands out its first block. */
    method SetNewActive(k: Key, supply: SpanId) returns (s: SpanId, b: Block)
      requires Open(k) && k.class_idx < SIZE_CLASS_COUNT && supply !in spans && ClassOf(State(), k).partial == []
      modifies this
      ensures Valid() && s == supply && Allocated(k, s, b) && spans.Keys == old(spans.Keys) + {supply} && b == 0
      ensures ClassOf(State(), k).partial == [s] && OpenedFor(k, s)
    {
      hide Inv, SpanOk, SetUp;
      ghost var st := State();
      LiveKeys(st, Some(k));
      EntryCount(table, k.class_idx);
      s, b := supply, 0;
      var count := table[k.class_idx].block_count;
      var n := Batch(s, k.class_idx, 0);
      NewOk(k, count, n);
      NewStep(st, Some(k), k, s, Range(1, n), NewSpan(k, count, n), {0});
      classes := classes[k := HeapClass(Range(1, n), [s])];
      spans := spans[s := NewSpan(k, count, n)];
      live := live[s := {0}];
      assert {} + {b} == {b};
    }

    /** What a free does to the live blocks: its block goes, or the whole span where that block was the last. */
    twostate predicate Freed(s: SpanId, b: Block, fate: Fate)
      reads this
    {
      && s in old(live)
      && if fate.Kept? then s in spans && live == old(live)[s := old(live)[s] - {b}]
         else s !in spans && old(live)[s] == {b} && live == old(live) - {s}
    }

    /** Frees a block on behalf of a heap: directly in the owning heap, deferred from any other. */
    method Deallocate(heap: nat, s: SpanId, b: Block) returns (fate: Fate)
      requires Valid() && IsLive(s, b)
      modifies this
      ensures Valid() && Freed(s, b, fate) && s in old(spans)
      ensures fate == FateOf(heap, old(spans)[s], old(live)[s] == {b})
    {
      hide Inv, SetUp;
      LiveKeys(State(), None);
      if spans[s].owner.heap == heap {
        fate := DeallocateDirect(s, b);
      } else {
        fate := DeallocateDefer(s, b);
      }
    }

    /** An active span stays in use even when its last live block is freed. */
    method DeallocateDirect(s: SpanId, b: Block) returns (fate: Fate)
      requires Valid() && IsLive(s, b) && s in spans
      modifies this
      ensures Valid() && Freed(s, b, fate) && !fate.ToDeferredCache?
      ensures fate.ToHeapCache? <==> !old(spans)[s].state.Active? && old(live)[s] == {b}
      ensures fate.Kept? ==>
        && s in spans && spans == old(spans)[s := spans[s]]
        && spans[s].free_list == [b] + old(spans)[s].free_list && spans[s].deferred == old(spans)[s].deferred
        && spans[s].state == if old(spans)[s].state.Full? then Partial else old(spans)[s].state
      ensures fate.ToHeapCache? ==>
        var k := old(spans)[s].owner;
        && spans == old(spans) - {s} && k in old(classes)
        && classes == old(classes)[k := old(classes)[k].(partial := Without(old(classes)[k].partial, s))]
      ensures fate.Kept? ==>
        var k := old(spans)[s].owner;
        k in old(classes) && classes == if old(spans)[s].state.Full? then old(classes)[k := old(classes)[k].(partial := old(classes)[k].partial + [s])] else old(classes)
    {
      hide Inv, SpanOk, SetUp, Without;
      ghost var st := State();
      var span := spans[s];
      var k := span.owner;
      InUse(st, s);
      if span.state.Active? {
        FreeActiveOk(span, ClassOf(st, k).free_list, live[s], b);
        ActiveStep(st, k, ClassOf(st, k).free_list, PushFree(span, b), live[s] - {b});
        assert classes == classes[k := classes[k]];
        spans := spans[s := PushFree(span, b)];
        live := live[s := live[s] - {b}];
        return Kept;
      }
      FreeDirectOk(span, live[s], b);
      var used := span.used_count - 1;
      if used == span.list_size {
        ReleaseStep(st, s);
        if span.state.Partial? {
          classes := classes[k := classes[k].(partial := Without(classes[k].partial, s))];
        } else {
          WithoutAbsent(classes[k].partial, s);
          assert classes == classes[k := classes[k]];
        }
        spans, live := spans - {s}, live - {s};
        return ToHeapCache;
      }
      var rest := PushFree(span, b).(state := Partial, used_count := used);
      if span.state.Full? {
        RejoinStep(st, k, s, rest, live[s] - {b});
        classes := classes[k := classes[k].(partial := classes[k].partial + [s])];
      } else {
        QuietStep(st, s, rest, live[s] - {b});
      }
      spans := spans[s := rest];
      live := live[s := live[s] - {b}];
      return Kept;
    }

    /** Only a full span is handed back to its heap when its last live block is freed. */
    method DeallocateDefer(s: SpanId, b: Block) returns (fate: Fate)
      requires Valid() && IsLive(s, b) && s in spans
      modifies this
      ensures Valid() && Freed(s, b, fate) && !fate.ToHeapCache?
      ensures fate.ToDeferredCache? <==> old(spans)[s].state.Full? && old(live)[s] == {b}
      ensures classes == old(classes) && (fate.ToDeferredCache? ==> spans == old(spans) - {s})
      ensures fate.Kept? ==>
        && s in spans && spans == old(spans)[s := spans[s]]
        && spans[s].deferred == [b] + old(spans)[s].deferred && spans[s].free_list == old(spans)[s].free_list
        && spans[s].state == old(spans)[s].state
    {
      hide Inv, SpanOk, SetUp, Without;
      ghost var st := State();
      var span := spans[s];
      ghost var k := span.owner;
      InUse(st, s);
      FreeDeferredOk(span, HeapFree(st, s), live[s], b);
      if span.state.Full? && span.list_size + 1 == span.block_count {
        ReleaseStep(st, s);
        WithoutAbsent(classes[k].partial, s);
        assert classes == classes[k := classes[k]];
        spans, live := spans - {s}, live - {s};
        return ToDeferredCache;
      }
      var rest := span.(deferred := [b] + span.deferred, list_size := span.list_size + 1);
      if span.state.Active? {
        ActiveStep(st, k, ClassOf(st, k).free_list, rest, live[s] - {b});
        assert classes == classes[k := classes[k]];
      } else {
        QuietStep(st, s, rest, live[s] - {b});
      }
      spans := spans[s := rest];
      live := live[s := live[s] - {b}];
      return Kept;
    }

    /** A span of this heap that the final cleanup's walk finds empty. */
    ghost predicate FoundEmpty(heap: nat, s: SpanId)
      reads this
    {
      && s in spans && spans[s].owner.heap == heap && s in ClassOf(State(), spans[s].owner).partial
      && LooksEmpty(spans[s], HeapFree(State(), s))
    }

    /** The walk over one class's partial list. */
    method EmptyInClass(k: Key) returns (empty: seq<SpanId>)
      requires Valid()
      ensures SuperSpans.Distinct(empty)
      ensures forall s :: s in empty <==> FoundEmpty(k.heap, s) && spans[s].owner == k
    {
      hide Inv, SpanOk, SetUp, LooksEmpty;
      ClassAt(State(), k, None);
      empty := [];
      var partial, free_list := [], [];
      if k in classes { partial, free_list := classes[k].partial, classes[k].free_list; }
      for i := 0 to |partial|
        invariant SuperSpans.Distinct(empty)
        invariant forall s :: s in empty <==> s in partial[..i] && FoundEmpty(k.heap, s)
      {
        var s := partial[i];
        assert partial[i] !in partial[..i] && partial[..i + 1] == partial[..i] + [s];
        if LooksEmpty(spans[s], if i == 0 then free_list else []) { empty := empty + [s]; }
      }
      assert partial[..|partial|] == partial;
    }

    /** The walk over all classes of a heap. */
    method EmptySpans(heap: nat) returns (empty: seq<SpanId>)
      requires Valid()
      ensures SuperSpans.Distinct(empty) && forall s :: s in empty <==> FoundEmpty(heap, s)
    {
      hide Inv, SpanOk, SetUp, LooksEmpty;
      empty := [];
      for c := 0 to SIZE_CLASS_COUNT
        invariant SuperSpans.Distinct(empty)
        invariant forall s :: s in empty <==> FoundEmpty(heap, s) && spans[s].owner.class_idx < c
      {
        var more := EmptyInClass(Key(heap, c));
        DistinctJoin(empty, more);
        empty := empty + more;
      }
    }
  }

  lemma DistinctJoin(a: seq<SpanId>, b: seq<SpanId>)
    requires SuperSpans.Distinct(a) && SuperSpans.Distinct(b) && forall s :: s in a ==> s !in b
    ensures SuperSpans.Distinct(a + b)
  {
    forall i, j | 0 <= i < j < |a| + |b| ensures (a + b)[i] != (a + b)[j] {
      if i < |a| <= j { assert a[i] in a && b[j - |a|] in b; }
    }
  }

  /** What the invariant says about a span in use. */
  lemma InUse(st: Store, s: SpanId)
    requires Inv(st, None) && s in st.spans
    ensures s in st.live && st.spans[s].owner in st.classes && ClassOf(st, st.spans[s].owner).partial != []
    ensures SpanOk(st.spans[s], HeapFree(st, s), st.live[s])
    ensures st.spans[s].state.Active? ==> ClassOf(st, st.spans[s].owner).partial[0] == s
    ensures st.spans[s].state.Full? ==> s !in ClassOf(st, st.spans[s].owner).partial
  {
    hide SpanOk;
    SpanFacts(st, s, None);
  }

  lemma {:induction false} WithoutAbsent(partial: seq<SpanId>, s: SpanId)
    requires s !in partial
    ensures Without(partial, s) == partial
  {
    if partial != [] { WithoutAbsent(partial[1..], s); }
  }

  /**
   The final cleanup: when a heap's class has no live block left, all its spans are in its partial list, and every one
   of them passes the test for an empty span.
   */
  lemma CleanupTakesAll(st: Store, k: Key)
    requires Inv(st, None) && forall s <- st.spans | st.spans[s].owner == k :: st.live[s] == {}
    ensures forall s <- st.spans | st.spans[s].owner == k ::
      s in ClassOf(st, k).partial && LooksEmpty(st.spans[s], HeapFree(st, s))
  {
    hide SpanOk;
    forall s | s in st.spans && st.spans[s].owner == k
      ensures s in ClassOf(st, k).partial && LooksEmpty(st.spans[s], HeapFree(st, s)) {
      SpanFacts(st, s, None);
      LooksEmptyIsEmpty(st.spans[s], HeapFree(st, s), st.live[s]);
      FullIsLive(st.spans[s], HeapFree(st, s), st.live[s]);
    }
  }

  lemma FullIsLive(s: Span, heap_free: seq<Block>, live: set<Block>)
    requires SpanOk(s, heap_free, live) && live == {}
    ensures !s.state.Full?
  {
  }

  /** And the cleanup takes no span that still has a live block. */
  lemma CleanupSparesLive(st: Store, s: SpanId)
    requires Inv(st, None) && s in st.spans && LooksEmpty(st.spans[s], HeapFree(st, s))
    ensures s in st.live && st.live[s] == {}
  {
    hide SpanOk, LooksEmpty;
    SpanFacts(st, s, None);
    LooksEmptyIsEmpty(st.spans[s], HeapFree(st, s), st.live[s]);
  }

  /** A class without a list has no span at all, so it is open for a first one. */
  lemma OpenIfUnused(st: Store, k: Key)
    requires Inv(st, None) && ClassOf(st, k).partial == []
    ensures Inv(st, Some(k))
  {
    hide SpanOk;
    ClassAt(st, k, None);
    forall l: Key ensures ClassOk(st, l, Some(k) == Some(l)) { ClassAt(st, l, None); }
    forall s | s in st.spans ensures SpanIn(st, s, Some(k) == Some(st.spans[s].owner)) { SpanFacts(st, s, None); }
  }

  lemma LiveKeys(st: Store, open: Option<Key>)
    requires Inv(st, open)
    ensures st.live.Keys == st.spans.Keys
  {
    hide SpanOk;
  }

  lemma EntryCount(table: seq<SizeClass>, i: nat)
    requires |table| == SIZE_CLASS_COUNT && SetUp(table, SIZE_CLASS_COUNT) && i < SIZE_CLASS_COUNT
    ensures table[i].block_count >= 2
  {
    hide SetUp;
    BlocksFitSpan(table, i);
  }

  lemma PartialHead(st: Store, k: Key)
    requires Inv(st, Some(k)) && ClassOf(st, k).partial != []
    ensures k in st.classes
    ensures var s := ClassOf(st, k).partial[0];
      && s in st.spans && s in st.live && st.spans[s].state.Partial? && st.spans[s].owner == k
      && SpanOk(st.spans[s], [], st.live[s])
  {
    hide SpanOk;
    HeadFacts(st, k, Some(k));
  }

  /** What the invariant says about a class that has a free list, or a list at all. */
  lemma ActiveHead(st: Store, k: Key)
    requires Inv(st, None) && (ClassOf(st, k).free_list != [] || ClassOf(st, k).partial != [])
    ensures k in st.classes && ClassOf(st, k).partial != []
    ensures var s := ClassOf(st, k).partial[0];
      && s in st.spans && s in st.live && st.spans[s].state.Active? && st.spans[s].owner == k
      && SpanOk(st.spans[s], ClassOf(st, k).free_list, st.live[s])
  {
    hide SpanOk;
    ClassAt(st, k, None);
    HeadFacts(st, k, None);
  }

  lemma LiveBelowCount(s: Span, heap_free: seq<Block>, live: set<Block>, b: Block)
    requires SpanOk(s, heap_free, live) && b in live
    ensures b < s.block_count
  {
    PartsDisjoint(s, heap_free, live, b);
  }
}
