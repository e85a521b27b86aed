/**
 The allocator as a whole: blocks of small and medium spans, large blocks, and the spans both are made of.

 A span that holds a live block, small or large, is in use and in no cache; when no block is live, the end of the
 program releases every region.
 */
module Rpmalloc {

  import opened SizeClasses
  import opened SpanBlocks
  import Options
  import SmallBlocks
  import SmallAllocator
  import SuperSpans
  import SpanPlaces
  import SpanSystem

  type Span = SuperSpans.Span

  class Rpmalloc {
    const small: SmallAllocator.Allocator
    const spans: SpanSystem.SpanSystem
    /** The spans that are large blocks. */
    ghost var large: set<Span>

    ghost predicate Valid()
      reads this, small, spans
    {
      small.Valid() && Together()
    }

    /** What is in use are the spans of small blocks, all single ones, and the large blocks. */
    ghost predicate Together()
      reads this, small, spans
    {
      && spans.Valid() && small.spans.Keys !! large
      && SpanPlaces.Used(spans.State()) == small.spans.Keys + large
      && (forall s <- small.spans :: s in spans.memory.pieces && spans.memory.pieces[s] == 1)
      && (forall s <- large :: s in spans.memory.pieces && 1 <= spans.memory.pieces[s] <= SpanSystem.LARGE_CLASS_COUNT)
    }

    constructor (table: seq<SizeClass>, page_size: nat, region_base: nat -> nat, release: nat, release_large: nat, span_map_count: nat)
      requires |table| == SIZE_CLASS_COUNT && SetUp(table, SIZE_CLASS_COUNT) && page_size > 0
      requires release >= 2 && release_large >= 2 && span_map_count > 0
      ensures Valid() && fresh(small) && fresh(spans) && small.live == map[] && large == {} && spans.memory.total == map[]
    {
      small := new SmallAllocator.Allocator(table, page_size, region_base);
      spans := new SpanSystem.SpanSystem(release, release_large, span_map_count);
      large := {};
      new;
      SmallAllocator.LiveKeys(small.State(), Options.None);
    }

    /**
     Allocates a block of a class of a heap; region is where the system would map, if it comes to that. The class's own
     sources come first, then the caches of the heap, its reserve and the global cache; memory is mapped only if all of
     these have nothing.
     */
    method Allocate(k: Key, region: nat, page_spans: nat) returns (s: Span, b: Block)
      requires Valid() && k.class_idx < SIZE_CLASS_COUNT && page_spans > 0 && region !in spans.memory.total
      modifies small, spans
      ensures Valid() && small.Allocated(k, s, b) && s !in large
      ensures var source := old(small.SourceOf(k));
        if source.AnotherSpan?
        then b == 0 && SmallBlocks.ClassOf(small.State(), k).partial == [s] && s !in old(small.spans) && spans.Extracted(old(spans.Now()), spans.Now(), k.heap, 1, region, page_spans, s)
        else small.TakenFrom(k, source, s, b) && s in old(small.spans) && spans.Now() == old(spans.Now())
      ensures region in spans.memory.total <==> old(small.SourceOf(k)).AnotherSpan? && SpanSystem.LevelOf(old(spans.Now()), k.heap, 1).FromSystem?
    {
      hide SpanSystem.SpanSystem.Valid, SmallAllocator.Allocator.Valid, SmallAllocator.Allocator.Open, SpanPlaces.Used;
      hide SpanSystem.LevelOf, SpanSystem.SpanSystem.Extracted;
      hide SmallAllocator.Allocator.TakenFrom, SmallAllocator.Allocator.SourceOf;
      var found;
      found, s, b := small.Allocate(k);
      if !found { s, b := AllocateInNewSpan(k, region, page_spans); }
    }

    /** Allocates the first block of another span. */
    method AllocateInNewSpan(k: Key, region: nat, page_spans: nat) returns (s: Span, b: Block)
      requires small.Open(k) && k.class_idx < SIZE_CLASS_COUNT && SmallBlocks.ClassOf(small.State(), k).partial == []
      requires Together() && page_spans > 0 && region !in spans.memory.total
      modifies small, spans
      ensures Valid() && small.Allocated(k, s, b) && s !in large && s !in old(small.spans)
      ensures b == 0 && SmallBlocks.ClassOf(small.State(), k).partial == [s]
      ensures spans.Extracted(old(spans.Now()), spans.Now(), k.heap, 1, region, page_spans, s)
      ensures region in spans.memory.total <==> SpanSystem.LevelOf(old(spans.Now()), k.heap, 1).FromSystem?
    {
      hide SpanSystem.SpanSystem.Valid, SmallAllocator.Allocator.Valid, SmallAllocator.Allocator.Open, SpanPlaces.Used;
      hide SpanSystem.LevelOf, SpanSystem.SpanSystem.Extracted, SmallAllocator.Allocator.OpenedFor;
      s := spans.ExtractNewSpan(k.heap, 1, region, page_spans);
      s, b := small.SetNewActive(k, s);
    }

    /**
     Frees a block on behalf of a heap. Where it was the last live one, a span that is not active goes to the cache of
     its own heap, and a full span freed by another heap to those handed back to its heap; any other span stays in use.
     */
    method Deallocate(heap: nat, s: Span, b: Block)
      requires Valid() && small.IsLive(s, b)
      modifies small, spans
      ensures Valid() && s in old(small.live) && s in old(small.spans)
      ensures match SmallAllocator.FateOf(heap, old(small.spans)[s], old(small.live)[s] == {b})
        case Kept =>
          && s in small.spans && small.live == old(small.live)[s := old(small.live)[s] - {b}]
          && spans.Now() == old(spans.Now())
        case ToHeapCache =>
          && s !in small.spans && small.live == old(small.live) - {s}
          && SpanPlaces.Used(spans.State()) == old(SpanPlaces.Used(spans.State())) - {s}
          && spans.Cached(old(spans.Now()), spans.Now(), heap, s, 1)
        case ToDeferredCache =>
          var owner := old(small.spans)[s].owner.heap;
          && s !in small.spans && small.live == old(small.live) - {s}
          && SpanPlaces.Used(spans.State()) == old(SpanPlaces.Used(spans.State())) - {s}
          && spans.List(SpanPlaces.Deferred(owner)) == [s] + old(spans.List(SpanPlaces.Deferred(owner)))
          && forall k: SpanPlaces.Place | k != SpanPlaces.Deferred(owner) :: spans.List(k) == old(spans.List(k))
    {
      hide SpanSystem.SpanSystem.Valid, SmallAllocator.Allocator.Valid, SpanPlaces.Used;
      hide SpanSystem.SpanSystem.Cached;
      LiveInUse();
      Headers(s);
      var owner := small.spans[s].owner.heap;
      var fate := small.Deallocate(heap, s, b);
      LiveInUse();
      match fate
      case Kept =>
      case ToHeapCache => spans.CacheInsert(heap, s); Headers(s);
      case ToDeferredCache => spans.DeferSpan(owner, s);
    }

    /** The allocator of small blocks knows exactly the spans with a set of live blocks. */
    lemma LiveInUse()
      requires small.Valid()
      ensures small.live.Keys == small.spans.Keys
    {
      hide SmallBlocks.Inv;
      SmallAllocator.LiveKeys(small.State(), Options.None);
    }

    /** A span in use has a right header, and all of them are pieces. */
    lemma Headers(s: Span)
      requires spans.Valid()
      ensures forall p <- SpanPlaces.Used(spans.State()) :: p in spans.memory.pieces
      ensures s in SpanPlaces.Used(spans.State()) ==>
        s in spans.memory.header && spans.memory.header[s].span_count == spans.memory.pieces[s]
    {
      hide SpanPlaces.Inv;
      SpanSystem.UsedPieces(spans.State());
      if s in SpanPlaces.Used(spans.State()) { SpanSystem.UsedFits(spans.State(), s, 0); }
    }

    /** Allocates a large block: a span of its own that was not in use. */
    method AllocateLarge(heap: nat, size: nat, region: nat, page_spans: nat) returns (s: Span)
      requires Valid() && MEDIUM_SIZE_LIMIT < size <= LARGE_SIZE_LIMIT && page_spans > 0 && region !in spans.memory.total
      modifies this`large, spans
      ensures Valid() && s !in old(SpanPlaces.Used(spans.State())) && large == old(large) + {s}
      ensures s in spans.memory.pieces && spans.memory.pieces[s] == CeilDiv(size + SPAN_HEADER_SIZE, SPAN_SIZE)
      ensures size + SPAN_HEADER_SIZE <= spans.memory.pieces[s] * SPAN_SIZE < size + SPAN_HEADER_SIZE + SPAN_SIZE
      ensures spans.Extracted(old(spans.Now()), spans.Now(), heap, spans.memory.pieces[s], region, page_spans, s)
      ensures region in spans.memory.total <==> SpanSystem.LevelOf(old(spans.Now()), heap, spans.memory.pieces[s]).FromSystem?
    {
      hide SpanSystem.SpanSystem.Extracted, SpanSystem.LevelOf;
      hide SpanSystem.SpanSystem.Valid, SmallAllocator.Allocator.Valid, SpanPlaces.Used;
      CeilCovers(size + SPAN_HEADER_SIZE, SPAN_SIZE);
      s := spans.ExtractNewSpan(heap, CeilDiv(size + SPAN_HEADER_SIZE, SPAN_SIZE), region, page_spans);
      large := large + {s};
    }

    method DeallocateLarge(heap: nat, s: Span)
      requires Valid() && s in large
      modifies this`large, spans
      ensures Valid() && large == old(large) - {s} && SpanPlaces.Used(spans.State()) == old(SpanPlaces.Used(spans.State())) - {s}
      ensures s in old(spans.memory.pieces) && var n := old(spans.memory.pieces[s]);
        if n > 1 && old(spans.Reserved(heap)) == 0
        then spans.List(SpanPlaces.Reserve(heap)) == [s] && spans.Reserved(heap) == n
        else spans.Cached(old(spans.Now()), spans.Now(), heap, s, n)
    {
      hide SpanSystem.SpanSystem.Valid, SmallAllocator.Allocator.Valid, SpanPlaces.Used;
      hide SpanSystem.SpanSystem.Cached;
      Headers(s);
      spans.DeallocateLarge(heap, s);
      large := large - {s};
    }

    /** A thread ends: its caches are emptied, its blocks stay. */
    method HeapFinalize(heap: nat)
      requires Valid()
      modifies spans
      ensures Valid() && SpanPlaces.Used(spans.State()) == old(SpanPlaces.Used(spans.State()))
      ensures spans.List(SpanPlaces.Deferred(heap)) == [] && forall n: nat :: spans.List(SpanPlaces.ThreadCache(heap, n)) == []
    {
      hide SpanSystem.SpanSystem.Valid, SmallAllocator.Allocator.Valid, SpanPlaces.Used;
      Headers(SuperSpans.Span(0, 0));
      spans.HeapFinalize(heap);
      Headers(SuperSpans.Span(0, 0));
    }

    /** No small or large block is allocated. */
    ghost predicate NoneLive()
      reads this, small
    {
      large == {} && forall s <- small.live :: small.live[s] == {}
    }

    /** These are all the heaps there are. */
    ghost predicate AllHeaps(heaps: seq<nat>)
      reads small, spans
    {
      && (forall i, j | 0 <= i < j < |heaps| :: heaps[i] != heaps[j])
      && spans.HeldBy(heaps) && forall s <- small.spans :: small.spans[s].owner.heap in heaps
    }

    /** The walk over the partial lists of all heaps. */
    method CollectEmpty(heaps: seq<nat>) returns (empty: seq<seq<Span>>)
      requires small.Valid()
      ensures |empty| == |heaps|
      ensures forall j | 0 <= j < |heaps| :: SuperSpans.Distinct(empty[j]) && forall s :: s in empty[j] <==> small.FoundEmpty(heaps[j], s)
    {
      hide SmallAllocator.Allocator.Valid, SmallAllocator.Allocator.FoundEmpty;
      empty := [];
      for i := 0 to |heaps|
        invariant |empty| == i
        invariant forall j | 0 <= j < i :: SuperSpans.Distinct(empty[j]) && forall s :: s in empty[j] <==> small.FoundEmpty(heaps[j], s)
      {
        var found := small.EmptySpans(heaps[i]);
        empty := empty + [found];
      }
    }

    /** The end of the program: if no block is live, every region is released. */
    method Finalize(heaps: seq<nat>)
      requires Valid() && NoneLive() && AllHeaps(heaps)
      modifies spans
      ensures spans.Valid() && spans.memory.total == map[]
    {
      hide SpanSystem.SpanSystem.Valid, SmallAllocator.Allocator.Valid, SpanPlaces.Used, SmallAllocator.Allocator.FoundEmpty;
      var empty := CollectEmpty(heaps);
      Headers(SuperSpans.Span(0, 0));
      FoundAreInUse(heaps);
      AllFound(heaps, empty);
      spans.Finalize(heaps, empty);
    }

    /** What the walk finds empty are the spans of small blocks, each under its own heap. */
    lemma FoundAreInUse(heaps: seq<nat>)
      requires small.Valid()
      ensures forall h: nat, s: Span | small.FoundEmpty(h, s) :: s in small.spans && small.spans[s].owner.heap == h
    {
    }

    /** Without live blocks the walk finds every span of small blocks. */
    lemma AllFound(heaps: seq<nat>, empty: seq<seq<Span>>)
      requires small.Valid() && NoneLive() && |empty| == |heaps|
      requires forall s <- small.spans :: small.spans[s].owner.heap in heaps
      requires forall j | 0 <= j < |heaps| :: forall s :: s in empty[j] <==> small.FoundEmpty(heaps[j], s)
      ensures forall s <- small.spans :: exists i :: 0 <= i < |empty| && s in empty[i]
    {
      hide SmallBlocks.Inv, LooksEmpty;
      LiveInUse();
      forall s | s in small.spans ensures exists i :: 0 <= i < |empty| && s in empty[i] {
        SmallAllocator.CleanupTakesAll(small.State(), small.spans[s].owner);
        var i :| 0 <= i < |heaps| && heaps[i] == small.spans[s].owner.heap;
        assert small.FoundEmpty(heaps[i], s);
      }
    }
  }
}
