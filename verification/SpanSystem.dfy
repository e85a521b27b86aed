/**
 Getting and returning spans: three levels of caches, the reserve, mapping, and the release of everything at the end.
 Whole operations of any number of heaps; the pointer form of the lists is the subject of SpanCacheLists.
 */
module SpanSystem {

  import opened SuperSpans
  import opened SpanPlaces
  import opened Options
  import BlockArith

  /** Where a span comes from. */
  datatype Level = FromCache | FromReserve | FromGlobal | FromSystem

  const LARGE_CLASS_COUNT: nat := 32
  const THREAD_CACHE_MULTIPLIER: nat := 16
  const GLOBAL_CACHE_MULTIPLIER: nat := 96

  function Sum(sizes: seq<nat>): nat { if sizes == [] then 0 else sizes[0] + Sum(sizes[1..]) }

  function Reversed(spans: seq<Span>): seq<Span> {
    if spans == [] then [] else Reversed(spans[1..]) + [spans[0]]
  }

  /** A heap's cache; one of single spans after it has adopted what other threads handed back. */
  function Adopted(s: Sys, heap: nat, n: nat): seq<Span> {
    if n == 1 then Reversed(Held(s, Deferred(heap))) + Held(s, ThreadCache(heap, 1)) else Held(s, ThreadCache(heap, n))
  }

  lemma {:induction false} ReversedSame(spans: seq<Span>, p: Span)
    requires p in Reversed(spans)
    ensures p in spans
  {
    if p != spans[0] { ReversedSame(spans[1..], p); }
  }

  /** No cached span lies in a region that is not mapped. */
  lemma AdoptedRegions(s: Sys, heap: nat, n: nat, r: Region)
    requires Inv(s) && r !in s.memory.total
    ensures forall p <- Adopted(s, heap, n) :: p.region != r
    ensures forall p <- Held(s, Reserve(heap)) :: p.region != r
  {
    hide Inv;
    ListRegions(s, Deferred(heap), r);
    ListRegions(s, ThreadCache(heap, n), r);
    ListRegions(s, Reserve(heap), r);
    forall p | p in Adopted(s, heap, n) ensures p.region != r {
      if n == 1 && p !in Held(s, ThreadCache(heap, 1)) { ReversedSame(Held(s, Deferred(heap)), p); }
    }
  }

  lemma ListRegions(s: Sys, k: Place, r: Region)
    requires Inv(s) && r !in s.memory.total
    ensures forall p <- Held(s, k) :: p.region != r
  {
    hide ListOk, FitsPlace, PlaceOk;
    ListFacts(s, k);
    RegionOfPiece(s.memory);
  }

  /**
   A heap's cache that has become too long passes its newest spans on to the global cache, or unmaps them where that is
   full.
   */
  predicate Spilled(cache: seq<Span>, global: seq<Span>, release: nat, cache': seq<Span>, global': seq<Span>, pieces': set<Span>) {
    var n := if |cache| > release * THREAD_CACHE_MULTIPLIER then release else 0;
    && n <= |cache| && cache' == cache[n..]
    && if |global| + n <= GLOBAL_CACHE_MULTIPLIER * release then global' == cache[..n] + global
       else global' == global && forall i | 0 <= i < n :: cache[i] !in pieces'
  }

  /** Mapping a new region brings no unmapped span back. */
  lemma CachedStays(pre: Sys, s: Sys, pieces: set<Span>, heap: nat, n: nat, p: Span, release: nat, r: Region)
    requires Inv(pre) && r !in pre.memory.total && p in Held(pre, Reserve(heap))
    requires Spilled([p] + Adopted(pre, heap, n), Held(pre, GlobalCache(n)), release,
                     Held(s, ThreadCache(heap, n)), Held(s, GlobalCache(n)), s.memory.pieces.Keys)
    requires forall q <- pieces | q !in s.memory.pieces :: q.region == r
    ensures Spilled([p] + Adopted(pre, heap, n), Held(pre, GlobalCache(n)), release,
                    Held(s, ThreadCache(heap, n)), Held(s, GlobalCache(n)), pieces)
  {
    hide Inv, Adopted;
    AdoptedRegions(pre, heap, n, r);
    var cache := [p] + Adopted(pre, heap, n);
    forall i | 0 <= i < |cache| && cache[i] !in s.memory.pieces ensures cache[i] !in pieces {
      assert i == 0 || cache[i] in Adopted(pre, heap, n);
    }
  }

  datatype Caches = Caches(sys: Sys, reserved: map<nat, nat>, sizes: map<nat, seq<nat>>)

  function ReservedIn(c: Caches, heap: nat): nat { if heap in c.reserved then c.reserved[heap] else 0 }

  /** A whole cache goes to the top of the global cache, list by list; a list for which there is no room does not. */
  function Stacked(cache: seq<Span>, global: seq<Span>, release: nat): seq<Span> {
    if cache == [] || release == 0 then global
    else
      var n := if |cache| > release then release else |cache|;
      Stacked(cache[n..], if |global| + n <= GLOBAL_CACHE_MULTIPLIER * release then cache[..n] + global else global, release)
  }

  /** Where there is room for all, no span is lost or doubled. */
  lemma {:induction false} StackedKeeps(cache: seq<Span>, global: seq<Span>, release: nat)
    requires release > 0 && |cache| + |global| <= GLOBAL_CACHE_MULTIPLIER * release
    ensures multiset(Stacked(cache, global, release)) == multiset(cache) + multiset(global)
    decreases |cache|
  {
    if cache != [] {
      var n := if |cache| > release then release else |cache|;
      StackedKeeps(cache[n..], cache[..n] + global, release);
      assert cache == cache[..n] + cache[n..];
    }
  }

  function SizesIn(c: Caches, n: nat): seq<nat> { if n in c.sizes then c.sizes[n] else [] }

  /** The first level that has a span, in the program's order; memory is mapped only when none has. */
  function LevelOf(c: Caches, heap: nat, n: nat): Level {
    if Adopted(c.sys, heap, n) != [] then FromCache
    else if ReservedIn(c, heap) >= n then FromReserve
    else if Held(c.sys, GlobalCache(n)) != [] then FromGlobal
    else FromSystem
  }

  /** The list on top of the global cache is the heap's cache now, but for its first span. */
  ghost predicate TopListTaken(was: Caches, now: Caches, heap: nat, n: nat, p: Span) {
    var sizes, global := SizesIn(was, n), Held(was.sys, GlobalCache(n));
    && sizes != [] && 0 < sizes[0] <= |global| && p == global[0] && Held(now.sys, ThreadCache(heap, n)) == global[1..sizes[0]]
    && Held(now.sys, GlobalCache(n)) == global[sizes[0]..] && SizesIn(now, n) == sizes[1..]
    && now.sys.memory == was.sys.memory
    && forall k: Place | k != ThreadCache(heap, n) && k != GlobalCache(n) :: Held(now.sys, k) == Held(was.sys, k)
  }

  class SpanSystem {
    var memory: Memory
    var held: map<Place, seq<Span>>
    var spans_reserved: map<nat, nat>
    var list_sizes: map<nat, seq<nat>>
    const release_count: nat
    const release_count_large: nat
    const span_map_count: nat
    ghost var place: map<Span, Place>

    ghost function State(): Sys
      reads this
    {
      Sys(memory, held, place)
    }

    function List(k: Place): seq<Span>
      reads this
    {
      if k in held then held[k] else []
    }

    function Reserved(heap: nat): nat
      reads this
    {
      if heap in spans_reserved then spans_reserved[heap] else 0
    }

    function ListSizes(n: nat): seq<nat>
      reads this
    {
      if n in list_sizes then list_sizes[n] else []
    }

    function ReleaseCount(n: nat): nat { if n == 1 then release_count else release_count_large }

    function GlobalLimit(n: nat): nat { GLOBAL_CACHE_MULTIPLIER * ReleaseCount(n) }

    /** The heap's counter is the size of its reserve. */
    ghost predicate ReserveOk(heap: nat)
      reads this
    {
      if List(Reserve(heap)) == [] then Reserved(heap) == 0
      else List(Reserve(heap))[0] in memory.pieces && Reserved(heap) == memory.pieces[List(Reserve(heap))[0]]
    }

    /** A global cache is a stack of lists within its limit. */
    ghost predicate GlobalOk(n: nat)
      reads this
    {
      && Sum(ListSizes(n)) == |List(GlobalCache(n))| <= GlobalLimit(n)
      && forall i | 0 <= i < |ListSizes(n)| :: ListSizes(n)[i] > 0
    }

    ghost predicate SlotOk(k: Place)
      reads this
    {
      List(k) != [] ==> match k
        case ThreadCache(_, n) => 1 <= n <= LARGE_CLASS_COUNT
        case GlobalCache(n) => 1 <= n <= LARGE_CLASS_COUNT
        case _ => true
    }

    ghost predicate Valid()
      reads this
    {
      && release_count >= 2 && release_count_large >= 2 && span_map_count > 0
      && Inv(State())
      && (forall h: nat :: ReserveOk(h)) && (forall n: nat :: GlobalOk(n)) && (forall k: Place :: SlotOk(k))
    }

    constructor (release_count: nat, release_count_large: nat, span_map_count: nat)
      requires release_count >= 2 && release_count_large >= 2 && span_map_count > 0
      ensures Valid() && Used(State()) == {} && memory.total == map[]
      ensures this.release_count == release_count && this.release_count_large == release_count_large && this.span_map_count == span_map_count
    {
      this.release_count, this.release_count_large, this.span_map_count := release_count, release_count_large, span_map_count;
      memory := Memory(map[], map[], map[], map[]);
      held, spans_reserved, list_sizes, place := map[], map[], map[], map[];
    }

    /** What a step leaves alone: the lists of other heaps. */
    twostate predicate OtherHeapsKept(heap: nat)
      reads this
    {
      forall k: Place | (k.ThreadCache? || k.Deferred? || k.Reserve?) && k.heap != heap :: List(k) == old(List(k))
    }

    /** No piece is cut, moved or added: some may be gone. */
    twostate predicate Shrunk()
      reads this
    {
      forall q <- memory.pieces :: q in old(memory.pieces) && memory.pieces[q] == old(memory.pieces)[q]
    }

    /** What is in use keeps its size. */
    twostate predicate UsedKept()
      reads this
    {
      forall q <- old(Used(State())) | q in Used(State()) ::
        q in old(memory.pieces) && q in memory.pieces && memory.pieces[q] == old(memory.pieces)[q]
    }

    /** The caches with their counters, as a value. */
    ghost function Now(): Caches
      reads this
    {
      Caches(State(), spans_reserved, list_sizes)
    }

    /** What caching a span does to the lists; single spans handed back by other threads are adopted before. */
    ghost predicate Cached(was: Caches, now: Caches, heap: nat, p: Span, n: nat) {
      && Spilled([p] + Adopted(was.sys, heap, n), Held(was.sys, GlobalCache(n)), ReleaseCount(n),
                 Held(now.sys, ThreadCache(heap, n)), Held(now.sys, GlobalCache(n)), now.sys.memory.pieces.Keys)
      && (n == 1 ==> Held(now.sys, Deferred(heap)) == [])
      && forall k: Place | k != ThreadCache(heap, n) && k != GlobalCache(n) && (n == 1 ==> k != Deferred(heap)) && k != Reserve(heap) ::
           Held(now.sys, k) == Held(was.sys, k)
    }

    /** The lists, under both of their names. */
    lemma Lists()
      ensures forall k: Place {:trigger Held(State(), k)} :: Held(State(), k) == List(k)
    {
    }

    /** Unmaps a span out of use. */
    method UnmapSpan(p: Span)
      requires Valid() && p in Used(State())
      modifies this`memory, this`place
      ensures Valid() && Used(State()) == old(Used(State())) - {p}
      ensures memory.total.Keys <= old(memory.total.Keys) && Shrunk() && p !in memory.pieces
    {
      hide Inv, Marked;
      UnmapOneOk(State(), p);
      UsedAndReserve(State(), p);
      memory := Unmapped(memory, p);
      place := place - {p};
      forall h: nat ensures ReserveOk(h) {
        assert old(ReserveOk(h)) && p !in Held(old(State()), Reserve(h));
        assert List(Reserve(h)) != [] ==> List(Reserve(h))[0] in Held(old(State()), Reserve(h));
      }
      forall n: nat ensures GlobalOk(n) { assert old(GlobalOk(n)); }
      forall k: Place ensures SlotOk(k) { assert old(SlotOk(k)); }
    }

    /** Takes the first span of a list into use. */
    method Pull(k: Place) returns (p: Span)
      requires Valid() && List(k) != [] && (k.ThreadCache? || k.Deferred?)
      modifies this`held, this`place
      ensures Valid() && p == old(List(k))[0] && p !in old(Used(State())) && Used(State()) == old(Used(State())) + {p}
      ensures List(k) == old(List(k))[1..] && forall k': Place | k' != k :: List(k') == old(List(k'))
      ensures FitsPlace(State(), p, k)
    {
      hide Inv, Marked;
      PullOk(State(), k);
      FirstFits(State(), k);
      p := List(k)[0];
      held := held[k := List(k)[1..]];
      place := place[p := InUse];
      forall h: nat ensures ReserveOk(h) { assert old(ReserveOk(h)); }
      forall n: nat ensures GlobalOk(n) { assert old(GlobalOk(n)); }
      forall k': Place ensures SlotOk(k') { assert old(SlotOk(k')); }
    }

    /** Puts a span out of use into the front of a list. */
    method Push(k: Place, p: Span)
      requires Valid() && p in Used(State()) && (k.ThreadCache? || k.Deferred?) && FitsPlace(State(), p, k)
      requires k.ThreadCache? ==> 1 <= k.count <= LARGE_CLASS_COUNT
      modifies this`held, this`place
      ensures Valid() && Used(State()) == old(Used(State())) - {p}
      ensures List(k) == [p] + old(List(k)) && forall k': Place | k' != k :: List(k') == old(List(k'))
    {
      hide Inv, Marked;
      PushOk(State(), k, p);
      held := held[k := [p] + List(k)];
      place := place[p := k];
      forall h: nat ensures ReserveOk(h) { assert old(ReserveOk(h)); }
      forall n: nat ensures GlobalOk(n) { assert old(GlobalOk(n)); }
      forall k': Place ensures SlotOk(k') { assert old(SlotOk(k')); }
    }

    /** Takes the spans that other threads handed back over into the cache. */
    method AdoptDeferred(heap: nat)
      requires Valid()
      modifies this`held, this`place
      ensures Valid() && Used(State()) == old(Used(State())) && List(Deferred(heap)) == []
      ensures List(ThreadCache(heap, 1)) == Reversed(old(List(Deferred(heap)))) + old(List(ThreadCache(heap, 1)))
      ensures forall k: Place | k != Deferred(heap) && k != ThreadCache(heap, 1) :: List(k) == old(List(k))
    {
      hide Inv, Marked, FitsPlace;
      while List(Deferred(heap)) != []
        invariant Valid() && Used(State()) == old(Used(State()))
        invariant Reversed(List(Deferred(heap))) + List(ThreadCache(heap, 1))
                  == Reversed(old(List(Deferred(heap)))) + old(List(ThreadCache(heap, 1)))
        invariant forall k: Place | k != Deferred(heap) && k != ThreadCache(heap, 1) :: List(k) == old(List(k))
        decreases |List(Deferred(heap))|
      {
        var p := Pull(Deferred(heap));
        DeferredFitsCache(State(), p, heap);
        Push(ThreadCache(heap, 1), p);
      }
    }

    /** Unmaps the first n spans of a cache, one by one. */
    method UnmapSpanList(heap: nat, count: nat, n: nat)
      requires Valid() && n <= |List(ThreadCache(heap, count))|
      modifies this`memory, this`held, this`place
      ensures Valid() && Used(State()) == old(Used(State())) && memory.total.Keys <= old(memory.total.Keys) && Shrunk()
      ensures List(ThreadCache(heap, count)) == old(List(ThreadCache(heap, count)))[n..]
      ensures forall i | 0 <= i < n :: old(List(ThreadCache(heap, count)))[i] !in memory.pieces
      ensures forall k: Place | k != ThreadCache(heap, count) :: List(k) == old(List(k))
    {
      hide Inv, Marked, FitsPlace;
      for i := 0 to n
        invariant Valid() && Used(State()) == old(Used(State())) && memory.total.Keys <= old(memory.total.Keys) && Shrunk()
        invariant List(ThreadCache(heap, count)) == old(List(ThreadCache(heap, count)))[i..]
        invariant forall j | 0 <= j < i :: old(List(ThreadCache(heap, count)))[j] !in memory.pieces
        invariant forall k: Place | k != ThreadCache(heap, count) :: List(k) == old(List(k))
      {
        var p := Pull(ThreadCache(heap, count));
        UnmapSpan(p);
      }
    }

    /** Offers the first n spans of a heap's cache to the global cache as one list, which may be full. */
    method PassOn(heap: nat, count: nat, n: nat)
      requires Valid() && 0 < n <= |List(ThreadCache(heap, count))|
      modifies this`memory, this`held, this`place, this`list_sizes
      ensures Valid() && Used(State()) == old(Used(State())) && memory.total.Keys <= old(memory.total.Keys) && Shrunk()
      ensures List(ThreadCache(heap, count)) == old(List(ThreadCache(heap, count)))[n..]
      ensures if |old(List(GlobalCache(count)))| + n <= GlobalLimit(count)
        then List(GlobalCache(count)) == old(List(ThreadCache(heap, count)))[..n] + old(List(GlobalCache(count)))
             && ListSizes(count) == [n] + old(ListSizes(count)) && memory == old(memory)
        else List(GlobalCache(count)) == old(List(GlobalCache(count)))
             && forall i | 0 <= i < n :: old(List(ThreadCache(heap, count)))[i] !in memory.pieces
      ensures forall k: Place | k != ThreadCache(heap, count) && k != GlobalCache(count) :: List(k) == old(List(k))
    {
      hide Inv, Marked;
      if |List(GlobalCache(count))| + n > GlobalLimit(count) {
        UnmapSpanList(heap, count, n);
      } else {
        assert SlotOk(ThreadCache(heap, count));
        PrefixFits(State(), ThreadCache(heap, count), n, GlobalCache(count));
        ShiftOk(State(), ThreadCache(heap, count), n, GlobalCache(count));
        ShiftPieces(State(), ThreadCache(heap, count), n, GlobalCache(count));
        ghost var st := Shifted(State(), ThreadCache(heap, count), n, GlobalCache(count));
        var moved := List(ThreadCache(heap, count))[..n];
        var below := List(GlobalCache(count));
        held := held[ThreadCache(heap, count) := List(ThreadCache(heap, count))[n..]][GlobalCache(count) := moved + below];
        list_sizes := list_sizes[count := [n] + ListSizes(count)];
        place := st.place;
        assert State() == st;
        forall h: nat ensures ReserveOk(h) { assert old(ReserveOk(h)); }
        forall m: nat ensures GlobalOk(m) { assert old(GlobalOk(m)); }
        forall k: Place ensures SlotOk(k) { assert old(SlotOk(k)); }
      }
    }

    /** Passes the newest spans on when the cache has grown too long. */
    method Spill(heap: nat, n: nat)
      requires Valid() && |List(GlobalCache(n))| <= GlobalLimit(n)
      modifies this`memory, this`held, this`place, this`list_sizes
      ensures Valid() && Used(State()) == old(Used(State())) && memory.total.Keys <= old(memory.total.Keys) && Shrunk()
      ensures Spilled(old(List(ThreadCache(heap, n))), old(List(GlobalCache(n))), ReleaseCount(n),
                      List(ThreadCache(heap, n)), List(GlobalCache(n)), memory.pieces.Keys)
      ensures forall k: Place | k != ThreadCache(heap, n) && k != GlobalCache(n) :: List(k) == old(List(k))
    {
      hide Inv;
      if |List(ThreadCache(heap, n))| > ReleaseCount(n) * THREAD_CACHE_MULTIPLIER {
        PassOn(heap, n, ReleaseCount(n));
      }
    }

    /** Puts a span out of use in front of the heap's cache, deferred spans adopted before. */
    method PutInCache(heap: nat, p: Span) returns (n: nat)
      requires Valid() && p in Used(State()) && p in memory.header && memory.header[p].span_count <= LARGE_CLASS_COUNT
      modifies this`held, this`place
      ensures Valid() && Used(State()) == old(Used(State())) - {p} && n == memory.header[p].span_count
      ensures List(ThreadCache(heap, n)) == [p] + Adopted(old(State()), heap, n) && (n == 1 ==> List(Deferred(heap)) == [])
      ensures forall k: Place | k != ThreadCache(heap, n) && (n == 1 ==> k != Deferred(heap)) :: List(k) == old(List(k))
    {
      hide Inv, Marked, FitsPlace, SpanSystem.ReserveOk, SpanSystem.GlobalOk, SpanSystem.SlotOk;
      n := memory.header[p].span_count;
      UsedFits(State(), p, heap);
      if n == 1 { AdoptDeferred(heap); }
      hide Reversed;
      UsedFits(State(), p, heap);
      Push(ThreadCache(heap, n), p);
    }

    /** Puts a span out of use into the heap's cache, and passes the newest spans on when the cache has grown too long. */
    method CacheInsert(heap: nat, p: Span)
      requires Valid() && p in Used(State()) && p in memory.header && memory.header[p].span_count <= LARGE_CLASS_COUNT
      modifies this`memory, this`held, this`place, this`list_sizes
      ensures Valid() && Used(State()) == old(Used(State())) - {p} && memory.total.Keys <= old(memory.total.Keys) && Shrunk()
      ensures Cached(old(Now()), Now(), heap, p, old(memory.header[p].span_count))
      ensures OtherHeapsKept(heap) && List(Reserve(heap)) == old(List(Reserve(heap)))
    {
      hide Inv, Used, Marked, Spilled, Adopted, SpanSystem.ReserveOk, SpanSystem.SlotOk;
      Lists();
      var n := PutInCache(heap, p);
      assert GlobalOk(n);
      hide SpanSystem.GlobalOk;
      Spill(heap, n);
      Lists();
    }

    /** Cuts spans off the heap's reserve. */
    method MapFromReserve(heap: nat, n: nat) returns (p: Span)
      requires Valid() && 0 < n <= Reserved(heap)
      modifies this`memory, this`held, this`place, this`spans_reserved
      ensures Valid() && p !in old(Used(State())) && Used(State()) == old(Used(State())) + {p}
      ensures Marked(memory, p) && p in memory.pieces && memory.pieces[p] == n && Reserved(heap) == old(Reserved(heap)) - n
      ensures memory.total == old(memory.total) && forall k: Place | k != Reserve(heap) :: List(k) == old(List(k))
      ensures old(List(Reserve(heap))) == [p]
      ensures List(Reserve(heap)) == if n < old(Reserved(heap)) then [Span(p.region, p.start + n)] else []
      ensures n == old(Reserved(heap)) ==> memory.pieces == old(memory.pieces)
      ensures UsedKept()
    {
      hide Inv;
      UsedPieces(State());
      assert ReserveOk(heap);
      ReserveFacts(State(), heap);
      CutReserveOk(State(), heap, n);
      CutReserveMarks(State(), heap, n);
      ghost var st := CutReserve(State(), heap, n);
      p := List(Reserve(heap))[0];
      var left := Reserved(heap) - n;
      memory := Cut(memory, p, n);
      held := held[Reserve(heap) := if left > 0 then [Span(p.region, p.start + n)] else []];
      spans_reserved := spans_reserved[heap := left];
      place := st.place;
      assert State() == st;
      forall h: nat ensures ReserveOk(h) {
        assert old(ReserveOk(h));
        if h != heap && List(Reserve(h)) != [] { OtherReserve(old(State()), heap, h); }
      }
      forall m: nat ensures GlobalOk(m) { assert old(GlobalOk(m)); }
      forall k: Place ensures SlotOk(k) { assert old(SlotOk(k)); }
    }

    function RequestCount(n: nat): nat { if n > span_map_count then n else span_map_count }

    /** How many spans are mapped for a request, in units of the system's pages where these are larger than a span. */
    function AlignSpanCount(n: nat, page_spans: nat): (total: nat)
      requires span_map_count > 0 && page_spans > 0
      ensures total >= n && total >= span_map_count
      ensures page_spans == 1 || RequestCount(n) % page_spans == 0 ==> total == n || total == span_map_count
      ensures page_spans > 1 && RequestCount(n) % page_spans != 0 ==>
        total % span_map_count == 0 && RequestCount(n) < total <= RequestCount(n) + span_map_count
    {
      NextMultiple(RequestCount(n), span_map_count);
      var request_count := RequestCount(n);
      if page_spans > 1 && request_count % page_spans != 0
      then request_count + (span_map_count - request_count % span_map_count) else request_count
    }

    /** What is mapped beyond the spans asked for becomes the reserve, and the old reserve is cached. */
    ghost predicate NewRegion(was: Caches, now: Caches, heap: nat, n: nat, r: Region, total: nat) {
      && (if total > n then Held(now.sys, Reserve(heap)) == [Span(r, n)] && ReservedIn(now, heap) == total - n
          else Held(now.sys, Reserve(heap)) == Held(was.sys, Reserve(heap)) && ReservedIn(now, heap) == ReservedIn(was, heap))
      && if total > n && ReservedIn(was, heap) > 0
         then |Held(was.sys, Reserve(heap))| == 1 && Cached(was, now, heap, Held(was.sys, Reserve(heap))[0], ReservedIn(was, heap))
         else forall k: Place | k != Reserve(heap) :: Held(now.sys, k) == Held(was.sys, k)
    }

    /** Maps a new region; a reserve that was too small is marked and goes to the cache. */
    method MapAlignedSpanCount(heap: nat, n: nat, r: Region, page_spans: nat) returns (p: Span)
      requires Valid() && page_spans > 0 && r !in memory.total && Reserved(heap) < n <= LARGE_CLASS_COUNT
      modifies this
      ensures Valid() && p !in old(Used(State())) && Used(State()) == old(Used(State())) + {p}
      ensures Marked(memory, p) && p in memory.pieces && memory.pieces[p] == n && UsedKept() && p == Span(r, 0)
      ensures r in memory.total && NewRegion(old(Now()), Now(), heap, n, r, AlignSpanCount(n, page_spans))
    {
      hide Inv, Marked, FitsPlace, Spilled, Reversed, Adopted, AlignSpanCount, SpanSystem.GlobalOk, SpanSystem.SlotOk;
      UsedPieces(State());
      var total := AlignSpanCount(n, page_spans);
      assert ReserveOk(heap);
      var left := Reserved(heap);
      ghost var pre := State();
      Lists();
      ghost var rest := if List(Reserve(heap)) != [] then List(Reserve(heap))[0] else Span(r, 0);
      if total > n && left > 0 { CacheReserve(heap); }
      assert ReserveOk(heap);
      ReserveNotEmpty(State(), heap);
      ghost var st := State();
      Lists();
      p := SetMapped(heap, n, r, total);
      Lists();
      if total > n && left > 0 {
        assert List(ThreadCache(heap, left)) == Held(st, ThreadCache(heap, left)) && List(Deferred(heap)) == Held(st, Deferred(heap));
        assert List(GlobalCache(left)) == Held(st, GlobalCache(left));
        CachedStays(pre, st, memory.pieces.Keys, heap, left, rest, ReleaseCount(left), r);
      }
    }

    /** Takes the whole reserve out, marks it and caches it. */
    method CacheReserve(heap: nat)
      requires Valid() && 0 < Reserved(heap) <= LARGE_CLASS_COUNT
      modifies this
      ensures Valid() && Used(State()) == old(Used(State())) && UsedKept() && memory.total.Keys <= old(memory.total.Keys)
      ensures List(Reserve(heap)) == [] && Reserved(heap) == 0 && |old(List(Reserve(heap)))| == 1
      ensures Cached(old(Now()), Now(), heap, old(List(Reserve(heap))[0]), old(Reserved(heap)))
    {
      hide Inv, Marked, FitsPlace, Spilled, Reversed;
      UsedPieces(State());
      Lists();
      var left := Reserved(heap);
      var rest := MapFromReserve(heap, left);
      Lists();
      assert List(Deferred(heap)) == old(List(Deferred(heap))) && List(ThreadCache(heap, left)) == old(List(ThreadCache(heap, left)));
      assert List(GlobalCache(left)) == old(List(GlobalCache(left)));
      UsedFits(State(), rest, heap);
      CacheInsert(heap, rest);
      Lists();
      UsedPieces(State());
      assert ReserveOk(heap);
    }

    method SetMapped(heap: nat, n: nat, r: Region, total: nat) returns (p: Span)
      requires Valid() && r !in memory.total && 0 < n <= total && (n < total ==> List(Reserve(heap)) == [])
      modifies this`memory, this`held, this`place, this`spans_reserved
      ensures Valid() && p !in old(Used(State())) && Used(State()) == old(Used(State())) + {p}
      ensures Marked(memory, p) && p in memory.pieces && memory.pieces[p] == n && UsedKept()
      ensures p == Span(r, 0) && r in memory.total && (forall k: Place | k != Reserve(heap) :: List(k) == old(List(k)))
      ensures if total > n then List(Reserve(heap)) == [Span(r, n)] && Reserved(heap) == total - n
        else List(Reserve(heap)) == old(List(Reserve(heap))) && Reserved(heap) == old(Reserved(heap))
      ensures forall q <- memory.pieces | q !in old(memory.pieces) :: q.region == r
    {
      hide Inv, Used, Mapped, MappedNew, Marked;
      MapNewFacts(State(), heap, r, total, n);
      ghost var st := MappedNew(State(), heap, r, total, n);
      p := Span(r, 0);
      memory := Mapped(memory, r, total, n);
      if total > n {
        held := held[Reserve(heap) := [Span(r, n)]];
        spans_reserved := spans_reserved[heap := total - n];
      }
      place := st.place;
      assert State() == st;
      forall h: nat ensures ReserveOk(h) { assert old(ReserveOk(h)); }
      forall m: nat ensures GlobalOk(m) { assert old(GlobalOk(m)); }
      forall k: Place ensures SlotOk(k) { assert old(SlotOk(k)); }
    }

    /** The span that the first level with one gives, and what it leaves in the lists. */
    ghost predicate Extracted(was: Caches, now: Caches, heap: nat, n: nat, r: Region, page_spans: nat, p: Span)
      requires span_map_count > 0 && page_spans > 0
    {
      match LevelOf(was, heap, n)
      case FromCache =>
        var cache := Adopted(was.sys, heap, n);
        && cache != [] && p == cache[0] && Held(now.sys, ThreadCache(heap, n)) == cache[1..]
        && (n == 1 ==> Held(now.sys, Deferred(heap)) == []) && now.sys.memory == was.sys.memory
        && forall k: Place | k != ThreadCache(heap, n) && (n == 1 ==> k != Deferred(heap)) :: Held(now.sys, k) == Held(was.sys, k)
      case FromReserve =>
        && Held(was.sys, Reserve(heap)) == [p] && ReservedIn(now, heap) == ReservedIn(was, heap) - n
        && Held(now.sys, Reserve(heap)) == (if n < ReservedIn(was, heap) then [Span(p.region, p.start + n)] else [])
        && now.sys.memory.total == was.sys.memory.total
        && forall k: Place | k != Reserve(heap) :: Held(now.sys, k) == Held(was.sys, k)
      case FromGlobal => TopListTaken(was, now, heap, n, p)
      case FromSystem => p == Span(r, 0) && r in now.sys.memory.total && NewRegion(was, now, heap, n, r, AlignSpanCount(n, page_spans))
    }

    /** The list on top of the global cache becomes the heap's cache, whose slot is empty. */
    method TakeTopList(heap: nat, n: nat) returns (size: nat)
      requires Valid() && List(ThreadCache(heap, n)) == [] && ListSizes(n) != []
      modifies this`held, this`place, this`list_sizes
      ensures Valid() && Used(State()) == old(Used(State()))
      ensures size == old(ListSizes(n))[0] && ListSizes(n) == old(ListSizes(n))[1..]
      ensures var global := old(List(GlobalCache(n)));
        0 < size <= |global| && List(ThreadCache(heap, n)) == global[..size] && List(GlobalCache(n)) == global[size..]
      ensures forall k: Place | k != ThreadCache(heap, n) && k != GlobalCache(n) :: List(k) == old(List(k))
    {
      hide Inv, Used, Marked;
      size := ListSizes(n)[0];
      assert GlobalOk(n) && SlotOk(GlobalCache(n));
      SumFirst(ListSizes(n));
      GlobalPrefixFits(State(), n, size, heap);
      ShiftOk(State(), GlobalCache(n), size, ThreadCache(heap, n));
      ghost var st := Shifted(State(), GlobalCache(n), size, ThreadCache(heap, n));
      var list := List(GlobalCache(n))[..size];
      assert list + [] == list;
      held := held[GlobalCache(n) := List(GlobalCache(n))[size..]][ThreadCache(heap, n) := list];
      list_sizes := list_sizes[n := ListSizes(n)[1..]];
      place := st.place;
      assert State() == st;
      forall h: nat ensures ReserveOk(h) { assert old(ReserveOk(h)); }
      forall m: nat ensures GlobalOk(m) { assert old(GlobalOk(m)); }
      forall k: Place ensures SlotOk(k) { assert old(SlotOk(k)); }
    }

    /** And its first span is taken. */
    method GlobalExtract(heap: nat, n: nat) returns (p: Span)
      requires Valid() && List(ThreadCache(heap, n)) == [] && ListSizes(n) != []
      modifies this`held, this`place, this`list_sizes
      ensures Valid() && p !in old(Used(State())) && Used(State()) == old(Used(State())) + {p} && FitsPlace(State(), p, InUse)
      ensures p in memory.pieces && memory.pieces[p] == n
      ensures TopListTaken(old(Now()), Now(), heap, n, p)
    {
      hide Inv, Used, Marked, SpanSystem.ReserveOk, SpanSystem.GlobalOk, SpanSystem.SlotOk;
      Lists();
      var _ := TakeTopList(heap, n);
      p := Pull(ThreadCache(heap, n));
      CachedMarked(State(), p, heap, n);
      Lists();
    }

    /** A global cache is empty exactly when it has no list. */
    lemma GlobalSizes(n: nat)
      requires Valid()
      ensures ListSizes(n) == [] <==> List(GlobalCache(n)) == []
    {
      hide Inv;
      assert GlobalOk(n);
      if ListSizes(n) != [] { SumFirst(ListSizes(n)); }
    }

    /** The heap's cache has a span, or gets one by adopting what other threads handed back. */
    predicate HasCached(heap: nat, n: nat)
      reads this
    {
      List(ThreadCache(heap, n)) != [] || (n == 1 && List(Deferred(heap)) != [])
    }

    /** Adopts and takes the first span. */
    method ThreadCacheExtract(heap: nat, n: nat) returns (p: Span)
      requires Valid() && HasCached(heap, n)
      modifies this`held, this`place
      ensures Valid() && UsedKept() && p !in old(Used(State())) && Used(State()) == old(Used(State())) + {p}
      ensures p in memory.pieces && memory.pieces[p] == n
      ensures LevelOf(old(Now()), heap, n).FromCache?
      ensures var cache := Adopted(old(State()), heap, n);
        && cache != [] && p == cache[0] && List(ThreadCache(heap, n)) == cache[1..] && (n == 1 ==> List(Deferred(heap)) == [])
      ensures forall k: Place | k != ThreadCache(heap, n) && (n == 1 ==> k != Deferred(heap)) :: List(k) == old(List(k))
    {
      hide Inv, Marked, FitsPlace;
      UsedPieces(State());
      assert Reversed(List(Deferred(heap))) == [] ==> List(Deferred(heap)) == [];
      if n == 1 { AdoptDeferred(heap); }
      p := Pull(ThreadCache(heap, n));
      CachedMarked(State(), p, heap, n);
    }

    lemma NoneCached(heap: nat, n: nat)
      ensures HasCached(heap, n) <==> Adopted(State(), heap, n) != []
    {
      assert Reversed(List(Deferred(heap))) == [] ==> List(Deferred(heap)) == [];
    }

    /** Gets a span: from the heap's cache, the reserve, the global cache, or a new region. */
    method ExtractNewSpan(heap: nat, n: nat, r: Region, page_spans: nat) returns (p: Span)
      requires Valid() && page_spans > 0 && r !in memory.total && 1 <= n <= LARGE_CLASS_COUNT
      modifies this
      ensures Valid() && p !in old(Used(State())) && Used(State()) == old(Used(State())) + {p}
      ensures p in memory.pieces && p in memory.header && memory.header[p].span_count == memory.pieces[p] == n && UsedKept()
      ensures Extracted(old(Now()), Now(), heap, n, r, page_spans, p) && (r in memory.total <==> LevelOf(old(Now()), heap, n).FromSystem?)
    {
      hide Inv, Used, Marked, FitsPlace, AlignSpanCount, Reversed;
      hide TopListTaken, SpanSystem.NewRegion, SpanSystem.ReserveOk, SpanSystem.GlobalOk, SpanSystem.SlotOk;
      UsedPieces(State());
      GlobalSizes(n);
      NoneCached(heap, n);
      Lists();
      if HasCached(heap, n) {
        p := ThreadCacheExtract(heap, n);
      } else if Reserved(heap) >= n {
        p := MapFromReserve(heap, n);
      } else if ListSizes(n) != [] {
        p := GlobalExtract(heap, n);
      } else {
        p := MapAlignedSpanCount(heap, n, r, page_spans);
      }
      Lists();
      UsedFits(State(), p, heap);
    }

    /** A freed large span becomes the heap's reserve where it has none, and is cached otherwise. */
    method DeallocateLarge(heap: nat, p: Span)
      requires Valid() && p in Used(State()) && p in memory.header && memory.header[p].span_count <= LARGE_CLASS_COUNT
      modifies this
      ensures Valid() && Used(State()) == old(Used(State())) - {p} && UsedKept()
      ensures var n := old(memory.header[p].span_count);
        if n > 1 && old(Reserved(heap)) == 0
        then List(Reserve(heap)) == [p] && Reserved(heap) == n && forall k: Place | k != Reserve(heap) :: List(k) == old(List(k))
        else Cached(old(Now()), Now(), heap, p, n) && List(Reserve(heap)) == old(List(Reserve(heap)))
    {
      hide Inv, Marked;
      UsedPieces(State());
      UsedFits(State(), p, heap);
      if memory.header[p].span_count > 1 && Reserved(heap) == 0 {
        assert ReserveOk(heap);
        ReserveNotEmpty(State(), heap);
        PushOk(State(), Reserve(heap), p);
        assert List(Reserve(heap)) == [] && [p] + [] == [p];
        held := held[Reserve(heap) := [p]];
        spans_reserved := spans_reserved[heap := memory.header[p].span_count];
        place := place[p := Reserve(heap)];
        forall h: nat ensures ReserveOk(h) { assert old(ReserveOk(h)); }
        forall m: nat ensures GlobalOk(m) { assert old(GlobalOk(m)); }
        forall k: Place ensures SlotOk(k) { assert old(SlotOk(k)); }
      } else {
        CacheInsert(heap, p);
        UsedPieces(State());
      }
    }

    /** Another thread hands a small span whose last block it freed back to its heap. */
    method DeferSpan(heap: nat, p: Span)
      requires Valid() && p in Used(State()) && p in memory.header && memory.header[p].span_count == 1
      modifies this`held, this`place
      ensures Valid() && Used(State()) == old(Used(State())) - {p} && List(Deferred(heap)) == [p] + old(List(Deferred(heap)))
      ensures forall k: Place | k != Deferred(heap) :: List(k) == old(List(k))
    {
      hide Inv, Marked;
      UsedFits(State(), p, heap);
      Push(Deferred(heap), p);
    }

    /** A whole cache of a heap, what was handed back adopted before, has gone to the global cache. */
    ghost predicate PassedOn(was: Caches, now: Caches, heap: nat, n: nat) {
      Held(now.sys, GlobalCache(n)) == Stacked(Adopted(was.sys, heap, n), Held(was.sys, GlobalCache(n)), ReleaseCount(n))
    }

    /** A thread ends: its heap's caches go to the global caches, list by list. */
    method HeapFinalize(heap: nat)
      requires Valid()
      modifies this`memory, this`held, this`place, this`list_sizes
      ensures Valid() && Used(State()) == old(Used(State())) && memory.total.Keys <= old(memory.total.Keys) && Shrunk()
      ensures List(Deferred(heap)) == [] && forall n: nat :: List(ThreadCache(heap, n)) == []
      ensures forall n: nat | 1 <= n <= LARGE_CLASS_COUNT :: PassedOn(old(Now()), Now(), heap, n)
      ensures OtherHeapsKept(heap) && List(Reserve(heap)) == old(List(Reserve(heap)))
    {
      hide Inv, Used, Reversed, Stacked, SpanSystem.ReserveOk, SpanSystem.GlobalOk, SpanSystem.SlotOk;
      Lists();
      AdoptDeferred(heap);
      PassCachesOn(heap);
      Lists();
      forall n: nat ensures List(ThreadCache(heap, n)) == [] { SlotRange(ThreadCache(heap, n)); }
    }

    lemma SlotRange(k: Place)
      requires Valid()
      ensures List(k) != [] && k.ThreadCache? ==> 1 <= k.count <= LARGE_CLASS_COUNT
    {
      hide Inv, SpanSystem.ReserveOk, SpanSystem.GlobalOk;
      assert SlotOk(k);
    }

    /** A list after the caches of sizes below c have been passed on. */
    ghost function AfterPassing(was: Sys, heap: nat, c: nat, k: Place): seq<Span> {
      if k.ThreadCache? && k.heap == heap && 1 <= k.count < c then []
      else if k.GlobalCache? && 1 <= k.count < c
      then Stacked(Held(was, ThreadCache(heap, k.count)), Held(was, k), ReleaseCount(k.count))
      else Held(was, k)
    }

    lemma PassingStep(was: Sys, heap: nat, c: nat, k: Place)
      requires c >= 1
      ensures k != ThreadCache(heap, c) && k != GlobalCache(c) ==> AfterPassing(was, heap, c + 1, k) == AfterPassing(was, heap, c, k)
      ensures AfterPassing(was, heap, c, ThreadCache(heap, c)) == Held(was, ThreadCache(heap, c))
      ensures AfterPassing(was, heap, c + 1, ThreadCache(heap, c)) == []
      ensures AfterPassing(was, heap, c, GlobalCache(c)) == Held(was, GlobalCache(c))
      ensures AfterPassing(was, heap, c + 1, GlobalCache(c))
              == Stacked(Held(was, ThreadCache(heap, c)), Held(was, GlobalCache(c)), ReleaseCount(c))
      ensures AfterPassing(was, heap, 1, k) == Held(was, k)
    {
    }

    method PassCachesOn(heap: nat)
      requires Valid()
      modifies this`memory, this`held, this`place, this`list_sizes
      ensures Valid() && Used(State()) == old(Used(State())) && memory.total.Keys <= old(memory.total.Keys) && Shrunk()
      ensures forall k: Place :: List(k) == AfterPassing(old(State()), heap, LARGE_CLASS_COUNT + 1, k)
    {
      hide Inv, Used, Stacked, SpanSystem.AfterPassing, SpanSystem.ReserveOk, SpanSystem.GlobalOk, SpanSystem.SlotOk;
      ghost var was := State();
      forall k: Place ensures List(k) == AfterPassing(was, heap, 1, k) { PassingStep(was, heap, 1, k); }
      for c := 1 to LARGE_CLASS_COUNT + 1
        invariant Valid() && Used(State()) == old(Used(State())) && memory.total.Keys <= old(memory.total.Keys) && Shrunk()
        invariant forall k: Place :: List(k) == AfterPassing(was, heap, c, k)
      {
        PassAllOn(heap, c);
        forall k: Place ensures List(k) == AfterPassing(was, heap, c + 1, k) { PassingStep(was, heap, c, k); }
      }
    }

    /** Passes all of a heap's cache of one size on, cut into lists. */
    method PassAllOn(heap: nat, count: nat)
      requires Valid()
      modifies this`memory, this`held, this`place, this`list_sizes
      ensures Valid() && Used(State()) == old(Used(State())) && memory.total.Keys <= old(memory.total.Keys) && Shrunk()
      ensures List(ThreadCache(heap, count)) == []
      ensures forall k: Place | k != ThreadCache(heap, count) && k != GlobalCache(count) :: List(k) == old(List(k))
      ensures List(GlobalCache(count)) == Stacked(old(List(ThreadCache(heap, count))), old(List(GlobalCache(count))), ReleaseCount(count))
    {
      hide Inv, Used, SpanSystem.ReserveOk, SpanSystem.SlotOk, SpanSystem.GlobalOk;
      ghost var stacked := Stacked(List(ThreadCache(heap, count)), List(GlobalCache(count)), ReleaseCount(count));
      while List(ThreadCache(heap, count)) != []
        invariant Valid() && Used(State()) == old(Used(State())) && memory.total.Keys <= old(memory.total.Keys) && Shrunk()
        invariant forall k: Place | k != ThreadCache(heap, count) && k != GlobalCache(count) :: List(k) == old(List(k))
        invariant Stacked(List(ThreadCache(heap, count)), List(GlobalCache(count)), ReleaseCount(count)) == stacked
        decreases |List(ThreadCache(heap, count))|
      {
        var size, limit := |List(ThreadCache(heap, count))|, ReleaseCount(count);
        PassOn(heap, count, if size > limit then limit else size);
      }
    }

    /** Whatever a heap still holds at the end of the program. */
    ghost predicate HeapEmpty(heap: nat)
      reads this
    {
      forall k: Place | (k.ThreadCache? || k.Deferred? || k.Reserve?) && k.heap == heap :: List(k) == []
    }

    /** The end of the program, one heap: its reserve is unmapped, its empty small spans and its caches are. */
    method FinalizeHeap(heap: nat, empty: seq<Span>)
      requires Valid() && SuperSpans.Distinct(empty)
      requires forall p <- empty :: p in Used(State()) && p in memory.pieces && memory.pieces[p] == 1
      modifies this
      ensures Valid() && Used(State()) == old(Used(State())) - (set p | p in empty) && Shrunk()
      ensures HeapEmpty(heap) && OtherHeapsKept(heap)
    {
      hide Inv;
      UnmapReserve(heap);
      UsedPieces(State());
      InsertEmpty(heap, empty);
      UnmapCaches(heap);
    }

    /** The spans that the walk over a heap's partial lists finds empty go to its cache. */
    method InsertEmpty(heap: nat, empty: seq<Span>)
      requires Valid() && SuperSpans.Distinct(empty)
      requires forall p <- empty :: p in Used(State()) && p in memory.pieces && memory.pieces[p] == 1
      modifies this`memory, this`held, this`place, this`list_sizes
      ensures Valid() && Used(State()) == old(Used(State())) - (set p | p in empty) && Shrunk()
      ensures OtherHeapsKept(heap) && List(Reserve(heap)) == old(List(Reserve(heap)))
    {
      hide Inv, Marked;
      for i := 0 to |empty|
        invariant Valid() && Used(State()) == old(Used(State())) - (set p | p in empty[..i]) && Shrunk()
        invariant OtherHeapsKept(heap) && List(Reserve(heap)) == old(List(Reserve(heap)))
      {
        NotYet(empty, i);
        UsedFits(State(), empty[i], heap);
        CacheInsert(heap, empty[i]);
      }
      assert empty[..|empty|] == empty;
    }

    method UnmapReserve(heap: nat)
      requires Valid()
      modifies this
      ensures Valid() && Used(State()) == old(Used(State())) && List(Reserve(heap)) == []
      ensures forall k: Place | k != Reserve(heap) :: List(k) == old(List(k))
      ensures Shrunk()
    {
      hide Inv;
      assert ReserveOk(heap);
      ReserveNotEmpty(State(), heap);
      if Reserved(heap) > 0 {
        var p := MapFromReserve(heap, Reserved(heap));
        UnmapSpan(p);
        assert ReserveOk(heap);
        ReserveNotEmpty(State(), heap);
      }
    }

    /** Unmaps all that a heap's caches hold. */
    method UnmapCaches(heap: nat)
      requires Valid() && List(Reserve(heap)) == []
      modifies this`memory, this`held, this`place
      ensures Valid() && Used(State()) == old(Used(State())) && HeapEmpty(heap) && OtherHeapsKept(heap) && Shrunk()
    {
      hide Inv;
      AdoptDeferred(heap);
      assert SlotOk(ThreadCache(heap, 0));
      for c := 1 to LARGE_CLASS_COUNT + 1
        invariant Valid() && Used(State()) == old(Used(State())) && OtherHeapsKept(heap) && Shrunk()
        invariant List(Deferred(heap)) == [] && List(Reserve(heap)) == [] && forall n: nat | n < c :: List(ThreadCache(heap, n)) == []
      {
        UnmapSpanList(heap, c, |List(ThreadCache(heap, c))|);
      }
      forall n: nat ensures List(ThreadCache(heap, n)) == [] { assert SlotOk(ThreadCache(heap, n)); }
    }

    /** Unmaps the first span of the list on top of a global cache. */
    method UnmapGlobalFirst(n: nat)
      requires Valid() && ListSizes(n) != []
      modifies this`memory, this`held, this`place, this`list_sizes
      ensures Valid() && Used(State()) == old(Used(State())) && |List(GlobalCache(n))| == |old(List(GlobalCache(n)))| - 1
      ensures forall k: Place | k != GlobalCache(n) :: List(k) == old(List(k))
    {
      hide Inv, Marked;
      assert GlobalOk(n);
      SumFirst(ListSizes(n));
      PullOk(State(), GlobalCache(n));
      var p, sizes := List(GlobalCache(n))[0], ListSizes(n);
      held := held[GlobalCache(n) := List(GlobalCache(n))[1..]];
      place := place[p := InUse];
      list_sizes := list_sizes[n := if sizes[0] == 1 then sizes[1..] else [sizes[0] - 1] + sizes[1..]];
      forall h: nat ensures ReserveOk(h) { assert old(ReserveOk(h)); }
      forall m: nat ensures GlobalOk(m) { assert old(GlobalOk(m)); }
      forall k: Place ensures SlotOk(k) { assert old(SlotOk(k)); }
      UnmapSpan(p);
    }

    method UnmapGlobal(n: nat)
      requires Valid()
      modifies this`memory, this`held, this`place, this`list_sizes
      ensures Valid() && Used(State()) == old(Used(State())) && List(GlobalCache(n)) == []
      ensures forall k: Place | k != GlobalCache(n) :: List(k) == old(List(k))
    {
      hide Inv;
      while ListSizes(n) != []
        invariant Valid() && Used(State()) == old(Used(State()))
        invariant forall k: Place | k != GlobalCache(n) :: List(k) == old(List(k))
        decreases |List(GlobalCache(n))|
      {
        UnmapGlobalFirst(n);
      }
      assert GlobalOk(n);
    }

    ghost predicate HeapListsEmpty()
      reads this
    {
      forall k: Place | k.ThreadCache? || k.Deferred? || k.Reserve? :: List(k) == []
    }

    /** Only these heaps hold anything. */
    ghost predicate HeldBy(heaps: seq<nat>)
      reads this
    {
      forall k: Place | (k.ThreadCache? || k.Deferred? || k.Reserve?) && k.heap !in heaps :: List(k) == []
    }

    /**
     The end of the program. If no block is live, what is in use are the small spans that the cleanup finds empty, heap
     by heap; then every region that was ever mapped has been released.
     */
    method Finalize(heaps: seq<nat>, empty: seq<seq<Span>>)
      requires Valid() && |empty| == |heaps| && HeldBy(heaps)
      requires forall i, j | 0 <= i < j < |heaps| :: heaps[i] != heaps[j] && forall p <- empty[i] :: p !in empty[j]
      requires forall i | 0 <= i < |empty| :: SuperSpans.Distinct(empty[i])
      requires forall i, p | 0 <= i < |empty| && p in empty[i] :: p in Used(State()) && p in memory.pieces && memory.pieces[p] == 1
      requires forall p <- Used(State()) :: exists i :: 0 <= i < |empty| && p in empty[i]
      modifies this
      ensures Valid() && memory.total == map[] && Used(State()) == {}
    {
      hide Inv;
      FinalizeHeaps(heaps, empty);
      UnmapAllGlobal();
      forall k: Place ensures Held(State(), k) == [] { assert List(k) == []; }
      AllReleased(State());
    }

    method FinalizeHeaps(heaps: seq<nat>, empty: seq<seq<Span>>)
      requires Valid() && |empty| == |heaps| && HeldBy(heaps)
      requires forall i, j | 0 <= i < j < |heaps| :: heaps[i] != heaps[j] && forall p <- empty[i] :: p !in empty[j]
      requires forall i | 0 <= i < |empty| :: SuperSpans.Distinct(empty[i])
      requires forall i, p | 0 <= i < |empty| && p in empty[i] :: p in Used(State()) && p in memory.pieces && memory.pieces[p] == 1
      requires forall p <- Used(State()) :: exists i :: 0 <= i < |empty| && p in empty[i]
      modifies this
      ensures Valid() && HeapListsEmpty() && Used(State()) == {}
    {
      hide Inv;
      for c := 0 to |heaps|
        invariant Valid() && Shrunk() && HeldBy(heaps) && forall i | 0 <= i < c :: HeapEmpty(heaps[i])
        invariant forall p: Span :: p in Used(State()) <==> p in old(Used(State())) && forall i | 0 <= i < c :: p !in empty[i]
      {
        UsedPieces(State());
        FinalizeHeap(heaps[c], empty[c]);
      }
      forall k: Place | k.ThreadCache? || k.Deferred? || k.Reserve? ensures List(k) == [] {
        if k.heap in heaps {
          var i :| 0 <= i < |heaps| && heaps[i] == k.heap;
          assert HeapEmpty(heaps[i]);
        }
      }
    }

    method UnmapAllGlobal()
      requires Valid() && HeapListsEmpty()
      modifies this`memory, this`held, this`place, this`list_sizes
      ensures Valid() && Used(State()) == old(Used(State())) && forall k: Place :: List(k) == []
    {
      hide Inv;
      assert SlotOk(GlobalCache(0));
      for c := 1 to LARGE_CLASS_COUNT + 1
        invariant Valid() && HeapListsEmpty() && Used(State()) == old(Used(State()))
        invariant forall n: nat | n < c :: List(GlobalCache(n)) == []
      {
        UnmapGlobal(c);
      }
      forall k: Place ensures List(k) == [] {
        assert SlotOk(k);
        NothingUsedListed(State(), k);
      }
    }
  }

  lemma NothingUsedListed(s: Sys, k: Place)
    requires Inv(s)
    ensures k.InUse? ==> Held(s, k) == []
  {
    hide MemoryOk, PlaceOk;
    assert ListOk(s, k);
  }

  lemma UsedRegions(s: Sys, r: Region)
    requires Inv(s) && r !in s.memory.total
    ensures forall p <- Used(s) :: p.region != r
  {
    hide ListOk, PlaceOk;
    NoPieceYet(s, r);
  }

  lemma UsedPieces(s: Sys)
    requires Inv(s)
    ensures forall p <- Used(s) :: p in s.memory.pieces
  {
    hide MemoryOk, ListOk, PlaceOk;
  }

  lemma NotYet(spans: seq<Span>, i: nat)
    requires SuperSpans.Distinct(spans) && i < |spans|
    ensures spans[i] !in spans[..i] && spans[i] in spans && spans[..i + 1] == spans[..i] + [spans[i]]
  {
  }

  lemma NextMultiple(x: nat, m: nat)
    requires m > 0
    ensures (x + (m - x % m)) % m == 0
  {
    var q := x / m;
    assert x + (m - x % m) == (q + 1) * m;
    BlockArith.ModUnique(x + (m - x % m), q + 1, 0, m);
  }

  lemma SumFirst(sizes: seq<nat>)
    requires sizes != []
    ensures sizes[0] <= Sum(sizes) && Sum(sizes[1..]) == Sum(sizes) - sizes[0]
  {
  }

  lemma ReserveNotEmpty(s: Sys, heap: nat)
    requires Inv(s)
    ensures Held(s, Reserve(heap)) != [] ==>
      Held(s, Reserve(heap))[0] in s.memory.pieces && s.memory.pieces[Held(s, Reserve(heap))[0]] > 0
  {
    hide MemoryOk;
    if Held(s, Reserve(heap)) != [] { ReserveFacts(s, heap); }
  }

  /** A new region adds its pieces and leaves all others as they are. */
  lemma MapNewFacts(s: Sys, heap: nat, r: Region, total: nat, n: nat)
    requires Inv(s) && r !in s.memory.total && 0 < n <= total && (n < total ==> Held(s, Reserve(heap)) == [])
    ensures var s', m' := MappedNew(s, heap, r, total, n), Mapped(s.memory, r, total, n);
      && s'.memory == m' && s'.held == (if n < total then s.held[Reserve(heap) := [Span(r, n)]] else s.held)
      && Inv(s') && Span(r, 0) !in Used(s) && Used(s') == Used(s) + {Span(r, 0)}
      && Marked(m', Span(r, 0)) && Span(r, 0) in m'.pieces && m'.pieces[Span(r, 0)] == n && r in m'.total
      && (n < total ==> Span(r, n) in m'.pieces && m'.pieces[Span(r, n)] == total - n)
      && (forall q <- s.memory.pieces :: q in m'.pieces && m'.pieces[q] == s.memory.pieces[q])
      && (forall q <- m'.pieces | q !in s.memory.pieces :: q.region == r)
      && forall q <- Used(s) :: q in s.memory.pieces
  {
    hide Inv, Used, Marked;
    UsedPieces(s);
    MapNewOk(s, heap, r, total, n);
    MapNewMarks(s, heap, r, total, n);
    NoPieceOf(s, r);
  }

  lemma NoPieceOf(s: Sys, r: Region)
    requires Inv(s) && r !in s.memory.total
    ensures forall q <- s.memory.pieces :: q.region != r
  {
    hide ListOk, PlaceOk;
    RegionOfPiece(s.memory);
  }

  lemma MapNewMarks(s: Sys, heap: nat, r: Region, total: nat, n: nat)
    requires Inv(s) && r !in s.memory.total && 0 < n <= total
    ensures Marked(MappedNew(s, heap, r, total, n).memory, Span(r, 0))
    ensures forall k: Place, i | 0 <= i < |Held(s, k)| :: Held(s, k)[i].region != r
  {
    hide MemoryOk, PlaceOk, Marked;
    MapOk(s.memory, r, total, n);
    NoPieceYet(s, r);
    forall k: Place, i | 0 <= i < |Held(s, k)| ensures Held(s, k)[i].region != r { ListFacts(s, k); }
  }

  lemma GlobalPrefixFits(s: Sys, n: nat, size: nat, heap: nat)
    requires Inv(s) && size <= |Held(s, GlobalCache(n))|
    ensures forall i | 0 <= i < size :: FitsPlace(s, Held(s, GlobalCache(n))[i], ThreadCache(heap, n))
  {
    hide MemoryOk, Marked;
    ListFacts(s, GlobalCache(n));
  }

  lemma CachedMarked(s: Sys, p: Span, heap: nat, n: nat)
    requires FitsPlace(s, p, ThreadCache(heap, n))
    ensures FitsPlace(s, p, InUse) && p in s.memory.pieces && s.memory.pieces[p] == n
  {
    hide Marked;
  }

  /** The reserves of two heaps are different pieces. */
  lemma OtherReserve(s: Sys, heap: nat, h: nat)
    requires Inv(s) && h != heap && Held(s, Reserve(heap)) != [] && Held(s, Reserve(h)) != []
    ensures Held(s, Reserve(heap))[0] != Held(s, Reserve(h))[0] && Held(s, Reserve(h))[0] in s.memory.pieces
  {
    hide MemoryOk, FitsPlace;
    ReserveFacts(s, heap);
    ReserveFacts(s, h);
  }

  lemma CutReserveMarks(s: Sys, heap: nat, n: nat)
    requires Inv(s) && Held(s, Reserve(heap)) != [] && Held(s, Reserve(heap))[0] in s.memory.pieces
    requires 0 < n <= s.memory.pieces[Held(s, Reserve(heap))[0]]
    ensures Marked(CutReserve(s, heap, n).memory, Held(s, Reserve(heap))[0])
    ensures n < s.memory.pieces[Held(s, Reserve(heap))[0]] ==>
      Span(Held(s, Reserve(heap))[0].region, Held(s, Reserve(heap))[0].start + n) !in s.memory.pieces
  {
    hide MemoryOk, ListOk, PlaceOk, Marked;
    CutOk(s.memory, Held(s, Reserve(heap))[0], n);
  }

  lemma PrefixFits(s: Sys, k: Place, n: nat, k': Place)
    requires Inv(s) && n <= |Held(s, k)| && k.ThreadCache? && k'.GlobalCache? && k'.count == k.count
    ensures forall i | 0 <= i < n :: FitsPlace(s, Held(s, k)[i], k')
  {
    hide MemoryOk, Marked;
    ListFacts(s, k);
  }

  lemma ShiftPieces(s: Sys, k: Place, n: nat, k': Place)
    requires n <= |Held(s, k)|
    ensures Shifted(s, k, n, k').memory == s.memory
  {
  }

  lemma UsedFits(s: Sys, p: Span, heap: nat)
    requires Inv(s) && p in Used(s)
    ensures p in s.memory.header && p in s.memory.pieces && Marked(s.memory, p)
    ensures s.memory.header[p].span_count == s.memory.pieces[p] > 0
    ensures FitsPlace(s, p, ThreadCache(heap, s.memory.pieces[p]))
  {
    hide ListOk, RegionOk;
    UsedMarked(s, p);
    RegionOfPiece(s.memory);
  }

  lemma FirstFits(s: Sys, k: Place)
    requires Inv(s) && Held(s, k) != []
    ensures FitsPlace(s, Held(s, k)[0], k)
    ensures forall p: Span | FitsPlace(s, p, k) :: FitsPlace(Pulled(s, k), p, k)
  {
    hide MemoryOk, Marked;
    ListFacts(s, k);
  }

  lemma DeferredFitsCache(s: Sys, p: Span, heap: nat)
    requires FitsPlace(s, p, Deferred(heap))
    ensures FitsPlace(s, p, ThreadCache(heap, 1))
  {
    hide Marked;
  }

  /** A span in use is in no list. */
  lemma UsedAndReserve(s: Sys, p: Span)
    requires Inv(s) && p in Used(s)
    ensures forall k: Place :: p !in Held(s, k)
  {
    hide MemoryOk, FitsPlace;
    forall k: Place ensures p !in Held(s, k) { ListFacts(s, k); }
  }
}
