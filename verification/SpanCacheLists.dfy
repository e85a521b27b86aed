/**
 The caches of free spans of one size: a list per heap, a bounded stack of lists shared by all heaps, and the list of
 spans that other threads have handed back.
 */
module SpanCacheLists {

  import opened SpanLists

  const THREAD_CACHE_MULTIPLIER: nat := 16

  function Flat(lists: seq<seq<Span>>): seq<Span> {
    if lists == [] then [] else lists[0] + Flat(lists[1..])
  }

  ghost function Spans(lists: seq<seq<Span>>): set<Span> { set l, s | l in lists && s in l :: s }

  ghost function TopOf(lists: seq<seq<Span>>, k: nat): Span? {
    if k < |lists| && |lists[k]| > 0 then lists[k][0] else null
  }

  /** Each list's first span links to the first span of the list below. */
  ghost predicate Layer(lists: seq<seq<Span>>, k: nat)
    reads Spans(lists)
    requires k < |lists|
  {
    assert forall s <- lists[k] :: s in Spans(lists);
    IsList(lists[k]) && lists[k][0].prev == TopOf(lists, k + 1)
  }

  lemma FlatTop(list: seq<Span>, lists: seq<seq<Span>>)
    ensures Flat([list] + lists) == list + Flat(lists)
  {
    assert ([list] + lists)[1..] == lists;
  }

  lemma {:induction false} FlatMembers(lists: seq<seq<Span>>, s: Span)
    ensures s in Flat(lists) <==> s in Spans(lists)
  {
    if lists != [] {
      FlatMembers(lists[1..], s);
      assert lists == [lists[0]] + lists[1..];
    }
  }

  predicate Apart(a: seq<Span>, b: seq<Span>) { forall s <- a :: s !in b }

  lemma ConcatDistinct(a: seq<Span>, b: seq<Span>)
    ensures Distinct(a + b) <==> Distinct(a) && Distinct(b) && Apart(a, b)
  {
    if Distinct(a + b) {
      assert forall i | 0 <= i < |a| :: a[i] == (a + b)[i];
      assert forall i | 0 <= i < |b| :: b[i] == (a + b)[|a| + i];
      forall i, j | 0 <= i < |a| && 0 <= j < |b| ensures a[i] != b[j] { assert (a + b)[i] != (a + b)[|a| + j]; }
    }
    if Distinct(a) && Distinct(b) && Apart(a, b) {
      forall i, j | 0 <= i < j < |a| + |b| ensures (a + b)[i] != (a + b)[j] {
        if i < |a| <= j { assert a[i] in a && b[j - |a|] in b; }
      }
    }
  }

  /** Gives a whole list back to the system, span by span. */
  method UnmapSpanList(head: Span, ghost spans: seq<Span>) returns (unmapped: seq<Span>)
    requires spans != [] && Heads(head, spans)
    ensures unmapped == spans
  {
    var list_size := head.list_size;
    var span: Span? := head;
    unmapped := [];
    for i := 0 to list_size
      invariant unmapped == spans[..i]
      invariant span == if i < |spans| then spans[i] else null
    {
      assert spans[i].next == Next(spans, i);
      var next_span := span.next;
      unmapped := unmapped + [span];
      span := next_span;
    }
    assert span == null;
  }

  /** The cache shared by all heaps. */
  class GlobalCache {
    var cache: Span?
    var size: int
    const limit: nat
    ghost var lists: seq<seq<Span>>

    ghost predicate Valid()
      reads this, Spans(lists)
    {
      && (forall k | 0 <= k < |lists| :: Layer(lists, k)) && cache == TopOf(lists, 0)
      && Distinct(Flat(lists)) && size == |Flat(lists)| <= limit
    }

    constructor (limit: nat)
      ensures Valid() && lists == [] && this.limit == limit
    {
      this.limit := limit;
      cache, size, lists := null, 0, [];
    }

    /** Stacks a list, or gives it back to the system where it would exceed the limit. */
    method Insert(span: Span, ghost spans: seq<Span>) returns (unmapped: seq<Span>)
      requires Valid() && spans != [] && Heads(span, spans) && Apart(spans, Flat(lists))
      modifies this, span`prev
      ensures Valid()
      ensures if old(size) + |spans| > limit then unmapped == spans && lists == old(lists)
        else unmapped == [] && lists == [spans] + old(lists)
    {
      hide Flat, Distinct;
      var list_size := span.list_size;
      size := size + list_size;
      unmapped := [];
      if size > limit {
        unmapped := UnmapSpanList(span, spans);
        size := size - list_size;
        forall k | 0 <= k < |lists| ensures Layer(lists, k) { assert old(Layer(lists, k)); }
      } else {
        FlatTop(spans, lists);
        ConcatDistinct(spans, Flat(lists));
        forall k | 0 <= k < |lists| ensures Layer(lists, k) { assert old(Layer(lists, k)); }
        LinkOnTop(span, spans);
      }
    }

    method LinkOnTop(span: Span, ghost spans: seq<Span>)
      requires (forall k | 0 <= k < |lists| :: Layer(lists, k)) && cache == TopOf(lists, 0)
      requires spans != [] && Heads(span, spans) && Apart(spans, Flat(lists))
      modifies this`cache, this`lists, span`prev
      ensures lists == [spans] + old(lists) && cache == span && forall k | 0 <= k < |lists| :: Layer(lists, k)
    {
      hide Flat, Distinct;
      ghost var below := lists;
      span.prev := cache;
      cache := span;
      lists := [spans] + below;
      StillLayer(below, spans, 0);
      assert old(IsList(spans));
      assert Layer(lists, 0);
      forall k | 1 <= k < |lists| ensures Layer(lists, k) {
        assert old(Layer(below, k - 1));
        OutsideList(below, k - 1, spans);
        StillLayer(below, spans, k - 1);
        assert span in spans && IsList(below[k - 1]);
      }
    }

    /** Takes the list on top. */
    method Extract() returns (span: Span?, ghost spans: seq<Span>)
      requires Valid()
      modifies this
      ensures Valid() && Heads(span, spans)
      ensures if old(lists) == [] then span == null && spans == [] && lists == [] else span != null && old(lists) == [spans] + lists
    {
      spans := [];
      span := cache;
      if lists != [] { assert Layer(lists, 0); }
      if span != null {
        ghost var was := lists;
        assert Layer(was, 0);
        spans := lists[0];
        cache := span.prev;
        size := size - span.list_size;
        lists := lists[1..];
        FlatTop(spans, lists);
        assert was == [spans] + lists;
        ConcatDistinct(spans, Flat(lists));
        forall k | 0 <= k < |lists| ensures Layer(lists, k) { assert old(Layer(was, k + 1)); }
      }
    }

    /** At the end everything goes back to the system. */
    method Finalize() returns (unmapped: seq<Span>)
      requires Valid()
      modifies this
      ensures Valid() && lists == [] && size == 0 && unmapped == old(Flat(lists))
    {
      hide Distinct, Flat;
      unmapped := [];
      var span := cache;
      ghost var rest := lists;
      while span != null
        invariant |rest| <= |lists| && rest == lists[|lists| - |rest|..] && span == TopOf(rest, 0)
        invariant lists == old(lists) && (forall k | 0 <= k < |lists| :: Layer(lists, k))
        invariant unmapped + Flat(rest) == Flat(lists) && size == |Flat(rest)|
        decreases |rest|
      {
        assert Layer(lists, |lists| - |rest|);
        var skip_span := span.prev;
        size := size - span.list_size;
        var part := UnmapSpanList(span, rest[0]);
        unmapped := unmapped + part;
        assert rest == [rest[0]] + rest[1..];
        FlatTop(rest[0], rest[1..]);
        rest := rest[1..];
        span := skip_span;
        forall k | 0 <= k < |lists| ensures Layer(lists, k) { assert old(Layer(lists, k)); }
      }
      assert rest != [] ==> Layer(lists, |lists| - |rest|);
      FlatNone();
      cache, size, lists := null, 0, [];
    }
  }

  lemma FlatNone()
    ensures Flat([]) == [] && Distinct([])
  {
  }

  /** The cache of one heap, for spans of one size, and the spans that other threads handed back to it. */
  class ThreadCache {
    var span_cache: Span?
    var span_cache_deferred: Span?
    const release_count: nat
    ghost var spans: seq<Span>
    ghost var deferred: seq<Span>

    ghost predicate Valid()
      reads this, spans, deferred
    {
      && Heads(span_cache, spans) && Chained(deferred)
      && span_cache_deferred == (if deferred == [] then null else deferred[0])
      && Apart(spans, deferred) && release_count >= 2
    }

    constructor (release_count: nat)
      requires release_count >= 2
      ensures Valid() && spans == deferred == [] && this.release_count == release_count
    {
      this.release_count := release_count;
      span_cache, span_cache_deferred, spans, deferred := null, null, [], [];
    }

    /** Another thread hands a span back; it does not count the list. */
    method Defer(span: Span)
      requires Valid() && span !in spans && span !in deferred
      modifies this`span_cache_deferred, this`deferred, span`next
      ensures Valid() && deferred == [span] + old(deferred)
    {
      span.next := span_cache_deferred;
      span_cache_deferred := span;
      ghost var was := deferred;
      deferred := [span] + was;
      forall i | 0 <= i < |deferred| ensures deferred[i].next == Next(deferred, i) {
        if i > 0 { assert deferred[i] == was[i - 1] && was[i - 1].next == Next(was, i - 1); }
      }
      assert old(Chained(was));
      assert old(Heads(span_cache, spans));
    }

    /** Takes the handed back spans over into the cache, one by one. */
    method AdoptDeferred()
      requires Valid()
      modifies this`span_cache, this`span_cache_deferred, this`spans, this`deferred, deferred
      ensures Valid() && deferred == [] && spans == Reversed(old(deferred)) + old(spans)
      ensures forall s <- old(deferred) :: s.prev == old(s.prev)
    {
      hide Reversed;
      ReversedNone(spans);
      if span_cache_deferred == null { return; }
      var span := span_cache_deferred;
      span_cache_deferred := null;
      ghost var all, n := deferred, 0;
      deferred := [];
      while span != null
        invariant n <= |all| && span == (if n < |all| then all[n] else null)
        invariant deferred == [] && span_cache_deferred == null && spans == Reversed(all[..n]) + old(spans)
        invariant Heads(span_cache, spans)
        invariant forall i | n <= i < |all| :: all[i].next == Next(all, i)
        invariant forall s <- all :: s.prev == old(s.prev)
        decreases |all| - n
      {
        assert span.next == Next(all, n);
        var next_span := span.next;
        ReversedNext(all, n, old(spans));
        span_cache := PushOne(span);
        n := n + 1;
        span := next_span;
      }
      assert all[..n] == all;
      ApartNone(spans);
    }

    method PushOne(span: Span) returns (head: Span)
      requires Heads(span_cache, spans) && span !in spans
      modifies this`spans, span
      ensures spans == [span] + old(spans) && Heads(head, spans) && span.prev == old(span.prev)
    {
      var size;
      head, size := Push(span_cache, span, spans);
      spans := [span] + spans;
    }

    /** Puts a span in front, after the handed back ones where there are such. */
    method Store(span: Span, single: bool) returns (size: nat)
      requires Valid() && (!single ==> deferred == []) && span !in spans && span !in deferred
      modifies this, spans, deferred, span
      ensures Valid() && deferred == [] && spans == [span] + (Reversed(old(deferred)) + old(spans)) && size == |spans|
    {
      hide Reversed, Distinct;
      ReversedNone(spans);
      ReversedMembers(deferred, span);
      if single { AdoptDeferred(); }
      span_cache := PushOne(span);
      ApartNone(spans);
      size := span_cache.list_size;
    }

    /** Takes a span from the cache, or null. */
    method Extract(single: bool) returns (span: Span?)
      requires Valid() && (!single ==> deferred == [])
      modifies this`span_cache, this`span_cache_deferred, this`spans, this`deferred, spans, deferred
      ensures Valid() && deferred == []
      ensures var all := Reversed(old(deferred)) + old(spans);
        if all == [] then span == null && spans == [] else span == all[0] && spans == all[1..]
    {
      hide Reversed, Heads, Chained;
      ReversedNone(spans);
      if single {
        AdoptDeferred();
        forall k | 0 <= k < |spans| ensures spans[k] in old(spans) || spans[k] in old(deferred) {
          ReversedMembers(old(deferred), spans[k]);
          assert spans[k] in spans;
        }
      }
      span := TakeFirst();
    }

    method TakeFirst() returns (span: Span?)
      requires Valid() && deferred == []
      modifies this`span_cache, this`spans, spans
      ensures Valid()
      ensures if old(spans) == [] then span == null && spans == [] else span == old(spans)[0] && spans == old(spans)[1..]
    {
      span := null;
      if span_cache != null {
        var s, rest := Pop(span_cache, spans);
        span, span_cache := s, rest;
        spans := spans[1..];
      }
    }
  }

  /** A heap's cache and the global cache have no span in common. */
  ghost predicate Separate(heap: ThreadCache, global: GlobalCache)
    reads heap, global
  {
    Apart(heap.spans, Flat(global.lists)) && Apart(heap.deferred, Flat(global.lists))
  }

  /** A list was offered to the global cache: it is stacked, or unmapped where it would exceed the limit. */
  ghost predicate Passed(global: GlobalCache, list: seq<Span>, lists: seq<seq<Span>>, unmapped: seq<Span>)
    reads global
  {
    if |Flat(lists)| + |list| > global.limit then unmapped == list && global.lists == lists
    else unmapped == [] && global.lists == [list] + lists
  }

  /**
   Puts a free span into a heap's cache. A cache that has grown beyond its hard limit passes its newest spans on to the
   global cache, as one list.
   */
  method CacheInsert(heap: ThreadCache, global: GlobalCache, span: Span, single: bool) returns (unmapped: seq<Span>)
    requires heap.Valid() && global.Valid() && Separate(heap, global) && (!single ==> heap.deferred == [])
    requires span !in heap.spans && span !in heap.deferred && span !in Flat(global.lists)
    modifies heap, global, heap.spans, heap.deferred, span
    ensures heap.Valid() && global.Valid() && Separate(heap, global) && heap.deferred == []
    ensures var all, n := [span] + (Reversed(old(heap.deferred)) + old(heap.spans)), heap.release_count;
      if |all| <= n * THREAD_CACHE_MULTIPLIER then heap.spans == all && global.lists == old(global.lists) && unmapped == [] else
        heap.spans == all[n..] && Passed(global, all[..n], old(global.lists), unmapped)
  {
    hide Reversed, Flat, Layer, Heads, Chained, Distinct;
    ghost var lists := global.lists;
    ReversedNone(heap.spans);
    OutsideStack(lists, heap.spans);
    OutsideStack(lists, heap.deferred);
    OutsideStack(lists, [span]);
    assert [span][0] !in Spans(lists);
    FromBoth(if single then heap.deferred else [], heap.spans, lists);
    var size := heap.Store(span, single);
    ApartCons(span, heap.spans[1..], Flat(lists));
    unmapped := [];
    if size > heap.release_count * THREAD_CACHE_MULTIPLIER {
      forall k | 0 <= k < |heap.spans|
        ensures heap.spans[k] == span || heap.spans[k] in old(heap.spans) || heap.spans[k] in old(heap.deferred) {
        ReversedMembers(old(heap.deferred), heap.spans[k]);
        assert heap.spans[k] in heap.spans;
      }
      unmapped := PassOn(heap, global);
    }
  }

  /** Moves the newest spans of a heap's cache to the global cache. */
  method PassOn(heap: ThreadCache, global: GlobalCache) returns (unmapped: seq<Span>)
    requires heap.Valid() && global.Valid() && Separate(heap, global) && heap.deferred == []
    requires |heap.spans| > heap.release_count
    modifies heap`span_cache, heap`spans, global, heap.spans
    ensures heap.Valid() && global.Valid() && Separate(heap, global) && heap.spans == old(heap.spans[heap.release_count..])
    ensures Passed(global, old(heap.spans[..heap.release_count]), old(global.lists), unmapped)
  {
    hide Reversed, Flat, Layer, Heads, Chained, Distinct;
    ghost var all, n, lists := heap.spans, heap.release_count, global.lists;
    OutsideStack(lists, heap.spans);
    HeadsFacts(heap.span_cache, heap.spans);
    ApartParts(all, n, Flat(lists));
    var span := heap.span_cache;
    var rest := Split(span, heap.release_count, all);
    heap.span_cache, heap.spans := rest, all[n..];
    unmapped := global.Insert(span, all[..n]);
    FlatTop(all[..n], lists);
    ApartNone(all[n..]);
  }

  lemma HeadsFacts(head: Span?, spans: seq<Span>)
    requires Heads(head, spans)
    ensures Distinct(spans) && (spans != [] ==> head == spans[0])
  {
  }

  lemma ApartCons(s: Span, spans: seq<Span>, others: seq<Span>)
    requires s !in others && Apart(spans, others)
    ensures Apart([s] + spans, others)
  {
  }

  lemma OutsideStack(lists: seq<seq<Span>>, spans: seq<Span>)
    requires Apart(spans, Flat(lists))
    ensures forall k | 0 <= k < |spans| :: spans[k] !in Spans(lists)
  {
    forall k | 0 <= k < |spans| ensures spans[k] !in Spans(lists) { FlatMembers(lists, spans[k]); }
  }

  lemma FromBoth(a: seq<Span>, b: seq<Span>, lists: seq<seq<Span>>)
    requires Apart(a, Flat(lists)) && Apart(b, Flat(lists))
    ensures Apart(Reversed(a) + b, Flat(lists)) && |Reversed(a)| == |a|
  {
    ReversedSize(a);
    forall s | s in Reversed(a) + b ensures s !in Flat(lists) { ReversedMembers(a, s); }
  }

  lemma ApartParts(all: seq<Span>, n: nat, others: seq<Span>)
    requires n <= |all| && Distinct(all) && Apart(all, others)
    ensures Apart(all[..n], others) && Apart(all[n..], others) && Apart(all[n..], all[..n] + others)
    ensures Distinct(all[..n]) && Distinct(all[n..])
    ensures n > 0 ==> all[0] !in all[n..]
  {
    assert all[..n] + all[n..] == all;
    ConcatDistinct(all[..n], all[n..]);
  }

  lemma ApartNone(a: seq<Span>)
    ensures Apart(a, []) && Chained([])
  {
  }

  function Reversed(spans: seq<Span>): seq<Span> {
    if spans == [] then [] else [spans[|spans| - 1]] + Reversed(spans[..|spans| - 1])
  }

  lemma ReversedNone(a: seq<Span>)
    ensures Reversed([]) + a == a
  {
  }

  /** The next span to adopt comes before those adopted so far, and is none of them. */
  lemma ReversedNext(all: seq<Span>, n: nat, kept: seq<Span>)
    requires n < |all| && Distinct(all) && Apart(kept, all)
    ensures Reversed(all[..n + 1]) + kept == [all[n]] + (Reversed(all[..n]) + kept)
    ensures all[n] !in Reversed(all[..n]) + kept
  {
    assert all[..n + 1][..n] == all[..n];
    ReversedMembers(all[..n], all[n]);
  }

  lemma {:induction false} ReversedMembers(spans: seq<Span>, s: Span)
    ensures s in Reversed(spans) <==> s in spans
  {
    if spans != [] { ReversedMembers(spans[..|spans| - 1], s); }
  }

  lemma {:induction false} ReversedSize(spans: seq<Span>)
    ensures |Reversed(spans)| == |spans|
  {
    if spans != [] { ReversedSize(spans[..|spans| - 1]); }
  }

  lemma StillLayer(below: seq<seq<Span>>, spans: seq<Span>, k: nat)
    ensures TopOf([spans] + below, k + 1) == TopOf(below, k)
    ensures k < |below| ==> ([spans] + below)[k + 1] == below[k] && TopOf([spans] + below, k + 2) == TopOf(below, k + 1)
  {
  }

  lemma OutsideList(lists: seq<seq<Span>>, k: nat, spans: seq<Span>)
    requires k < |lists| && Apart(spans, Flat(lists))
    ensures forall s <- spans :: s !in lists[k]
  {
    forall s | s in spans ensures s !in lists[k] { FlatMembers(lists, s); }
  }

  /** Takes the top list of the global cache as this heap's cache, whose slot it overwrites, and its first span. */
  method GlobalExtract(heap: ThreadCache, global: GlobalCache) returns (span: Span?)
    requires heap.Valid() && global.Valid() && Separate(heap, global) && heap.deferred == [] && heap.spans == []
    modifies heap`span_cache, heap`spans, global, Flat(global.lists)
    ensures heap.Valid() && global.Valid() && Separate(heap, global)
    ensures if old(global.lists) == [] then span == null && heap.spans == [] && global.lists == []
      else span != null && old(global.lists) == [[span] + heap.spans] + global.lists
  {
    hide Flat, Layer, Chained, Distinct, Heads, IsList;
    ghost var lists, list := global.lists, [];
    ApartNone(heap.spans);
    heap.span_cache, list := global.Extract();
    heap.spans := list;
    span := null;
    if heap.span_cache != null {
      FlatTop(list, global.lists);
      ConcatDistinct(list, Flat(global.lists));
      OutsideStack(global.lists, list);
      forall k | 0 <= k < |list| ensures list[k] in Flat(lists) { assert list[k] in list; }
      span := heap.TakeFirst();
      assert list == [span] + heap.spans;
    }
  }

  /**
   The cache levels before new memory is mapped. The global list is only fetched once the heap's own slot has been
   found empty, so overwriting the slot loses nothing.
   */
  method ExtractCached(heap: ThreadCache, global: GlobalCache, single: bool) returns (span: Span?)
    requires heap.Valid() && global.Valid() && Separate(heap, global) && (!single ==> heap.deferred == [])
    modifies heap, heap.spans, heap.deferred, global, Flat(global.lists)
    ensures heap.Valid() && global.Valid() && Separate(heap, global) && heap.deferred == []
    ensures var own := Reversed(old(heap.deferred)) + old(heap.spans);
      if own != [] then span != null && own == [span] + heap.spans && global.lists == old(global.lists)
      else if old(global.lists) == [] then span == null && heap.spans == [] && global.lists == []
      else span != null && old(global.lists) == [[span] + heap.spans] + global.lists
  {
    hide Flat, Layer, Chained, Distinct, Heads, Reversed;
    ghost var lists := global.lists;
    OutsideStack(lists, heap.spans);
    OutsideStack(lists, heap.deferred);
    FromBoth(heap.deferred, heap.spans, lists);
    assert forall s <- Spans(lists) :: s !in heap.spans && s !in heap.deferred;
    span := heap.Extract(single);
    if span == null {
      span := GlobalExtract(heap, global);
    }
  }

  /** A thread ends: its cache goes to the global cache in lists of the release count; nothing is lost or doubled. */
  method HeapFinalize(heap: ThreadCache, global: GlobalCache) returns (unmapped: seq<Span>)
    requires heap.Valid() && global.Valid() && Separate(heap, global)
    modifies heap, heap.spans, heap.deferred, global
    ensures heap.Valid() && global.Valid() && heap.spans == heap.deferred == []
    ensures multiset(unmapped) + multiset(Flat(global.lists))
      == multiset(old(heap.deferred)) + multiset(old(heap.spans)) + multiset(Flat(old(global.lists)))
    ensures global.lists == Stacked(Reversed(old(heap.deferred)) + old(heap.spans), heap.release_count, old(global.lists), global.limit)
  {
    hide Flat, Layer, Chained, Distinct, Heads, Reversed, Stacked;
    ghost var lists, own := global.lists, Reversed(heap.deferred) + heap.spans;
    OutsideStack(lists, heap.spans);
    OutsideStack(lists, heap.deferred);
    FromBoth(heap.deferred, heap.spans, lists);
    ReversedBag(heap.deferred);
    forall k | 0 <= k < |own| ensures own[k] in heap.spans || own[k] in heap.deferred {
      ReversedMembers(heap.deferred, own[k]);
      assert own[k] in own;
    }
    assert forall s <- Spans(lists) :: s !in heap.spans && s !in heap.deferred;
    heap.AdoptDeferred();
    var span := heap.span_cache;
    heap.span_cache := null;
    heap.spans := [];
    unmapped := FinalizeLists(span, heap.release_count, global, own);
    HeadsNone();
    ApartNone([]);
  }

  /** The global cache after a whole cache was cut into lists; a list for which there is no room is not kept. */
  function Stacked(spans: seq<Span>, release_count: nat, lists: seq<seq<Span>>, limit: nat): seq<seq<Span>>
    decreases |spans|
  {
    var n := CutAt(|spans|, release_count);
    if spans == [] || n == 0 then lists
    else Stacked(spans[n..], release_count, if |Flat(lists)| + n > limit then lists else [spans[..n]] + lists, limit)
  }

  /** The loop that cuts the cache into lists for the global cache. */
  method FinalizeLists(head: Span?, release_count: nat, global: GlobalCache, ghost own: seq<Span>) returns (unmapped: seq<Span>)
    requires Heads(head, own) && global.Valid() && Apart(own, Flat(global.lists))
    modifies global, own
    ensures global.Valid()
    ensures multiset(unmapped) + multiset(Flat(global.lists)) == multiset(own) + multiset(Flat(old(global.lists)))
    ensures global.lists == Stacked(own, release_count, old(global.lists), global.limit)
  {
    hide Flat, Layer, Chained, Distinct, Heads, Accounted;
    unmapped := [];
    var span := head;
    ghost var rest, total := own, multiset(own) + multiset(Flat(global.lists));
    AccountStart(Flat(global.lists), own);
    while span != null
      invariant |rest| <= |own| && rest == own[|own| - |rest|..] && Heads(span, rest) && global.Valid()
      invariant Stacked(rest, release_count, global.lists, global.limit) == Stacked(own, release_count, old(global.lists), global.limit)
      invariant Apart(rest, Flat(global.lists)) && Accounted(unmapped, Flat(global.lists), rest, total)
      decreases |rest|
    {
      HeadsSome(span, rest);
      ghost var n, flat := CutAt(|rest|, release_count), Flat(global.lists);
      var next, part := PassFirst(span, release_count, global, rest);
      AccountStep(unmapped, part, flat, Flat(global.lists), rest, n, total);
      unmapped := unmapped + part;
      rest, span := rest[n..], next;
    }
    HeadsNull(span, rest);
    AccountEnd(unmapped, Flat(global.lists), total);
  }

  /** Every span is unmapped, in the global cache, or still to come. */
  ghost predicate Accounted(unmapped: seq<Span>, flat: seq<Span>, rest: seq<Span>, total: multiset<Span>) {
    multiset(unmapped) + multiset(flat) + multiset(rest) == total
  }

  lemma AccountStart(flat: seq<Span>, own: seq<Span>)
    ensures Accounted([], flat, own, multiset(own) + multiset(flat))
  {
  }

  lemma AccountStep(unmapped: seq<Span>, part: seq<Span>, flat: seq<Span>, flat': seq<Span>, rest: seq<Span>, n: nat, total: multiset<Span>)
    requires n <= |rest| && Accounted(unmapped, flat, rest, total)
    requires multiset(part) + multiset(flat') == multiset(rest[..n]) + multiset(flat)
    ensures Accounted(unmapped + part, flat', rest[n..], total)
  {
    assert rest == rest[..n] + rest[n..];
    assert multiset(rest) == multiset(rest[..n]) + multiset(rest[n..]);
    assert multiset(unmapped + part) == multiset(unmapped) + multiset(part);
    BagsMove(multiset(unmapped), multiset(part), multiset(flat), multiset(flat'), multiset(rest[..n]), multiset(rest[n..]));
  }

  lemma BagsMove(u: multiset<Span>, p: multiset<Span>, f: multiset<Span>, f': multiset<Span>, a: multiset<Span>, b: multiset<Span>)
    requires p + f' == a + f
    ensures (u + p) + f' + b == u + f + (a + b)
  {
    assert (u + p) + f' + b == u + (p + f') + b;
  }

  lemma AccountEnd(unmapped: seq<Span>, flat: seq<Span>, total: multiset<Span>)
    requires Accounted(unmapped, flat, [], total)
    ensures multiset(unmapped) + multiset(flat) == total
  {
  }

  /** Cuts one list off and offers it to the global cache. */
  method PassFirst(span: Span, release_count: nat, global: GlobalCache, ghost spans: seq<Span>) returns (next: Span?, unmapped: seq<Span>)
    requires spans != [] && Heads(span, spans) && global.Valid() && Apart(spans, Flat(global.lists))
    modifies global, spans
    ensures var n := CutAt(|spans|, release_count);
      && Heads(next, spans[n..]) && global.Valid() && Apart(spans[n..], Flat(global.lists))
      && multiset(unmapped) + multiset(Flat(global.lists)) == multiset(spans[..n]) + multiset(Flat(old(global.lists)))
      && global.lists == if |Flat(old(global.lists))| + n > global.limit then old(global.lists) else [spans[..n]] + old(global.lists)
  {
    hide Flat, Layer, Chained, Distinct, Heads, Reversed;
    ghost var n, lists := CutAt(|spans|, release_count), global.lists;
    HeadsFacts(span, spans);
    OutsideStack(lists, spans);
    ApartParts(spans, n, Flat(lists));
    assert forall s <- Spans(lists) :: s !in spans;
    FlatTop(spans[..n], lists);
    next := Split(span, release_count, spans);
    unmapped := global.Insert(span, spans[..n]);
  }

  lemma HeadsNone()
    ensures Heads(null, []) && Chained([])
  {
  }

  lemma HeadsSome(head: Span, spans: seq<Span>)
    requires Heads(head, spans)
    ensures spans != []
  {
  }

  lemma HeadsNull(head: Span?, spans: seq<Span>)
    requires Heads(head, spans) && head == null
    ensures spans == []
  {
  }

  lemma {:induction false} ReversedBag(spans: seq<Span>)
    ensures multiset(Reversed(spans)) == multiset(spans)
  {
    if spans != [] {
      ReversedBag(spans[..|spans| - 1]);
      assert spans == spans[..|spans| - 1] + [spans[|spans| - 1]];
    }
  }
}
