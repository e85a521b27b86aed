/**
 Allocating and freeing small and medium blocks in any number of heaps. Each class of a heap has one active span, whose
 free list the heap holds; partially used spans wait behind it, full ones are in no list.
 */
module SmallBlocks {

  import opened SizeClasses
  import opened SpanBlocks
  import SuperSpans
  import opened Options

  /** A span by its place: its region and its distance from the region's start. */
  type SpanId = SuperSpans.Span

  datatype HeapClass = HeapClass(free_list: seq<Block>, partial: seq<SpanId>)

  /** The heaps' classes, the headers of the spans in use, and the blocks that are allocated. */
  datatype Store = Store(classes: map<Key, HeapClass>, spans: map<SpanId, Span>, live: map<SpanId, set<Block>>)

  /** A heap starts out zeroed. */
  function ClassOf(st: Store, k: Key): HeapClass { if k in st.classes then st.classes[k] else HeapClass([], []) }

  function MemberState(i: nat, open: bool): State { if i == 0 && !open then Active else Partial }

  /** The partial list is empty, or its head is active and all others are partial. While open, the active one is gone. */
  predicate ClassOk(st: Store, k: Key, open: bool) {
    var hc := ClassOf(st, k);
    && SuperSpans.Distinct(hc.partial) && (open || hc.partial == [] ==> hc.free_list == [])
    && forall i | 0 <= i < |hc.partial| ::
         hc.partial[i] in st.spans && st.spans[hc.partial[i]].owner == k && st.spans[hc.partial[i]].state == MemberState(i, open)
  }

  function HeapFree(st: Store, s: SpanId): seq<Block>
    requires s in st.spans
  {
    if st.spans[s].state.Active? then ClassOf(st, st.spans[s].owner).free_list else []
  }

  predicate Listed(st: Store, s: SpanId, open: bool)
    requires s in st.spans
  {
    var partial := ClassOf(st, st.spans[s].owner).partial;
    match st.spans[s].state
    case Active => !open && partial != [] && partial[0] == s
    case Partial => s in partial && (open || partial[0] != s)
    case Full => s !in partial && (open || partial != [])
  }

  ghost predicate SpanIn(st: Store, s: SpanId, open: bool)
    requires s in st.spans && s in st.live
  {
    SpanOk(st.spans[s], HeapFree(st, s), st.live[s]) && Listed(st, s, open)
  }

  ghost predicate Inv(st: Store, open: Option<Key>) {
    && st.live.Keys == st.spans.Keys
    && (forall k: Key :: ClassOk(st, k, open == Some(k)))
    && (forall s <- st.spans :: SpanIn(st, s, open == Some(st.spans[s].owner)))
  }

  /** A step on class k that changes at most span s keeps the invariant if it does so for class k and its spans. */
  lemma StepInv(st: Store, st': Store, open: Option<Key>, open': Option<Key>, k: Key, s: SpanId)
    requires Inv(st, open) && (open == None || open == Some(k)) && (open' == None || open' == Some(k))
    requires st'.live.Keys == st'.spans.Keys && (s in st.spans ==> st.spans[s].owner == k)
    requires forall k': Key | k' != k :: ClassOf(st', k') == ClassOf(st, k')
    requires forall t: SpanId | t != s :: (t in st.spans <==> t in st'.spans)
    requires forall t <- st.spans | t != s :: st'.spans[t] == st.spans[t] && st'.live[t] == st.live[t]
    requires ClassOk(st', k, open' == Some(k))
    requires s in st'.spans ==> st'.spans[s].owner == k && SpanIn(st', s, open' == Some(k))
    requires forall t <- st.spans | t != s && st.spans[t].owner == k :: Listed(st', t, open' == Some(k)) && HeapFree(st', t) == HeapFree(st, t)
    ensures Inv(st', open')
  {
    hide SpanOk;
    forall k': Key ensures ClassOk(st', k', open' == Some(k')) {
      if k' != k { OtherClass(st, st', open, open', k, k', s); }
    }
    forall t | t in st'.spans ensures SpanIn(st', t, open' == Some(st'.spans[t].owner)) {
      if t != s { OtherSpan(st, st', open, open', k, t, s); }
    }
  }

  lemma OtherClass(st: Store, st': Store, open: Option<Key>, open': Option<Key>, k: Key, k': Key, s: SpanId)
    requires k' != k && ClassOk(st, k', open == Some(k')) && (open == None || open == Some(k)) && (open' == None || open' == Some(k))
    requires (s in st.spans ==> st.spans[s].owner == k) && ClassOf(st', k') == ClassOf(st, k')
    requires forall t <- st.spans | t != s :: t in st'.spans && st'.spans[t] == st.spans[t]
    ensures ClassOk(st', k', open' == Some(k'))
  {
  }

  lemma OtherSpan(st: Store, st': Store, open: Option<Key>, open': Option<Key>, k: Key, t: SpanId, s: SpanId)
    requires t != s && t in st.spans && t in st.live && t in st'.spans && t in st'.live
    requires SpanIn(st, t, open == Some(st.spans[t].owner)) && (open == None || open == Some(k)) && (open' == None || open' == Some(k))
    requires st'.spans[t] == st.spans[t] && st'.live[t] == st.live[t]
    requires st.spans[t].owner != k ==> ClassOf(st', st.spans[t].owner) == ClassOf(st, st.spans[t].owner)
    requires st.spans[t].owner == k ==> Listed(st', t, open' == Some(k)) && HeapFree(st', t) == HeapFree(st, t)
    ensures SpanIn(st', t, open' == Some(st'.spans[t].owner))
  {
    hide SpanOk;
  }

  function Put(st: Store, k: Key, hc: HeapClass, s: SpanId, span: Span, live: set<Block>): Store {
    Store(st.classes[k := hc], st.spans[s := span], st.live[s := live])
  }

  function Drop(st: Store, k: Key, hc: HeapClass, s: SpanId): Store {
    Store(st.classes[k := hc], st.spans - {s}, st.live - {s})
  }

  lemma SpanFacts(st: Store, s: SpanId, open: Option<Key>)
    requires Inv(st, open) && s in st.spans
    ensures s in st.live && SpanIn(st, s, open == Some(st.spans[s].owner))
  {
    hide SpanOk;
  }

  lemma ClassAt(st: Store, k: Key, open: Option<Key>)
    requires Inv(st, open)
    ensures ClassOk(st, k, open == Some(k))
  {
    hide SpanOk, ClassOk;
  }

  lemma HeadFacts(st: Store, k: Key, open: Option<Key>)
    requires Inv(st, open) && ClassOf(st, k).partial != []
    ensures var s := ClassOf(st, k).partial[0];
      && s in st.spans && s in st.live && st.spans[s].owner == k
      && SpanIn(st, s, open == Some(k)) && st.spans[s].state == (if open == Some(k) then Partial else Active)
  {
    hide SpanOk;
    assert ClassOk(st, k, open == Some(k));
  }

  /** Steps on the active span that leave it active. */
  lemma ActiveStep(st: Store, k: Key, free_list: seq<Block>, span: Span, live: set<Block>)
    requires Inv(st, None) && ClassOf(st, k).partial != []
    requires span.state.Active? && span.owner == k && SpanOk(span, free_list, live)
    ensures Inv(Put(st, k, HeapClass(free_list, ClassOf(st, k).partial), ClassOf(st, k).partial[0], span, live), None)
  {
    hide SpanOk, ClassOk;
    var s := ClassOf(st, k).partial[0];
    var st' := Put(st, k, HeapClass(free_list, ClassOf(st, k).partial), s, span, live);
    HeadFacts(st, k, None);
    ClassKept(st, st', k);
    forall t | t in st.spans && t != s && st.spans[t].owner == k
      ensures Listed(st', t, false) && HeapFree(st', t) == HeapFree(st, t) {
      SpanFacts(st, t, None);
    }
    StepInv(st, st', None, None, k, s);
  }

  /** Steps on a partial or full span that change neither its state nor its class. */
  lemma QuietStep(st: Store, s: SpanId, span: Span, live: set<Block>)
    requires Inv(st, None) && s in st.spans && !st.spans[s].state.Active?
    requires span.state == st.spans[s].state && span.owner == st.spans[s].owner && SpanOk(span, [], live)
    ensures Inv(st.(spans := st.spans[s := span], live := st.live[s := live]), None)
  {
    hide SpanOk, ClassOk;
    var k := span.owner;
    var st' := st.(spans := st.spans[s := span], live := st.live[s := live]);
    SpanFacts(st, s, None);
    ListedClass(st, k);
    ClassKept(st, st', k);
    OthersListed(st, st', k, s);
    StepInv(st, st', None, None, k, s);
  }

  lemma ListedClass(st: Store, k: Key)
    requires Inv(st, None)
    ensures ClassOf(st, k).partial == [] ==> ClassOf(st, k).free_list == []
  {
    hide SpanOk;
    ClassAt(st, k, None);
  }

  lemma ClassKept(st: Store, st': Store, k: Key)
    requires ClassOk(st, k, false) && ClassOf(st', k).partial == ClassOf(st, k).partial
    requires ClassOf(st, k).partial != [] || ClassOf(st', k).free_list == []
    requires forall t <- st.spans :: t in st'.spans && st'.spans[t].owner == st.spans[t].owner && st'.spans[t].state == st.spans[t].state
    ensures ClassOk(st', k, false)
  {
  }

  lemma OthersListed(st: Store, st': Store, k: Key, s: SpanId)
    requires Inv(st, None) && ClassOf(st', k) == ClassOf(st, k)
    requires forall t <- st.spans | t != s :: t in st'.spans && st'.spans[t] == st.spans[t]
    ensures forall t <- st.spans | t != s && st.spans[t].owner == k :: Listed(st', t, false) && HeapFree(st', t) == HeapFree(st, t)
  {
    hide SpanOk, ClassOk;
    forall t | t in st.spans && t != s && st.spans[t].owner == k
      ensures Listed(st', t, false) && HeapFree(st', t) == HeapFree(st, t) {
      SpanFacts(st, t, None);
    }
  }

  /** The used up active span leaves the list; the class is open until another span becomes active. */
  lemma FullStep(st: Store, k: Key, span: Span)
    requires Inv(st, None) && ClassOf(st, k).partial != []
    requires span.state.Full? && span.owner == k && ClassOf(st, k).partial[0] in st.live
    requires SpanOk(span, [], st.live[ClassOf(st, k).partial[0]])
    ensures var s := ClassOf(st, k).partial[0];
      Inv(Put(st, k, HeapClass([], ClassOf(st, k).partial[1..]), s, span, st.live[s]), Some(k))
  {
    hide SpanOk, ClassOk;
    var s, partial := ClassOf(st, k).partial[0], ClassOf(st, k).partial;
    var st' := Put(st, k, HeapClass([], partial[1..]), s, span, st.live[s]);
    HeadFacts(st, k, None);
    ClassOpened(st, st', k);
    forall t | t in st.spans && t != s && st.spans[t].owner == k
      ensures Listed(st', t, true) && HeapFree(st', t) == HeapFree(st, t) {
      SpanFacts(st, t, None);
      assert partial == [s] + partial[1..];
    }
    StepInv(st, st', None, Some(k), k, s);
  }

  lemma ClassOpened(st: Store, st': Store, k: Key)
    requires ClassOk(st, k, false) && ClassOf(st, k).partial != []
    requires ClassOf(st', k) == HeapClass([], ClassOf(st, k).partial[1..])
    requires forall t <- st.spans | t != ClassOf(st, k).partial[0] :: t in st'.spans && st'.spans[t] == st.spans[t]
    ensures ClassOk(st', k, true) && ClassOf(st, k).partial[0] !in ClassOf(st', k).partial
  {
  }

  /** The first partial span becomes active. */
  lemma PromoteStep(st: Store, k: Key, free_list: seq<Block>, span: Span)
    requires Inv(st, Some(k)) && ClassOf(st, k).partial != []
    requires span.state.Active? && span.owner == k && ClassOf(st, k).partial[0] in st.live
    requires SpanOk(span, free_list, st.live[ClassOf(st, k).partial[0]])
    ensures var s := ClassOf(st, k).partial[0];
      Inv(Put(st, k, HeapClass(free_list, ClassOf(st, k).partial), s, span, st.live[s]), None)
  {
    hide SpanOk, ClassOk;
    var s, partial := ClassOf(st, k).partial[0], ClassOf(st, k).partial;
    var st' := Put(st, k, HeapClass(free_list, partial), s, span, st.live[s]);
    HeadFacts(st, k, Some(k));
    ClassClosed(st, st', k);
    forall t | t in st.spans && t != s && st.spans[t].owner == k
      ensures Listed(st', t, false) && HeapFree(st', t) == HeapFree(st, t) {
      SpanFacts(st, t, Some(k));
    }
    StepInv(st, st', Some(k), None, k, s);
  }

  lemma ClassClosed(st: Store, st': Store, k: Key)
    requires ClassOk(st, k, true) && ClassOf(st, k).partial != []
    requires ClassOf(st', k).partial == ClassOf(st, k).partial
    requires var s := ClassOf(st, k).partial[0]; s in st'.spans && st'.spans[s].state.Active? && st'.spans[s].owner == k
    requires forall t <- st.spans | t != ClassOf(st, k).partial[0] :: t in st'.spans && st'.spans[t] == st.spans[t]
    ensures ClassOk(st', k, false)
  {
  }

  /** A span from the caches becomes active, in a class that has nothing listed. */
  lemma NewStep(st: Store, open: Option<Key>, k: Key, s: SpanId, free_list: seq<Block>, span: Span, live: set<Block>)
    requires Inv(st, open) && (open == None || open == Some(k)) && ClassOf(st, k).partial == [] && s !in st.spans
    requires span.state.Active? && span.owner == k && SpanOk(span, free_list, live)
    ensures Inv(Put(st, k, HeapClass(free_list, [s]), s, span, live), None)
  {
    hide SpanOk;
    var st' := Put(st, k, HeapClass(free_list, [s]), s, span, live);
    assert ClassOk(st, k, open == Some(k));
    forall t | t in st.spans && t != s && st.spans[t].owner == k
      ensures Listed(st', t, false) && HeapFree(st', t) == HeapFree(st, t) {
      SpanFacts(st, t, open);
    }
    StepInv(st, st', open, None, k, s);
  }

  /** A full span that got its first free block goes to the end of the list. */
  lemma RejoinStep(st: Store, k: Key, s: SpanId, span: Span, live: set<Block>)
    requires Inv(st, None) && s in st.spans && st.spans[s].state.Full? && st.spans[s].owner == k
    requires span.state.Partial? && span.owner == k && SpanOk(span, [], live)
    ensures Inv(Put(st, k, ClassOf(st, k).(partial := ClassOf(st, k).partial + [s]), s, span, live), None)
  {
    hide SpanOk, ClassOk;
    var hc := ClassOf(st, k);
    var st' := Put(st, k, hc.(partial := hc.partial + [s]), s, span, live);
    SpanFacts(st, s, None);
    ClassExtended(st, st', k, s);
    forall t | t in st.spans && t != s && st.spans[t].owner == k
      ensures Listed(st', t, false) && HeapFree(st', t) == HeapFree(st, t) {
      SpanFacts(st, t, None);
    }
    StepInv(st, st', None, None, k, s);
  }

  lemma ClassExtended(st: Store, st': Store, k: Key, s: SpanId)
    requires ClassOk(st, k, false) && ClassOf(st, k).partial != [] && s !in ClassOf(st, k).partial
    requires ClassOf(st', k) == ClassOf(st, k).(partial := ClassOf(st, k).partial + [s])
    requires s in st'.spans && st'.spans[s].state.Partial? && st'.spans[s].owner == k
    requires forall t <- st.spans | t != s :: t in st'.spans && st'.spans[t] == st.spans[t]
    ensures ClassOk(st', k, false)
  {
  }

  function Without(partial: seq<SpanId>, s: SpanId): seq<SpanId> {
    if partial == [] then [] else if partial[0] == s then partial[1..] else [partial[0]] + Without(partial[1..], s)
  }

  lemma {:induction false} WithoutMembers(partial: seq<SpanId>, s: SpanId)
    requires SuperSpans.Distinct(partial)
    ensures forall t: SpanId :: t in Without(partial, s) <==> t in partial && t != s
    ensures SuperSpans.Distinct(Without(partial, s)) && (partial != [] && partial[0] != s ==> Without(partial, s) != [] && Without(partial, s)[0] == partial[0])
  {
    if partial != [] {
      assert partial == [partial[0]] + partial[1..];
      WithoutMembers(partial[1..], s);
      var rest := Without(partial[1..], s);
      assert partial[0] !in partial[1..];
      forall i | 0 <= i < |rest| ensures rest[i] != partial[0] { assert rest[i] in rest; }
    }
  }

  /** An empty partial or full span leaves its class. */
  lemma ReleaseStep(st: Store, s: SpanId)
    requires Inv(st, None) && s in st.spans && !st.spans[s].state.Active?
    ensures var k := st.spans[s].owner;
      Inv(Drop(st, k, ClassOf(st, k).(partial := Without(ClassOf(st, k).partial, s)), s), None)
  {
    hide SpanOk, ClassOk;
    var k := st.spans[s].owner;
    var hc := ClassOf(st, k);
    var st' := Drop(st, k, hc.(partial := Without(hc.partial, s)), s);
    SpanFacts(st, s, None);
    ClassReduced(st, st', k, s);
    forall t | t in st.spans && t != s && st.spans[t].owner == k
      ensures Listed(st', t, false) && HeapFree(st', t) == HeapFree(st, t) {
      SpanFacts(st, t, None);
    }
    StepInv(st, st', None, None, k, s);
  }

  lemma ClassReduced(st: Store, st': Store, k: Key, s: SpanId)
    requires ClassOk(st, k, false) && s in st.spans && !st.spans[s].state.Active?
    requires ClassOf(st, k).partial != [] && ClassOf(st', k) == ClassOf(st, k).(partial := Without(ClassOf(st, k).partial, s))
    requires forall t <- st.spans | t != s :: t in st'.spans && st'.spans[t] == st.spans[t]
    ensures ClassOk(st', k, false) && ClassOf(st', k).partial != [] && ClassOf(st', k).partial[0] == ClassOf(st, k).partial[0]
    ensures forall t: SpanId :: t in ClassOf(st', k).partial <==> t in ClassOf(st, k).partial && t != s
  {
    var partial, rest := ClassOf(st, k).partial, ClassOf(st', k).partial;
    WithoutMembers(partial, s);
    forall i | 0 <= i < |rest| ensures rest[i] in st'.spans && st'.spans[rest[i]].owner == k && st'.spans[rest[i]].state == MemberState(i, false) {
      assert rest[i] in rest;
      var j :| 0 <= j < |partial| && partial[j] == rest[i];
    }
  }

  // ----- what the invariant says -----

  /** A class's list is empty, or its head is active and all others are partial with a free block; full spans are unlisted. */
  lemma PartialListStates(st: Store, k: Key, i: nat)
    requires Inv(st, None) && i < |ClassOf(st, k).partial|
    ensures var s := ClassOf(st, k).partial[i];
      && s in st.spans && st.spans[s].owner == k
      && if i == 0 then st.spans[s].state == Active else st.spans[s].state == Partial && st.spans[s].free_list != []
    ensures forall s <- st.spans | st.spans[s].state.Full? :: s !in ClassOf(st, k).partial
  {
    hide SpanOk;
    ClassAt(st, k, None);
    SpanFacts(st, ClassOf(st, k).partial[i], None);
    if i > 0 { PartialSpanHasFree(st.spans[ClassOf(st, k).partial[i]], st.live[ClassOf(st, k).partial[i]]); }
  }

  lemma PartialSpanHasFree(s: Span, live: set<Block>)
    requires SpanOk(s, [], live) && s.state.Partial?
    ensures s.free_list != []
  {
  }

  /**
   Every block of a span in use is in exactly one place: live, the heap's free list, the span's free list, the deferred
   list, or not carved yet.
   */
  lemma EveryBlockOnce(st: Store, s: SpanId, b: Block)
    requires Inv(st, None) && s in st.spans && b < st.spans[s].block_count
    ensures s in st.live
    ensures (if b in st.live[s] then 1 else 0) + multiset(HeapFree(st, s))[b] + multiset(st.spans[s].free_list)[b]
      + multiset(st.spans[s].deferred)[b] + (if b >= st.spans[s].free_list_limit then 1 else 0) == 1
  {
    hide Partitioned;
    SpanFacts(st, s, None);
    PartsDisjoint(st.spans[s], HeapFree(st, s), st.live[s], b);
  }
}
