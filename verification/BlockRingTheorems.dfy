/**
 What the lock-free queue of one producer guarantees in every state of every run,
 for any number of consumers and any interleaving of shared accesses.
 */
module BlockRingTheorems {
  import opened BlockRing
  import opened BlockArith
  import opened BlockRingSafety
  import P = BlockRingProducer
  import C = QueueClaims
  import D = QueueDelivery
  import opened Options

  ghost predicate Run(run: seq<State>) {
    && |run| > 0 && Init(run[0])
    && forall i | 0 <= i < |run| - 1 :: Next(run[i], run[i + 1])
  }

  /** Elements are only ever granted to consumers of this queue. */
  ghost predicate OwnersKnown(s: State) {
    forall i | 0 <= i < |s.own.owner| :: s.own.owner[i] in s.work
  }

  lemma NextInv(s: State, s': State)
    requires Inv(s) && OwnersKnown(s) && Next(s, s')
    ensures Inv(s') && OwnersKnown(s') && s'.work.Keys == s.work.Keys
  {
    hide Inv, OwnersKnown, ProducerStep, ConsumerStep;
    if input :| ProducerReady(s, input) && s' == ProducerStep(s, input) {
      P.ProducerStepInv(s, input);
      ProducerOwners(s, input);
    } else {
      var t :| t in s.work && ConsumerReady(s, t) && s' == ConsumerStep(s, t);
      ConsumerStepInv(s, t);
      ConsumerOwners(s, t);
    }
  }

  lemma ProducerOwners(s: State, input: Input)
    requires OwnersKnown(s) && ProducerReady(s, input)
    ensures OwnersKnown(ProducerStep(s, input)) && ProducerStep(s, input).work == s.work
  {
    hide Offset;
  }

  lemma ConsumerOwners(s: State, t: C.Tid)
    requires OwnersKnown(s) && ConsumerReady(s, t)
    ensures OwnersKnown(ConsumerStep(s, t)) && ConsumerStep(s, t).work.Keys == s.work.Keys
  {
    hide Offset, StretchOf, FirstSlot, C.ConsumerStep;
  }

  lemma {:induction false} RunInv(run: seq<State>, i: nat)
    requires Run(run) && i < |run|
    ensures Inv(run[i]) && OwnersKnown(run[i]) && run[i].work.Keys == run[0].work.Keys
  {
    hide Inv, Init, Next;
    if i == 0 {
      InitInv(run[0]);
      assert OwnersKnown(run[0]) by { InitOwners(run[0]); }
    } else {
      RunInv(run, i - 1);
      assert Next(run[i - 1], run[i - 1 + 1]);
      NextInv(run[i - 1], run[i]);
    }
  }

  lemma InitOwners(s: State)
    requires Init(s)
    ensures OwnersKnown(s)
  {
  }

  // ----- memory -----

  /** No consumer ever indexes outside an array or follows a block it should not: each of its steps is enabled. */
  lemma ConsumersNeverFault(s: State, t: C.Tid)
    requires Inv(s) && t in s.work
    ensures ConsumerReady(s, t)
  {
    hide Inv, RingSide, CounterInv, DoneInv, C.Inv, D.Inv, ItemInv, ConsumerSide, HeaderOk, Base, Slot, Offset, StretchOf;
    Parts(s);
    LinkFact(s, t);
    CurrentHeader(s.ring, s.c.tail);
    if s.c.consumers[t].Granted? {
      JobPublished(s, t);
      match s.work[t]
      case NoWork =>
      case GotHeader(h) => CoveredHeader(s.ring, h, s.own.jobs[t].end);
      case GotFront(h, f, fv) =>
        HeaderFact(s.ring, s.c.tail, h);
        HeaderBound(s.ring, h);
      case AtBlock(h, slot, index, v) =>
        JobInRing(s, t, v);
        HeaderFact(s.ring, s.c.tail, h);
        EntryFact(s.ring, h, v);
      case Reading(h, slot, b, start, pos, stop, v) =>
        JobInRing(s, t, v);
        CounterKnown(s.ring, s.counters, s.own.done, v);
        if pos < stop { HandedItem(s, t); }
    }
  }

  lemma CoveredHeader(r: Ring, h: nat, end: nat)
    requires Covers(r, h, end) && end > 0
    ensures r.his[h] > 0
  {
  }

  lemma CounterKnown(r: Ring, counters: map<Block, nat>, done: set<nat>, v: nat)
    requires CounterInv(r, counters, done) && Oldest(r) <= v < Begun(r)
    ensures r.blockOf[v] in counters
    ensures counters[r.blockOf[v]] <= r.bs
    ensures counters[r.blockOf[v]] == r.bs <==> forall i: nat | Base(v, r.bs) <= i < Base(v, r.bs) + r.bs :: i in done
  {
    hide Base;
    var lo := Base(v, r.bs);
    CountBound(done, lo, lo + r.bs);
    if forall i: nat | lo <= i < lo + r.bs :: i in done {
      CountAll(done, lo, lo + r.bs);
    }
  }

  lemma {:induction false} CountAll(done: set<nat>, lo: nat, hi: nat)
    requires lo <= hi && forall i | lo <= i < hi :: i in done
    ensures CountDone(done, lo, hi) == hi - lo
    decreases hi - lo
  {
    if lo < hi { CountAll(done, lo, hi - 1); }
  }

  /** The producer's accesses are in bounds too; it only has to be given a block that is not in its ring. */
  lemma ProducerNeverFaults(s: State, input: Input)
    requires Inv(s) && input.block !in s.ring.next && |input.junk| == 2 * s.ring.indexSize - s.ring.slotsUsed
    ensures ProducerReady(s, input)
  {
    hide Inv, RingSide, CounterInv, DoneInv, C.Inv, D.Inv, ItemInv, ConsumerSide, HeaderOk, Base, Slot, Offset, StretchOf;
    Parts(s);
    CurrentHeader(s.ring, s.c.tail);
    HeaderBound(s.ring, s.ring.blockIndex);
    P.IndexRoom(s.ring, s.c.tail);
    IndexFacts(s.ring, s.c.tail);
    if s.ring.tailBlock.Some? {
      P.FullOldest(s.ring, s.c.tail, s.counters, s.own.done);
    }
  }

  lemma IndexFacts(r: Ring, tail: nat)
    requires RingSide(r, tail)
    ensures |r.headers| == |r.his| && r.blockIndex < |r.headers| && r.indexFront < |r.headers[r.blockIndex].entries| && r.indexSize > 0
  {
    hide TailInv, RingInv, SlotInv, Base, Offset, StretchOf;
  }

  // ----- the theorems -----

  /** The head never passes the tail, and what a consumer works on is published. */
  lemma GrantsArePublished(run: seq<State>, i: nat, t: C.Tid)
    requires Run(run) && i < |run| && t in run[i].own.jobs
    ensures var s, j := run[i], run[i].own.jobs[t];
            j.from < j.end <= s.c.head <= s.c.tail <= |s.ring.written|
  {
    hide Inv, Run;
    RunInv(run, i);
    JobPublished(run[i], t);
    assert run[i].c.tail <= |run[i].ring.written| by {
      Parts(run[i]);
      hide RingSide, HeaderOk;
      CurrentHeader(run[i].ring, run[i].c.tail);
    }
  }

  /** A consumer's index lookup finds the block that holds the elements it is after, through every reuse, wrap and growth. */
  lemma LookupFindsBlock(run: seq<State>, i: nat, t: C.Tid)
    requires Run(run) && i < |run| && t in run[i].own.jobs && t in run[i].work && run[i].work[t].AtBlock?
    ensures var s, w := run[i], run[i].work[t];
            && s.ring.bs > 0 && w.header < |s.ring.headers| && w.slot < |s.ring.headers[w.header].entries|
            && w.stretch == StretchOf(w.index, s.ring.bs) < |s.ring.blockOf|
            && s.ring.headers[w.header].entries[w.slot] == Entry(w.index - Offset(w.index, s.ring.bs), s.ring.blockOf[w.stretch])
  {
    hide Run, Inv, RingSide, CounterInv, DoneInv, C.Inv, D.Inv, ItemInv, ConsumerSide, HeaderOk, Base, Slot, Offset, StretchOf;
    var s := run[i];
    RunInv(run, i);
    Parts(s);
    LinkFact(s, t);
    JobPublished(s, t);
    CurrentHeader(s.ring, s.c.tail);
    var AtBlock(h, slot, index, v) := s.work[t];
    BaseUnique(index, v, s.ring.bs);
    JobInRing(s, t, v);
    HeaderFact(s.ring, s.c.tail, h);
    EntryFact(s.ring, h, v);
  }

  /** The live entries, counted back from the front, have bases descending by a block and follow the circular list. */
  lemma LiveEntriesDescend(run: seq<State>, i: nat, k: nat)
    requires Run(run) && i < |run| && run[i].ring.producer.PIdle? && k < run[i].ring.slotsUsed
    ensures var r := run[i].ring;
            && r.blockIndex < |r.headers| && |r.headers[r.blockIndex].entries| == r.indexSize > 0
            && var e := r.headers[r.blockIndex].entries[(r.indexFront - 1 - k) % r.indexSize];
               && e.base == Base(|r.blockOf| - 1 - k, r.bs)
               && (k == 0 ==> r.tailBlock == Some(e.block))
               && e.block in r.next
               && (k > 0 ==> r.next[e.block] == r.headers[r.blockIndex].entries[(r.indexFront - k) % r.indexSize].block)
  {
    RunInv(run, i);
    hide Run;
    var s := run[i];
    Parts(s);
    hide Inv;
    LiveEntry(s.ring, s.c.tail, k);
    if k > 0 { LiveEntry(s.ring, s.c.tail, k - 1); }
    hide TailInv, IndexInv, SlotInv, HeaderOk, Base, Slot;
  }

  lemma LiveEntry(r: Ring, tail: nat, k: nat)
    requires RingSide(r, tail) && r.producer.PIdle? && k < r.slotsUsed
    ensures Oldest(r) <= Begun(r) - 1 - k && 0 <= Begun(r) - 1 - k
    ensures r.blockIndex < |r.headers| && |r.headers[r.blockIndex].entries| == r.indexSize > 0
    ensures r.headers[r.blockIndex].entries[(r.indexFront - 1 - k) % r.indexSize]
            == Entry(Base(Begun(r) - 1 - k, r.bs), r.blockOf[Begun(r) - 1 - k])
  {
    hide TailInv, SlotInv, Base;
    var n, cur := Begun(r), r.blockIndex;
    assert HeaderOk(r, cur);
    SlotMove(n, n - 1 - k, r.offs[cur], r.indexSize);
  }

  /** What is handed over was published, and is what was written. */
  lemma DeliveredAsWritten(run: seq<State>, i: nat, k: nat)
    requires Run(run) && i < |run| && k < |run[i].own.delivered|
    ensures var s, d := run[i], run[i].own.delivered[k];
            d.index < s.c.head <= s.c.tail <= |s.ring.written| && d.item == s.ring.written[d.index]
  {
    hide Inv, Run, RingSide, C.Inv, CounterInv, DoneInv, HeaderOk, Linked;
    var s := run[i];
    RunInv(run, i);
    Parts(s);
    C.HeadWithinTail(s.c);
    assert s.own.delivered[k].index < s.own.head == s.c.head by {
      hide ItemInv, D.Located, D.OwnerInv;
    }
    CurrentHeader(s.ring, s.c.tail);
  }

  /** Nothing is handed over twice, and each consumer sees its elements in order. */
  lemma DeliveredOnce(run: seq<State>, i: nat, j: nat, k: nat)
    requires Run(run) && i < |run| && j < k < |run[i].own.delivered|
    ensures var d, e := run[i].own.delivered[j], run[i].own.delivered[k];
            d.index != e.index && (d.consumer == e.consumer ==> d.index < e.index)
  {
    hide Inv, Run, D.Inv, RingSide;
    RunInv(run, i);
    Parts(run[i]);
    D.DeliveredOnceInOrder(run[i].own, j, k);
  }

  /** When nobody is working and the head has reached the tail, every published element has been handed over. */
  lemma DrainedQueueDeliveredAll(run: seq<State>, i: nat, index: nat)
    requires Run(run) && i < |run| && run[i].own.jobs == map[] && run[i].c.head == run[i].c.tail && index < run[i].c.tail
    ensures exists k :: 0 <= k < |run[i].own.delivered| && run[i].own.delivered[k].index == index
  {
    hide Inv, Run, D.Inv, RingSide, CounterInv;
    RunInv(run, i);
    Parts(run[i]);
    D.AllDelivered(run[i].own, index);
    assert run[i].own.delivered[run[i].own.deliveredAt[index]].index == index;
  }

  /** A single consumer receives the items in exactly the order in which they were enqueued. */
  lemma SingleConsumerFifo(run: seq<State>, i: nat, t: C.Tid, k: nat)
    requires Run(run) && i < |run| && run[0].work.Keys == {t} && k < |run[i].own.delivered|
    ensures run[i].own.delivered[k].index == k < |run[i].ring.written|
    ensures run[i].own.delivered[k].item == run[i].ring.written[k]
  {
    hide Inv, Run, D.Inv, RingSide, CounterInv, Linked;
    RunInv(run, i);
    var s := run[i];
    Parts(s);
    D.SingleConsumerFifo(s.own, t, k);
  }

  /** The slot the producer writes is in no stretch that a consumer is handing over. */
  lemma WriteTouchesNoReader(run: seq<State>, i: nat, t: C.Tid, e: nat)
    requires Run(run) && i < |run| && run[i].ring.producer.PWrite? && run[i].ring.tailBlock.Some? && run[i].ring.bs > 0
    requires t in run[i].own.jobs && t in run[i].work && run[i].work[t].Reading?
    requires run[i].work[t].start <= e < run[i].work[t].stop
    ensures var s := run[i];
            (s.ring.tailBlock.value, Offset(s.ring.producer.tail, s.ring.bs)) != (s.work[t].block, Offset(e, s.ring.bs))
  {
    hide Run, Inv, CounterInv, DoneInv, C.Inv, D.Inv, ItemInv, ConsumerSide, IndexInv, SlotInv, Slot, Offset, StretchOf, Base;
    var s := run[i];
    RunInv(run, i);
    Parts(s);
    LinkFact(s, t);
    JobPublished(s, t);
    var Reading(h, slot, b, start, pos, stop, v) := s.work[t];
    JobInRing(s, t, v);
    BaseUnique(e, v, s.ring.bs);
    var n := Begun(s.ring);
    BaseNext(n - 1, s.ring.bs);
    BaseUnique(s.ring.producer.tail, n - 1, s.ring.bs);
  }

  /**
   A block's counter never exceeds the block size, and reaches it exactly when every element of the stretch
   the block holds is finished: a block is reused only after processData has returned for all of it.
   */
  lemma CounterTracksFinished(run: seq<State>, i: nat, v: nat)
    requires Run(run) && i < |run| && Oldest(run[i].ring) <= v < Begun(run[i].ring)
    ensures var s := run[i]; var b := s.ring.blockOf[v];
            && b in s.counters && s.counters[b] <= s.ring.bs
            && (s.counters[b] == s.ring.bs <==>
                forall e: nat | Base(v, s.ring.bs) <= e < Base(v, s.ring.bs) + s.ring.bs :: e in s.own.done)
  {
    hide Run, Inv, Base, CounterInv;
    RunInv(run, i);
    Parts(run[i]);
    CounterKnown(run[i].ring, run[i].counters, run[i].own.done, v);
  }

  /** Every element of the oldest stretch in the ring is handed over and counted. */
  ghost predicate OldestDone(s: State) {
    Begun(s.ring) > 0 && forall e: nat | Base(Oldest(s.ring), s.ring.bs) <= e < Base(Oldest(s.ring), s.ring.bs) + s.ring.bs :: e in s.own.done
  }

  /**
   A producer that needs a block takes the oldest one back exactly when that is done. Only otherwise is a block
   requisitioned, and the index grown exactly when, besides, every one of its slots is used.
   */
  lemma BlocksOnlyWhenNeeded(run: seq<State>, i: nat, input: Input)
    requires Run(run) && i < |run| && run[i].ring.producer.PAlloc? && ProducerReady(run[i], input)
    ensures var s := run[i];
            && s.ring.blockIndex < |s.ring.headers|
            && ProducerStep(s, input).ring.producer ==
                 if OldestDone(s) then PReuse(s.c.tail)
                 else if s.ring.slotsUsed == |s.ring.headers[s.ring.blockIndex].entries| then PGrow(s.c.tail)
                 else PInsert(s.c.tail)
  {
    hide Run, Inv, Base, CounterInv, DoneInv, SlotInv;
    var s := run[i];
    RunInv(run, i);
    Parts(s);
    CurrentHeader(s.ring, s.c.tail);
    TailAndSize(s.ring, s.c.tail);
    if s.ring.tailBlock.Some? {
      P.FullOldest(s.ring, s.c.tail, s.counters, s.own.done);
      CounterKnown(s.ring, s.counters, s.own.done, Oldest(s.ring));
    }
    hide RingSide;
  }

  lemma TailAndSize(r: Ring, tail: nat)
    requires RingSide(r, tail)
    ensures r.producer.PAlloc? ==> r.producer.tail == tail
    ensures r.tailBlock.Some? <==> Begun(r) > 0
    ensures r.blockIndex < |r.headers| && |r.headers[r.blockIndex].entries| == r.headers[r.blockIndex].size == r.indexSize
    ensures r.blockIndex == |r.headers| - 1
  {
    hide Base, SlotInv, Slot;
    assert HeaderOk(r, r.blockIndex);
  }

  /** The block taken back is that of the oldest stretch; the ring neither grows nor shrinks. */
  lemma ReusesOldest(run: seq<State>, i: nat, input: Input)
    requires Run(run) && i < |run| && run[i].ring.producer.PReuse? && ProducerReady(run[i], input)
    ensures var r, r' := run[i].ring, ProducerStep(run[i], input).ring;
            && 0 <= Oldest(r) < Begun(r) && r'.tailBlock == Some(r.blockOf[Oldest(r)])
            && r'.blockOf == r.blockOf + [r.blockOf[Oldest(r)]] && r'.next == r.next && r'.slotsUsed == r.slotsUsed
  {
    hide Run, Inv, Base, CounterInv, DoneInv, SlotInv;
    RunInv(run, i);
    Parts(run[i]);
    P.FullOldest(run[i].ring, run[i].c.tail, run[i].counters, run[i].own.done);
    hide RingSide;
  }

  ghost predicate SizesDouble(r: Ring) { forall h | 0 <= h < |r.headers| - 1 :: r.headers[h + 1].size == 2 * r.headers[h].size }

  /** Each index is twice as large as the one before, so that all sizes are powers of two if the first one is. */
  lemma {:induction false} IndexDoubles(run: seq<State>, i: nat)
    requires Run(run) && i < |run|
    ensures SizesDouble(run[i].ring)
  {
    hide Inv, Next, SizesDouble;
    if i == 0 {
      OneIndex(run[0]);
    } else {
      IndexDoubles(run, i - 1);
      RunInv(run, i - 1);
      assert Next(run[i - 1], run[i - 1 + 1]);
      Parts(run[i - 1]);
      TailAndSize(run[i - 1].ring, run[i - 1].c.tail);
      DoublesKept(run[i - 1], run[i]);
    }
  }

  lemma OneIndex(s: State)
    requires Init(s)
    ensures SizesDouble(s.ring)
  {
  }

  lemma DoublesKept(s: State, s': State)
    requires Next(s, s') && SizesDouble(s.ring)
    requires s.ring.blockIndex == |s.ring.headers| - 1 && s.ring.headers[s.ring.blockIndex].size == s.ring.indexSize
    ensures SizesDouble(s'.ring)
  {
    hide ConsumerStep, ProducerStep, SizesDouble;
    if input :| ProducerReady(s, input) && s' == ProducerStep(s, input) {
      ProducerSizes(s, input);
    } else {
      var t :| t in s.work && ConsumerReady(s, t) && s' == ConsumerStep(s, t);
      RingUntouched(s, t);
    }
  }

  lemma ProducerSizes(s: State, input: Input)
    requires ProducerReady(s, input) && SizesDouble(s.ring)
    requires s.ring.blockIndex == |s.ring.headers| - 1 && s.ring.headers[s.ring.blockIndex].size == s.ring.indexSize
    ensures SizesDouble(ProducerStep(s, input).ring)
  {
    hide ProducerStep, ProducerReady;
    StepSizes(s, input);
  }

  lemma StepSizes(s: State, input: Input)
    requires ProducerReady(s, input) && s.ring.blockIndex == |s.ring.headers| - 1
    ensures var was, now := s.ring.headers, ProducerStep(s, input).ring.headers;
      && |was| <= |now| <= |was| + 1 && (forall h | 0 <= h < |was| :: now[h].size == was[h].size)
      && (|now| > |was| ==> now[|was|].size == 2 * s.ring.indexSize)
  {
    hide ProducerStep, ProducerReady;
    match s.ring.producer
    case PGrow(_) => GrowSizes(s, input);
    case PEntryBase(_) => EntrySizes(s, input);
    case PEntryBlock(_) => EntrySizes(s, input);
    case PFront(_) => EntrySizes(s, input);
    case _ => SameHeaders(s, input);
  }

  lemma GrowSizes(s: State, input: Input)
    requires ProducerReady(s, input) && s.ring.producer.PGrow?
    ensures var was, now := s.ring.headers, ProducerStep(s, input).ring.headers;
      |now| == |was| + 1 && now[..|was|] == was && now[|was|].size == 2 * s.ring.indexSize
  {
    hide GrownEntries;
  }

  lemma EntrySizes(s: State, input: Input)
    requires ProducerReady(s, input) && (s.ring.producer.PEntryBase? || s.ring.producer.PEntryBlock? || s.ring.producer.PFront?)
    ensures var k, was, now := s.ring.blockIndex, s.ring.headers, ProducerStep(s, input).ring.headers;
      k < |was| == |now| && now == was[k := now[k]] && now[k].size == was[k].size
  {
  }

  lemma SameHeaders(s: State, input: Input)
    requires ProducerReady(s, input) && !s.ring.producer.PGrow?
    requires !s.ring.producer.PEntryBase? && !s.ring.producer.PEntryBlock? && !s.ring.producer.PFront?
    ensures ProducerStep(s, input).ring.headers == s.ring.headers
  {
    hide Offset;
  }

  lemma RingUntouched(s: State, t: C.Tid)
    requires ConsumerReady(s, t)
    ensures ConsumerStep(s, t).ring == s.ring
  {
    hide Offset, StretchOf, FirstSlot, C.ConsumerStep;
  }
}
