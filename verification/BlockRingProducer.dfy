/** The producer's steps keep the invariant of module BlockRingSafety. */
module BlockRingProducer {
  import opened BlockRing
  import opened BlockArith
  import opened BlockRingSafety
  import C = QueueClaims
  import D = QueueDelivery
  import opened Options

  /** What a producer step leaves to the consumers: headers stay, and only gain entries. */
  ghost predicate Grown(r: Ring, r': Ring) {
    && r'.bs == r.bs && r.blockOf <= r'.blockOf && r.written <= r'.written
    && |r.headers| <= |r'.headers| && |r.offs| == |r.his| == |r.headers| && |r'.offs| == |r'.his| == |r'.headers|
    && forall h | 0 <= h < |r.headers| ::
         && r'.headers[h].size == r.headers[h].size && r'.offs[h] == r.offs[h]
         && r.his[h] <= r'.his[h] <= Begun(r')
  }

  lemma WorkGrown(r: Ring, r': Ring, phase: C.Phase, w: Work, job: D.Job)
    requires WorkOk(r, phase, w, job) && Grown(r, r')
    ensures WorkOk(r', phase, w, job)
  {
    hide Base, Slot, Offset, StretchOf, FirstSlot;
    if phase.Granted? && !w.NoWork? {
      var h := w.header;
      BaseMono(r.his[h], r'.his[h], r.bs);
    }
  }

  /** A producer step is safe when it keeps the producer's side and only grows the ring. */
  lemma GrownInv(s: State, s': State)
    requires Inv(s) && Grown(s.ring, s'.ring)
    requires s' == s.(c := s'.c, ring := s'.ring, counters := s'.counters)
    requires C.Inv(s'.c) && s'.c.head == s.c.head && s'.c.consumers == s.c.consumers
    requires RingSide(s'.ring, s'.c.tail)
    requires CounterInv(s'.ring, s'.counters, s.own.done) && DoneInv(s'.ring, s.own.done)
    ensures Inv(s')
  {
    hide C.Inv, D.Inv, RingSide, CounterInv, DoneInv, WorkOk, Grown;
    assert ItemInv(s'.ring.written, s.own.delivered) by { WrittenGrown(s.ring, s'.ring, s.own.delivered); }
    forall u | u in s'.work ensures Linked(s', u) {
      assert Linked(s, u);
      WorkGrown(s.ring, s'.ring, s.c.consumers[u], s.work[u], if u in s.own.jobs then s.own.jobs[u] else D.Job(0, 0, 0));
    }
  }

  lemma WrittenGrown(r: Ring, r': Ring, delivered: seq<D.Delivery>)
    requires Grown(r, r') && ItemInv(r.written, delivered)
    ensures ItemInv(r'.written, delivered)
  {
  }

  lemma HisBound(r: Ring, tail: nat)
    requires IndexInv(r, tail)
    ensures |r.headers| == |r.offs| == |r.his| && forall h | 0 <= h < |r.headers| :: r.his[h] <= Begun(r)
  {
    hide Base, Slot;
    forall h | 0 <= h < |r.headers| ensures r.his[h] <= Begun(r) {
      assert HeaderOk(r, h);
    }
  }

  // ----- moving to the next phase -----

  /** An element that starts a block is the first one past the ring's stretches. */
  lemma BlockStart(tail: nat, n: nat, bs: nat)
    requires bs > 0 && tail <= Base(n, bs) && (n > 0 ==> Base(n - 1, bs) < tail)
    ensures Offset(tail, bs) == 0 ==> tail == Base(n, bs)
    ensures Offset(tail, bs) != 0 ==> n > 0 && tail < Base(n, bs)
  {
    BaseSplit(tail, bs);
    var k := StretchOf(tail, bs);
    assert Base(0, bs) == 0;
    hide Base, Slot, Offset, StretchOf, FirstSlot;
    if tail == Base(k, bs) {
      if k < n { BaseMono(k, n - 1, bs); }
      if k > n { BaseMono(n, k, bs); }
    } else if tail == Base(n, bs) {
      BaseUnique(tail, n, bs);
    }
  }

  lemma PhaseRing(r: Ring, tail: nat, p: Producer, counters: map<Block, nat>, done: set<nat>)
    requires RingSide(r, tail) && CounterInv(r, counters, done) && DoneInv(r, done)
    requires r.producer.PIdle? || r.producer.PAlloc?
    requires p.PAlloc? || p.PWrite? || p.PReuse? || p.PGrow? || p.PInsert?
    requires TailInv(r.(producer := p), tail)
    requires p.PReuse? ==> forall i: nat | i < Base(Oldest(r) + 1, r.bs) :: i in done
    ensures var r' := r.(producer := p);
            RingSide(r', tail) && CounterInv(r', counters, done) && DoneInv(r', done) && Grown(r, r')
  {
    hide TailInv, Base, Slot, Offset, StretchOf, FirstSlot;
    var r' := r.(producer := p);
    HisBound(r, tail);
    forall h | 0 <= h < |r'.headers| ensures HeaderOk(r', h) {
      assert HeaderOk(r, h);
    }
    forall v, i: nat | Oldest(r') <= v < Begun(r') && 0 <= v && Base(v, r'.bs) <= i < Base(v, r'.bs) + r'.bs && i < |r'.written|
      ensures SlotHolds(r', v, i)
    {
      assert SlotHolds(r, v, i);
    }
  }

  lemma IdleInv(s: State, input: Input)
    requires Inv(s) && ProducerReady(s, input) && s.ring.producer.PIdle?
    ensures Inv(ProducerStep(s, input))
  {
    hide Inv, C.Inv, D.Inv, RingInv, IndexInv, SlotInv, CounterInv, DoneInv, Grown, Base, Slot, Offset, StretchOf, FirstSlot;
    Parts(s);
    BlockStart(s.c.tail, Begun(s.ring), s.ring.bs);
    PhaseRing(s.ring, s.c.tail, ProducerStep(s, input).ring.producer, s.counters, s.own.done);
    GrownInv(s, ProducerStep(s, input));
  }

  /** A full counter means every element of the oldest stretch is finished. */
  lemma FullOldest(r: Ring, tail: nat, counters: map<Block, nat>, done: set<nat>)
    requires RingSide(r, tail) && CounterInv(r, counters, done) && DoneInv(r, done) && r.tailBlock.Some?
    ensures Begun(r) > 0 && 0 <= Oldest(r) < Begun(r) && r.tailBlock.value in r.next
    ensures r.next[r.tailBlock.value] == r.blockOf[Oldest(r)] && r.blockOf[Oldest(r)] in counters
    ensures counters[r.blockOf[Oldest(r)]] == r.bs ==> forall i: nat | i < Base(Oldest(r) + 1, r.bs) :: i in done
  {
    hide TailInv, IndexInv, SlotInv, Slot, Offset;
    var lo := Oldest(r);
    BaseNext(lo, r.bs);
    CountBound(done, Base(lo, r.bs), Base(lo, r.bs) + r.bs);
  }

  lemma IndexRoom(r: Ring, tail: nat)
    requires RingSide(r, tail)
    ensures r.slotsUsed <= r.indexSize && TailInv(r, tail) && RingInv(r)
  {
    hide HeaderOk, Base, Slot, Offset, StretchOf, FirstSlot, SlotInv;
  }

  lemma AllocInv(s: State, input: Input)
    requires Inv(s) && ProducerReady(s, input) && s.ring.producer.PAlloc?
    ensures Inv(ProducerStep(s, input))
  {
    hide Inv, RingSide, C.Inv, D.Inv, RingInv, IndexInv, SlotInv, CounterInv, DoneInv, Grown, Base, Slot, Offset, StretchOf, FirstSlot;
    Parts(s);
    IndexRoom(s.ring, s.c.tail);
    if s.ring.tailBlock.Some? {
      FullOldest(s.ring, s.c.tail, s.counters, s.own.done);
    }
    PhaseRing(s.ring, s.c.tail, ProducerStep(s, input).ring.producer, s.counters, s.own.done);
    GrownInv(s, ProducerStep(s, input));
  }

  // ----- starting a stretch -----

  /** The new stretch's block has no finished element yet. */
  lemma FreshCounter(r: Ring, r': Ring, tail: nat, counters: map<Block, nat>, done: set<nat>)
    requires CounterInv(r, counters, done) && tail == Base(Begun(r), r.bs) && (forall i <- done :: i < tail)
    requires r'.bs == r.bs && Begun(r') == Begun(r) + 1 && r'.blockOf == r.blockOf + [r'.blockOf[Begun(r)]]
    requires Oldest(r) <= Oldest(r')
    requires forall v: nat | Oldest(r') <= v < Begun(r) :: r'.blockOf[v] != r'.blockOf[Begun(r)]
    ensures CounterInv(r', counters[r'.blockOf[Begun(r)] := 0], done)
  {
    hide Base, Slot, Offset, StretchOf, FirstSlot;
    CountNone(done, tail, tail + r.bs);
  }

  lemma NewSlots(r: Ring, r': Ring, tail: nat)
    requires SlotInv(r) && |r.written| == tail == Base(Begun(r), r.bs) && r.bs > 0
    requires r'.bs == r.bs && r'.slots == r.slots && r'.written == r.written
    requires Begun(r') == Begun(r) + 1 && r'.blockOf[..Begun(r)] == r.blockOf && Oldest(r) <= Oldest(r')
    ensures SlotInv(r')
  {
    hide Base, Slot, Offset, StretchOf, FirstSlot;
    forall v, i: nat | Oldest(r') <= v < Begun(r') && 0 <= v && Base(v, r'.bs) <= i < Base(v, r'.bs) + r'.bs && i < |r'.written|
      ensures SlotHolds(r', v, i)
    {
      assert SlotHolds(r, v, i);
      assert r'.blockOf[v] == r'.blockOf[..Begun(r)][v];
    }
  }

  lemma NewIndex(r: Ring, r': Ring, tail: nat)
    requires IndexInv(r, tail) && r'.headers == r.headers && r'.offs == r.offs && r'.his == r.his && r'.bs == r.bs
    requires r'.blockIndex == r.blockIndex && r'.indexSize == r.indexSize && r'.indexFront == r.indexFront
    requires (r.producer.PReuse? || r.producer.PInsert?) && r'.producer.PEntryBase?
    requires Begun(r') == Begun(r) + 1 && r'.blockOf[..Begun(r)] == r.blockOf && Oldest(r) <= Oldest(r')
    requires r'.slotsUsed <= r'.indexSize
    ensures IndexInv(r', tail)
  {
    hide Base, Slot, Offset, StretchOf, FirstSlot;
    forall h | 0 <= h < |r'.headers| ensures HeaderOk(r', h) {
      assert HeaderOk(r, h);
      assert forall v: nat | v < Begun(r) :: r'.blockOf[v] == r'.blockOf[..Begun(r)][v];
    }
  }

  /** The oldest block, entirely finished, becomes the tail block. */
  lemma ReuseInv(s: State, input: Input)
    requires Inv(s) && ProducerReady(s, input) && s.ring.producer.PReuse?
    ensures Inv(ProducerStep(s, input))
  {
    hide Inv, C.Inv, D.Inv, HeaderOk, IndexInv, SlotInv, CounterInv, DoneInv, Grown, ConsumerSide, Base, Slot, Offset, StretchOf, FirstSlot;
    Parts(s);
    var s' := ProducerStep(s, input);
    var r, r' := s.ring, s'.ring;
    var tail := s.c.tail;
    DoneBelowTail(s);
    ReuseRing(r, r');
    BaseNext(Begun(r), r.bs);
    assert TailInv(r', tail);
    FreshCounter(r, r', tail, s.counters, s.own.done);
    NewSlots(r, r', tail);
    IndexRoom(r, tail);
    NewIndex(r, r', tail);
    assert DoneInv(r', s.own.done) by { ReuseDone(r, r', s.own.done); }
    assert Grown(r, r') by { SameHeadersGrown(r, r', tail); }
    hide RingInv, TailInv;
    GrownInv(s, s');
  }

  lemma DoneBelowTail(s: State)
    requires Inv(s)
    ensures forall i <- s.own.done :: i < s.c.tail
  {
    hide Inv, RingSide, CounterInv, DoneInv, C.Inv, ItemInv, D.Located, D.Ordered, Linked;
    Parts(s);
    C.HeadWithinTail(s.c);
  }

  lemma ReuseDone(r: Ring, r': Ring, done: set<nat>)
    requires DoneInv(r, done) && r.producer.PReuse? && !r'.producer.PReuse? && Oldest(r') == Oldest(r) + 1 && r'.bs == r.bs
    ensures DoneInv(r', done)
  {
    hide Base;
  }

  lemma SameHeadersGrown(r: Ring, r': Ring, tail: nat)
    requires IndexInv(r, tail) && r'.headers == r.headers && r'.offs == r.offs && r'.his == r.his && r'.bs == r.bs
    requires r.blockOf <= r'.blockOf && r.written <= r'.written
    ensures Grown(r, r')
  {
    hide Base, Slot, Offset, StretchOf, FirstSlot;
    forall h | 0 <= h < |r.headers| ensures r.his[h] <= Begun(r') {
      assert HeaderOk(r, h);
    }
  }

  lemma ReuseRing(r: Ring, r': Ring)
    requires RingInv(r) && Begun(r) > 0 && r.tailBlock.Some? && r.tailBlock.value in r.next
    requires var b := r.next[r.tailBlock.value];
             r'.tailBlock == Some(b) && r'.blockOf == r.blockOf + [b] && r'.next == r.next && r'.slotsUsed == r.slotsUsed
    ensures RingInv(r') && Oldest(r') == Oldest(r) + 1
    ensures forall v: nat | Oldest(r') <= v < Begun(r) :: r'.blockOf[v] != r'.blockOf[Begun(r)]
  {
    assert r'.blockOf[Begun(r)] == r.blockOf[Oldest(r)];
  }

  lemma InsertRing(r: Ring, r': Ring, b: Block)
    requires RingInv(r) && b !in r.next && (r.tailBlock.Some? ==> r.tailBlock.value in r.next)
    requires r'.next == (if r.tailBlock.None? then r.next[b := b] else r.next[b := r.next[r.tailBlock.value]][r.tailBlock.value := b])
    requires r'.tailBlock == Some(b) && r'.blockOf == r.blockOf + [b] && r'.slotsUsed == r.slotsUsed + 1
    ensures RingInv(r') && Oldest(r') == Oldest(r)
    ensures forall v: nat | Oldest(r') <= v < Begun(r) :: r'.blockOf[v] != r'.blockOf[Begun(r)]
  {
  }

  /** A requisitioned block that is not in the ring is linked behind the tail block. */
  lemma InsertInv(s: State, input: Input)
    requires Inv(s) && ProducerReady(s, input) && s.ring.producer.PInsert?
    ensures Inv(ProducerStep(s, input))
  {
    hide Inv, C.Inv, D.Inv, HeaderOk, IndexInv, SlotInv, CounterInv, DoneInv, Grown, ConsumerSide, Base, Slot, Offset, StretchOf, FirstSlot;
    Parts(s);
    var s' := ProducerStep(s, input);
    var r, r' := s.ring, s'.ring;
    var tail := s.c.tail;
    DoneBelowTail(s);
    InsertRing(r, r', input.block);
    BaseNext(Begun(r), r.bs);
    assert TailInv(r', tail);
    FreshCounter(r, r', tail, s.counters, s.own.done);
    NewSlots(r, r', tail);
    NewIndex(r, r', tail);
    assert DoneInv(r', s.own.done) by { SameDone(r, r', s.own.done); }
    assert Grown(r, r') by { SameHeadersGrown(r, r', tail); }
    hide RingInv, TailInv;
    GrownInv(s, s');
  }

  lemma SameDone(r: Ring, r': Ring, done: set<nat>)
    requires DoneInv(r, done) && !r'.producer.PReuse? && Oldest(r') == Oldest(r) && r'.bs == r.bs
    ensures DoneInv(r', done)
  {
    hide Base;
  }

  lemma SameCounters(r: Ring, r': Ring, counters: map<Block, nat>, done: set<nat>)
    requires CounterInv(r, counters, done) && r'.blockOf == r.blockOf && r'.slotsUsed == r.slotsUsed && r'.bs == r.bs
    ensures CounterInv(r', counters, done)
  {
    hide Base;
  }

  lemma SameSlots(r: Ring, r': Ring)
    requires SlotInv(r) && r'.blockOf == r.blockOf && r'.slotsUsed == r.slotsUsed && r'.bs == r.bs
    requires r'.slots == r.slots && r'.written == r.written
    ensures SlotInv(r')
  {
    hide Base;
    forall v, i: nat | Oldest(r') <= v < Begun(r') && 0 <= v && Base(v, r'.bs) <= i < Base(v, r'.bs) + r'.bs && i < |r'.written|
      ensures SlotHolds(r', v, i)
    {
      assert SlotHolds(r, v, i);
    }
  }

  // ----- the block index -----

  /** The grown index holds the live entries in order from the oldest. */
  lemma GrownHeader(r: Ring, tail: nat, junk: seq<Entry>)
    requires IndexInv(r, tail) && RingInv(r) && r.producer.PGrow? && r.slotsUsed == r.indexSize
    requires |junk| == 2 * r.indexSize - r.slotsUsed
    ensures |r.headers| == |r.offs| == |r.his| && r.blockIndex < |r.headers| && |r.headers[r.blockIndex].entries| > 0
    ensures var h := Header(2 * r.indexSize, r.slotsUsed - 1,
                            GrownEntries(r.headers[r.blockIndex].entries, r.indexFront, r.slotsUsed, junk));
            var r' := r.(headers := r.headers + [h], offs := r.offs + [r.slotsUsed - Begun(r)], his := r.his + [Begun(r)]);
            HeaderOk(r', |r.headers|)
    ensures r.slotsUsed == Slot(Begun(r), r.slotsUsed - Begun(r), 2 * r.indexSize)
  {
    var cur, size, n, lo := r.blockIndex, r.indexSize, Begun(r), Oldest(r);
    assert HeaderOk(r, cur);
    var off, off' := r.offs[cur], r.slotsUsed - n;
    var filled := r.headers[cur].entries;
    var grown := GrownEntries(filled, r.indexFront, r.slotsUsed, junk);
    SmallMod(r.slotsUsed, 2 * size);
    if r.slotsUsed > 0 { SmallMod(r.slotsUsed - 1, 2 * size); }
    forall v: nat | lo <= v < n ensures grown[Slot(v, off', 2 * size)] == Entry(Base(v, r.bs), r.blockOf[v]) {
      SmallMod(v - lo, 2 * size);
      assert Slot(v, off', 2 * size) == v - lo;
      assert grown[v - lo] == filled[(r.indexFront - r.slotsUsed + (v - lo)) % size];
      SlotMove(n, v, off, size);
      assert filled[Slot(v, off, size)] == Entry(Base(v, r.bs), r.blockOf[v]);
    }
  }

  lemma SmallMod(a: nat, size: nat)
    requires a < size
    ensures a % size == a
  {
  }

  lemma GrowIndex(r: Ring, r': Ring, tail: nat, junk: seq<Entry>)
    requires IndexInv(r, tail) && RingInv(r) && TailInv(r, tail) && r.producer.PGrow?
    requires |junk| == 2 * r.indexSize - r.slotsUsed && r.blockIndex < |r.headers| && |r.headers[r.blockIndex].entries| > 0
    requires r' == r.(producer := r'.producer, headers := r'.headers, blockIndex := |r.headers|, indexSize := 2 * r.indexSize,
                      indexFront := r.slotsUsed, offs := r.offs + [r.slotsUsed - Begun(r)], his := r.his + [Begun(r)])
    requires r'.producer.PInsert?
    requires r'.headers == r.headers + [Header(2 * r.indexSize, r.slotsUsed - 1,
                             GrownEntries(r.headers[r.blockIndex].entries, r.indexFront, r.slotsUsed, junk))]
    ensures IndexInv(r', tail)
  {
    GrownHeader(r, tail, junk);
    hide Base, Slot, Offset, StretchOf, FirstSlot, GrownEntries, RingInv;
    forall h | 0 <= h < |r'.headers| ensures HeaderOk(r', h) {
      if h < |r.headers| {
        assert HeaderOk(r, h);
      } else {
        hide HeaderOk;
        HeaderSame(r', r.(headers := r'.headers, offs := r'.offs, his := r'.his), h);
      }
    }
    assert HeaderOk(r', r'.blockIndex);
  }

  lemma HeaderSame(r: Ring, r2: Ring, h: nat)
    requires h < |r2.headers| == |r2.offs| == |r2.his| && HeaderOk(r2, h)
    requires r.headers == r2.headers && r.offs == r2.offs && r.his == r2.his && r.blockOf == r2.blockOf
    requires r.slotsUsed == r2.slotsUsed && r.bs == r2.bs
    ensures HeaderOk(r, h)
  {
    hide Base, Slot;
  }

  lemma AppendGrown(r: Ring, r': Ring, tail: nat)
    requires IndexInv(r, tail) && r'.bs == r.bs && r'.blockOf == r.blockOf && r'.written == r.written
    requires |r'.headers| == |r'.offs| == |r'.his| && r.headers <= r'.headers && r.offs <= r'.offs && r.his <= r'.his
    ensures Grown(r, r')
  {
    HisBound(r, tail);
    hide IndexInv;
  }

  lemma GrowInv(s: State, input: Input)
    requires Inv(s) && ProducerReady(s, input) && s.ring.producer.PGrow?
    ensures Inv(ProducerStep(s, input))
  {
    hide Inv, C.Inv, D.Inv, HeaderOk, IndexInv, SlotInv, RingInv, CounterInv, DoneInv, Grown, ConsumerSide, GrownEntries, Base, Slot, Offset, StretchOf, FirstSlot;
    Parts(s);
    var s' := ProducerStep(s, input);
    GrowIndex(s.ring, s'.ring, s.c.tail, input.junk);
    HisBound(s.ring, s.c.tail);
    AppendGrown(s.ring, s'.ring, s.c.tail);
    SameRingList(s.ring, s'.ring);
    SameDone(s.ring, s'.ring, s.own.done);
    SameCounters(s.ring, s'.ring, s.counters, s.own.done);
    SameSlots(s.ring, s'.ring);
    IndexPositive(s.ring, s.c.tail);
    GrownInv(s, s');
  }

  lemma IndexPositive(r: Ring, tail: nat)
    requires IndexInv(r, tail)
    ensures r.indexSize > 0
  {
    hide Base, Slot, Offset, StretchOf, FirstSlot;
  }

  lemma SameRingList(r: Ring, r': Ring)
    requires RingInv(r) && r'.blockOf == r.blockOf && r'.slotsUsed == r.slotsUsed && r'.tailBlock == r.tailBlock && r'.next == r.next
    ensures RingInv(r')
  {
  }

  /** Writing the entry of the newest stretch touches no entry of an older stretch in the ring. */
  lemma EntryIndex(r: Ring, r': Ring, tail: nat, e: Entry)
    requires IndexInv(r, tail) && RingInv(r) && TailInv(r, tail)
    requires (r.producer.PEntryBase? && r'.producer.PEntryBlock? && e.base == tail)
          || (r.producer.PEntryBlock? && r'.producer.PFront? && e.base == tail && e.block == r.blockOf[Begun(r) - 1])
    requires r.blockIndex < |r.headers| && r.indexFront < |r.headers[r.blockIndex].entries|
    requires r' == SetEntry(r, r'.producer, e)
    ensures IndexInv(r', tail) && Grown(r, r')
  {
    HisBound(r, tail);
    hide Base, Offset, StretchOf, FirstSlot;
    var cur, n, size := r.blockIndex, Begun(r), r.indexSize;
    forall h | 0 <= h < |r'.headers| ensures HeaderOk(r', h) {
      assert HeaderOk(r, h);
      if h == cur {
        forall v: nat | Oldest(r) <= v < n - 1 ensures Slot(v, r.offs[cur], size) != r.indexFront {
          SlotDistinct(v, n - 1, r.offs[cur], size);
        }
        hide Slot;
      }
    }
    hide Slot;
    assert HeaderOk(r', cur);
  }

  lemma EntryInv(s: State, input: Input)
    requires Inv(s) && ProducerReady(s, input) && (s.ring.producer.PEntryBase? || s.ring.producer.PEntryBlock?)
    ensures Inv(ProducerStep(s, input))
  {
    hide Inv, C.Inv, D.Inv, HeaderOk, IndexInv, SlotInv, CounterInv, DoneInv, Grown, ConsumerSide, Base, Slot, Offset, StretchOf, FirstSlot;
    Parts(s);
    var s' := ProducerStep(s, input);
    var r := s.ring;
    EntryBaseKept(r, s.c.tail);
    EntryIndex(r, s'.ring, s.c.tail, s'.ring.headers[r.blockIndex].entries[r.indexFront]);
    hide RingInv;
    SameRingList(r, s'.ring);
    SameDone(r, s'.ring, s.own.done);
    SameCounters(r, s'.ring, s.counters, s.own.done);
    SameSlots(r, s'.ring);
    GrownInv(s, s');
  }

  lemma EntryBaseKept(r: Ring, tail: nat)
    requires IndexInv(r, tail)
    ensures r.blockIndex < |r.headers| && r.indexFront < |r.headers[r.blockIndex].entries|
    ensures r.producer.PEntryBlock? ==> r.headers[r.blockIndex].entries[r.indexFront].base == tail
  {
    hide Base;
  }

  /** Storing the front slot exposes the newest entry. */
  lemma FrontIndex(r: Ring, r': Ring, tail: nat)
    requires IndexInv(r, tail) && TailInv(r, tail) && r.producer.PFront? && r.blockIndex < |r.headers| == |r.his| && r.indexSize > 0
    requires r' == r.(producer := PWrite(tail), headers := r.headers[r.blockIndex := r.headers[r.blockIndex].(front := r.indexFront)],
                      indexFront := (r.indexFront + 1) % r.indexSize, his := r.his[r.blockIndex := Begun(r)])
    ensures IndexInv(r', tail) && Grown(r, r') && TailInv(r', tail)
  {
    var cur, n := r.blockIndex, Begun(r);
    BaseNext(n - 1, r.bs);
    HisBound(r, tail);
    SlotMove(n - 1, n, r.offs[cur], r.indexSize);
    FrontHeaders(r, r', tail);
    hide Base, Slot, Offset, StretchOf, FirstSlot;
    assert HeaderOk(r, cur);
    hide HeaderOk;
  }

  lemma FrontHeaders(r: Ring, r': Ring, tail: nat)
    requires IndexInv(r, tail) && TailInv(r, tail) && r.producer.PFront? && r.blockIndex < |r.headers| == |r.his|
    requires r' == r.(producer := PWrite(tail), headers := r.headers[r.blockIndex := r.headers[r.blockIndex].(front := r.indexFront)],
                      indexFront := r'.indexFront, his := r.his[r.blockIndex := Begun(r)])
    ensures |r'.headers| == |r'.offs| == |r'.his|
    ensures forall h | 0 <= h < |r'.headers| :: HeaderOk(r', h)
  {
    hide Base, Slot, Offset, StretchOf, FirstSlot;
    forall h | 0 <= h < |r'.headers| ensures HeaderOk(r', h) {
      assert HeaderOk(r, h);
    }
  }

  lemma FrontInv(s: State, input: Input)
    requires Inv(s) && ProducerReady(s, input) && s.ring.producer.PFront?
    ensures Inv(ProducerStep(s, input))
  {
    hide Inv, C.Inv, D.Inv, HeaderOk, IndexInv, SlotInv, RingInv, CounterInv, DoneInv, Grown, ConsumerSide, Base, Slot, Offset, StretchOf, FirstSlot;
    Parts(s);
    var s' := ProducerStep(s, input);
    FrontIndex(s.ring, s'.ring, s.c.tail);
    SameRingList(s.ring, s'.ring);
    SameDone(s.ring, s'.ring, s.own.done);
    SameCounters(s.ring, s'.ring, s.counters, s.own.done);
    SameSlots(s.ring, s'.ring);
    GrownInv(s, s');
  }

  // ----- writing and publishing -----

  /** The written slot belongs to no other element that is still in the ring. */
  lemma WriteSlots(r: Ring, r': Ring, tail: nat, item: Item)
    requires SlotInv(r) && RingInv(r) && TailInv(r, tail) && r.producer.PWrite? && r.tailBlock.Some?
    requires r' == r.(producer := PPublish(tail), slots := r.slots[(r.tailBlock.value, Offset(tail, r.bs)) := item], written := r.written + [item])
    ensures SlotInv(r')
  {
    var n := Begun(r);
    BaseNext(n - 1, r.bs);
    BaseUnique(tail, n - 1, r.bs);
    hide Base, Slot, Offset, StretchOf, FirstSlot;
    forall v, i: nat | Oldest(r') <= v < Begun(r') && 0 <= v && Base(v, r'.bs) <= i < Base(v, r'.bs) + r'.bs && i < |r'.written|
      ensures SlotHolds(r', v, i)
    {
      if i < tail {
        assert SlotHolds(r, v, i);
      } else {
        BaseBetween(tail, v, n - 1, n, r.bs);
      }
    }
  }

  lemma WriteInv(s: State, input: Input)
    requires Inv(s) && ProducerReady(s, input) && s.ring.producer.PWrite?
    ensures Inv(ProducerStep(s, input))
  {
    hide Inv, C.Inv, D.Inv, HeaderOk, IndexInv, SlotInv, RingInv, CounterInv, DoneInv, Grown, ConsumerSide, Base, Slot, Offset, StretchOf, FirstSlot;
    Parts(s);
    var s' := ProducerStep(s, input);
    WriteSlots(s.ring, s'.ring, s.c.tail, input.item);
    SameIndex(s.ring, s'.ring, s.c.tail, s.c.tail);
    SameRingList(s.ring, s'.ring);
    SameDone(s.ring, s'.ring, s.own.done);
    SameCounters(s.ring, s'.ring, s.counters, s.own.done);
    SameHeadersGrown(s.ring, s'.ring, s.c.tail);
    GrownInv(s, s');
  }

  lemma SameIndex(r: Ring, r': Ring, tail: nat, tail': nat)
    requires IndexInv(r, tail) && TailInv(r, tail)
    requires r' == r.(producer := r'.producer, slots := r'.slots, written := r'.written)
    requires (r.producer.PWrite? && r'.producer.PPublish? && tail' == tail) || (r.producer.PPublish? && r'.producer.PIdle? && tail' == tail + 1)
    ensures IndexInv(r', tail')
  {
    hide Base, Slot, Offset, StretchOf, FirstSlot;
    forall h | 0 <= h < |r'.headers| ensures HeaderOk(r', h) {
      assert HeaderOk(r, h);
    }
    assert HeaderOk(r', r.blockIndex);
  }

  lemma PublishInv(s: State, input: Input)
    requires Inv(s) && ProducerReady(s, input) && s.ring.producer.PPublish?
    ensures Inv(ProducerStep(s, input))
  {
    hide Inv, C.Inv, D.Inv, HeaderOk, IndexInv, SlotInv, RingInv, CounterInv, DoneInv, Grown, ConsumerSide, Base, Slot, Offset, StretchOf, FirstSlot;
    Parts(s);
    var s' := ProducerStep(s, input);
    C.PublishInv(s.c);
    assert s'.c == C.Publish(s.c);
    SameIndex(s.ring, s'.ring, s.c.tail, s.c.tail + 1);
    SameRingList(s.ring, s'.ring);
    SameSlots(s.ring, s'.ring);
    SameDone(s.ring, s'.ring, s.own.done);
    SameCounters(s.ring, s'.ring, s.counters, s.own.done);
    SameHeadersGrown(s.ring, s'.ring, s.c.tail);
    GrownInv(s, s');
  }

  lemma ProducerStepInv(s: State, input: Input)
    requires Inv(s) && ProducerReady(s, input)
    ensures Inv(ProducerStep(s, input))
  {
    hide Inv, ProducerStep, ProducerReady;
    match s.ring.producer
    case PIdle => IdleInv(s, input);
    case PAlloc(_) => AllocInv(s, input);
    case PReuse(_) => ReuseInv(s, input);
    case PGrow(_) => GrowInv(s, input);
    case PInsert(_) => InsertInv(s, input);
    case PEntryBase(_) => EntryInv(s, input);
    case PEntryBlock(_) => EntryInv(s, input);
    case PFront(_) => FrontInv(s, input);
    case PWrite(_) => WriteInv(s, input);
    case PPublish(_) => PublishInv(s, input);
  }
}
