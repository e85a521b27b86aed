/**
 Safety of the block ring: the invariant that every step of the producer and of the consumers keeps.
 */
module BlockRingSafety {
  import opened BlockRing
  import opened BlockArith
  import C = QueueClaims
  import D = QueueDelivery
  import opened Options

  // ----- the producer's side -----

  /** Stretches begun; the ring of blocks holds the last slotsUsed of them, from Oldest on. */
  function Begun(r: Ring): nat { |r.blockOf| }

  function Oldest(r: Ring): int { Begun(r) - r.slotsUsed }

  /** Stretches that have an index entry. */
  function Entered(r: Ring): int {
    if r.producer.PEntryBase? || r.producer.PEntryBlock? || r.producer.PFront? then Begun(r) - 1 else Begun(r)
  }

  ghost predicate TailInv(r: Ring, tail: nat) {
    var n := Begun(r);
    && r.bs > 0
    && |r.written| == tail + (if r.producer.PPublish? then 1 else 0)
    && tail <= Base(n, r.bs)
    && match r.producer
       case PIdle => n > 0 ==> Base(n - 1, r.bs) < tail
       case PAlloc(t) => t == tail == Base(n, r.bs)
       case PReuse(t) => t == tail == Base(n, r.bs) && n > 0
       case PGrow(t) => t == tail == Base(n, r.bs) && r.slotsUsed == r.indexSize
       case PInsert(t) => t == tail == Base(n, r.bs) && r.slotsUsed < r.indexSize
       case PEntryBase(t) => n > 0 && t == tail == Base(n - 1, r.bs)
       case PEntryBlock(t) => n > 0 && t == tail == Base(n - 1, r.bs)
       case PFront(t) => n > 0 && t == tail == Base(n - 1, r.bs)
       case PWrite(t) => n > 0 && Base(n - 1, r.bs) <= t == tail < Base(n, r.bs)
       case PPublish(t) => n > 0 && Base(n - 1, r.bs) <= t == tail < Base(n, r.bs)
  }

  /** The circular list of blocks, from the oldest stretch to the tail block and back. */
  ghost predicate RingInv(r: Ring) {
    var n, lo := Begun(r), Oldest(r);
    && 0 <= lo && (n > 0 <==> r.slotsUsed > 0)
    && r.tailBlock == (if n > 0 then Some(r.blockOf[n - 1]) else None)
    && (forall v | lo <= v < n :: r.blockOf[v] in r.next)
    && (forall v | lo <= v < n - 1 :: r.next[r.blockOf[v]] == r.blockOf[v + 1])
    && (n > 0 ==> r.next[r.blockOf[n - 1]] == r.blockOf[lo])
    && (forall v, w | lo <= v < w < n :: r.blockOf[v] != r.blockOf[w])
  }

  ghost predicate HeaderOk(r: Ring, h: nat)
    requires h < |r.headers| == |r.offs| == |r.his|
  {
    var header := r.headers[h];
    && header.size > 0 && |header.entries| == header.size && r.his[h] <= Begun(r)
    && (r.his[h] > 0 ==> header.front == Slot(r.his[h] - 1, r.offs[h], header.size))
    && forall v: nat | Oldest(r) <= v < r.his[h] ::
         header.entries[Slot(v, r.offs[h], header.size)] == Entry(Base(v, r.bs), r.blockOf[v])
  }

  ghost predicate IndexInv(r: Ring, tail: nat) {
    && |r.headers| == |r.offs| == |r.his| && r.blockIndex == |r.headers| - 1
    && (forall h | 0 <= h < |r.headers| :: HeaderOk(r, h))
    && var cur := r.blockIndex;
       && HeaderOk(r, cur) && r.indexSize == r.headers[cur].size && r.slotsUsed <= r.indexSize
       && r.his[cur] == Entered(r)
       && r.indexFront == Slot(Entered(r), r.offs[cur], r.indexSize)
       && tail <= Base(r.his[cur], r.bs)
       && (r.producer.PEntryBlock? || r.producer.PFront? ==> r.headers[cur].entries[r.indexFront].base == tail)
       && (r.producer.PFront? ==> Begun(r) > 0 && r.headers[cur].entries[r.indexFront].block == r.blockOf[Begun(r) - 1])
  }

  /** Every written element of a stretch in the ring sits in its slot. */
  ghost predicate SlotInv(r: Ring) {
    forall v, i: nat | Oldest(r) <= v < Begun(r) && 0 <= v && Base(v, r.bs) <= i < Base(v, r.bs) + r.bs && i < |r.written| ::
      SlotHolds(r, v, i)
  }

  ghost predicate SlotHolds(r: Ring, v: nat, i: nat)
    requires v < Begun(r) && i < |r.written|
  {
    var key := (r.blockOf[v], i - Base(v, r.bs));
    key.1 >= 0 && key in r.slots && r.slots[key] == r.written[i]
  }

  ghost predicate RingSide(r: Ring, tail: nat) {
    TailInv(r, tail) && RingInv(r) && IndexInv(r, tail) && SlotInv(r)
  }

  /** A block's counter is the number of finished elements of the stretch it holds. */
  ghost predicate CounterInv(r: Ring, counters: map<Block, nat>, done: set<nat>) {
    && r.bs > 0
    && forall v: nat | Oldest(r) <= v < Begun(r) ::
         && r.blockOf[v] in counters
         && Base(v, r.bs) >= 0 && counters[r.blockOf[v]] == CountDone(done, Base(v, r.bs), Base(v, r.bs) + r.bs)
  }

  /** Everything before the oldest stretch is finished, and so is that stretch when it is about to be reused. */
  ghost predicate DoneInv(r: Ring, done: set<nat>) {
    && (forall i: nat | i < Base(Oldest(r), r.bs) :: i in done)
    && (r.producer.PReuse? ==> forall i: nat | i < Base(Oldest(r) + 1, r.bs) :: i in done)
  }

  // ----- the consumers' side -----

  /** Header h has entered every stretch of the elements before end. */
  ghost predicate Covers(r: Ring, h: nat, end: nat) {
    && h < |r.headers| && |r.headers| == |r.offs| == |r.his|
    && r.headers[h].size > 0 && r.his[h] <= Begun(r) && end <= Base(r.his[h], r.bs)
  }

  ghost predicate WorkOk(r: Ring, phase: C.Phase, w: Work, job: D.Job) {
    if !phase.Granted? then w == NoWork
    else
      && job.end == phase.first + phase.count
      && match w
         case NoWork => job.from == job.pos == phase.first
         case GotHeader(h) => job.from == job.pos == phase.first && Covers(r, h, job.end)
         case GotFront(h, f, fv) =>
           && job.from == job.pos == phase.first && Covers(r, h, job.end)
           && fv < r.his[h] && job.end <= Base(fv + 1, r.bs) && f == Slot(fv, r.offs[h], r.headers[h].size)
         case AtBlock(h, slot, index, v) =>
           && job.from == job.pos == index && Covers(r, h, job.end)
           && v < r.his[h] && Base(v, r.bs) <= index < Base(v, r.bs) + r.bs
           && slot == Slot(v, r.offs[h], r.headers[h].size)
         case Reading(h, slot, b, start, pos, stop, v) =>
           && job.from == start && job.pos == pos && Covers(r, h, job.end)
           && v < r.his[h] && Base(v, r.bs) <= start < stop <= Base(v, r.bs) + r.bs
           && slot == Slot(v, r.offs[h], r.headers[h].size) && b == r.blockOf[v]
           && pos <= stop <= job.end && (stop == job.end || stop == Base(v, r.bs) + r.bs)
  }

  ghost predicate Linked(s: State, t: C.Tid) {
    && t in s.c.consumers && t in s.work && (t in s.own.jobs <==> s.c.consumers[t].Granted?)
    && WorkOk(s.ring, s.c.consumers[t], s.work[t], if t in s.own.jobs then s.own.jobs[t] else D.Job(0, 0, 0))
  }

  ghost predicate ConsumerSide(s: State) {
    && s.own.head == s.c.head && s.work.Keys == s.c.consumers.Keys && s.own.jobs.Keys <= s.work.Keys
    && forall t <- s.work :: Linked(s, t)
  }

  /** What was handed over is what was written. */
  ghost predicate ItemInv(written: seq<Item>, delivered: seq<D.Delivery>) {
    forall k | 0 <= k < |delivered| :: delivered[k].index < |written| && delivered[k].item == written[delivered[k].index]
  }

  ghost predicate Inv(s: State) {
    && C.Inv(s.c) && D.Inv(s.own)
    && RingSide(s.ring, s.c.tail) && CounterInv(s.ring, s.counters, s.own.done) && DoneInv(s.ring, s.own.done)
    && ConsumerSide(s) && ItemInv(s.ring.written, s.own.delivered)
  }

  lemma InitInv(s: State)
    requires Init(s)
    ensures Inv(s)
  {
    C.InitInv(s.c);
  }

  // ----- facts about a working consumer -----

  lemma Parts(s: State)
    requires Inv(s)
    ensures C.Inv(s.c) && D.Inv(s.own) && RingSide(s.ring, s.c.tail)
    ensures CounterInv(s.ring, s.counters, s.own.done) && DoneInv(s.ring, s.own.done)
    ensures ConsumerSide(s) && ItemInv(s.ring.written, s.own.delivered)
  {
    hide RingSide, CounterInv, DoneInv, C.Inv, D.Inv, ItemInv, ConsumerSide;
  }

  /** The uncounted elements of a job are published. */
  lemma JobPublished(s: State, t: C.Tid)
    requires Inv(s) && t in s.own.jobs
    ensures s.own.jobs[t].from < s.own.jobs[t].end <= s.c.head <= s.c.tail
    ensures s.own.jobs[t].from <= s.own.jobs[t].pos
    ensures forall i | s.own.jobs[t].from <= i < s.own.jobs[t].end :: i !in s.own.done
  {
    hide Inv, RingSide, CounterInv, DoneInv, C.Inv, ItemInv, D.Located, D.Ordered, Linked;
    Parts(s);
    C.HeadWithinTail(s.c);
  }

  /** They lie in stretches that are still in the ring. */
  lemma JobInRing(s: State, t: C.Tid, v: nat)
    requires Inv(s) && t in s.own.jobs
    requires Base(v, s.ring.bs) <= s.own.jobs[t].from < Base(v, s.ring.bs) + s.ring.bs
    ensures Oldest(s.ring) <= v < Begun(s.ring)
  {
    hide Inv, CounterInv, C.Inv, D.Inv, ItemInv, ConsumerSide, RingInv, IndexInv, SlotInv, Base, Slot, Offset, StretchOf, FirstSlot;
    Parts(s);
    JobPublished(s, t);
    assert s.own.jobs[t].from !in s.own.done;
    BaseBetween(s.own.jobs[t].from, v, Oldest(s.ring), Begun(s.ring), s.ring.bs);
  }

  lemma LinkFact(s: State, t: C.Tid)
    requires Inv(s) && t in s.work
    ensures Linked(s, t) && s.own.head == s.c.head
  {
    hide Inv, RingSide, CounterInv, DoneInv, C.Inv, D.Inv, ItemInv, Linked;
    Parts(s);
  }

  lemma HeaderFact(r: Ring, tail: nat, h: nat)
    requires RingSide(r, tail) && h < |r.headers|
    ensures |r.headers| == |r.offs| == |r.his| && HeaderOk(r, h)
  {
    hide TailInv, RingInv, SlotInv, HeaderOk, Base, Slot, Offset, StretchOf, FirstSlot;
  }

  lemma CurrentHeader(r: Ring, tail: nat)
    requires RingSide(r, tail)
    ensures |r.headers| == |r.offs| == |r.his| && r.blockIndex < |r.headers| && HeaderOk(r, r.blockIndex)
    ensures tail <= Base(r.his[r.blockIndex], r.bs) && r.bs > 0 && tail <= |r.written|
  {
    hide RingInv, SlotInv, HeaderOk, Base, Slot, Offset, StretchOf, FirstSlot;
  }

  // ----- consumer steps -----

  /** A consumer step that leaves ring, counters, claims and finished elements alone keeps the invariant. */
  lemma WorkStepInv(s: State, s': State, t: C.Tid)
    requires Inv(s) && t in s.work && t in s'.work && s' == s.(work := s.work[t := s'.work[t]], own := s'.own)
    requires D.Inv(s'.own) && s'.own.done == s.own.done && s'.own.head == s.own.head
    requires t in s.own.jobs && t in s'.own.jobs && s'.own.jobs == s.own.jobs[t := s'.own.jobs[t]]
    requires ItemInv(s.ring.written, s'.own.delivered) && Linked(s', t)
    ensures Inv(s')
  {
    hide RingSide, CounterInv, DoneInv, C.Inv, D.Inv, ItemInv, WorkOk;
    forall u | u in s'.work ensures Linked(s', u) {
      assert Linked(s, u);
    }
  }

  /** A step before the range is granted only moves the claim counters; taking the range opens a job. */
  lemma ClaimPhaseInv(s: State, t: C.Tid)
    requires Inv(s) && ConsumerReady(s, t) && !s.c.consumers[t].Granted?
    ensures Inv(ConsumerStep(s, t))
  {
    hide Inv, RingSide, CounterInv, DoneInv, C.Inv, D.Inv, ItemInv, ConsumerSide, HeaderOk, C.ConsumerStep, D.Hand, D.Count, D.Grant, Base, Slot, Offset, StretchOf, FirstSlot;
    Parts(s);
    LinkFact(s, t);
    C.ConsumerStepInv(s.c, t);
    C.StepFrame(s.c, t);
    if s.c.consumers[t].Taking? {
      D.GrantInv(s.own, t, s.c.consumers[t].actual);
      GrantFrame(s.own, t, s.c.consumers[t].actual);
    }
    ClaimPhaseLinks(s, ConsumerStep(s, t), t);
  }

  lemma GrantFrame(o: D.State, t: C.Tid, n: nat)
    ensures var o' := D.Grant(o, t, n);
            && o'.head == o.head + n && o'.done == o.done && o'.delivered == o.delivered
            && o'.jobs == o.jobs[t := D.Job(o.head, o.head, o.head + n)]
  {
  }

  lemma ClaimPhaseLinks(s: State, s': State, t: C.Tid)
    requires Inv(s) && Linked(s, t) && !s.c.consumers[t].Granted? && t in s'.c.consumers
    requires s' == s.(c := s'.c, own := s'.own) && s'.c.tail == s.c.tail
    requires s'.c.consumers == s.c.consumers[t := s'.c.consumers[t]]
    requires C.Inv(s'.c) && D.Inv(s'.own) && s'.own.done == s.own.done && s'.own.delivered == s.own.delivered
    requires s'.own.head - s.own.head == s'.c.head - s.c.head
    requires if s'.c.consumers[t].Granted?
             then var p := s'.c.consumers[t]; s'.own.jobs == s.own.jobs[t := D.Job(p.first, p.first, p.first + p.count)]
             else s'.own == s.own
    ensures Inv(s')
  {
    hide RingSide, CounterInv, DoneInv, C.Inv, D.Inv, ItemInv, Covers, Base, Slot, Offset, StretchOf, FirstSlot;
    forall u | u in s'.work ensures Linked(s', u) {
      assert Linked(s, u);
    }
  }

  lemma LoadHeaderInv(s: State, t: C.Tid)
    requires Inv(s) && ConsumerReady(s, t) && s.c.consumers[t].Granted? && s.work[t].NoWork?
    ensures Inv(ConsumerStep(s, t))
  {
    hide Inv, RingSide, CounterInv, DoneInv, C.Inv, D.Inv, ItemInv, ConsumerSide, HeaderOk, C.ConsumerStep, D.Hand, D.Count, D.Grant, Base, Slot, Offset, StretchOf, FirstSlot;
    Parts(s);
    LinkFact(s, t);
    JobPublished(s, t);
    CurrentHeader(s.ring, s.c.tail);
    HeaderBound(s.ring, s.ring.blockIndex);
    WorkStepInv(s, ConsumerStep(s, t), t);
  }

  lemma HeaderBound(r: Ring, h: nat)
    requires h < |r.headers| == |r.offs| == |r.his| && HeaderOk(r, h)
    ensures r.headers[h].size > 0 && |r.headers[h].entries| == r.headers[h].size && r.his[h] <= Begun(r)
    ensures r.his[h] > 0 ==> r.headers[h].front == Slot(r.his[h] - 1, r.offs[h], r.headers[h].size)
  {
  }

  lemma LoadFrontInv(s: State, t: C.Tid)
    requires Inv(s) && ConsumerReady(s, t) && s.c.consumers[t].Granted? && s.work[t].GotHeader?
    ensures Inv(ConsumerStep(s, t))
  {
    hide Inv, RingSide, CounterInv, DoneInv, C.Inv, D.Inv, ItemInv, ConsumerSide, HeaderOk, C.ConsumerStep, D.Hand, D.Count, D.Grant, Base, Slot, Offset, StretchOf, FirstSlot;
    Parts(s);
    LinkFact(s, t);
    HeaderFact(s.ring, s.c.tail, s.work[t].header);
    HeaderBound(s.ring, s.work[t].header);
    WorkStepInv(s, ConsumerStep(s, t), t);
  }

  /** The index arithmetic lands on the slot of the range's first block. */
  lemma LocateInv(s: State, t: C.Tid)
    requires Inv(s) && ConsumerReady(s, t) && s.c.consumers[t].Granted? && s.work[t].GotFront?
    ensures Inv(ConsumerStep(s, t))
  {
    hide Inv, RingSide, CounterInv, DoneInv, C.Inv, D.Inv, ItemInv, ConsumerSide, HeaderOk, C.ConsumerStep, D.Hand, D.Count, D.Grant, Base, Slot, Offset, StretchOf, FirstSlot;
    Parts(s);
    LinkFact(s, t);
    var GotFront(h, f, fv) := s.work[t];
    var r, first := s.ring, s.c.consumers[t].first;
    JobPublished(s, t);
    BaseSplit(first, r.bs);
    JobInRing(s, t, StretchOf(first, r.bs));
    HeaderFact(r, s.c.tail, h);
    FrontSlot(r, h, f, fv, first);
    WorkStepInv(s, ConsumerStep(s, t), t);
  }

  /** From the loaded front slot, the signed distance in blocks leads to the slot of the stretch of first. */
  lemma FrontSlot(r: Ring, h: nat, f: int, fv: nat, first: nat)
    requires r.bs > 0 && h < |r.headers| == |r.offs| == |r.his| && HeaderOk(r, h)
    requires fv < r.his[h] && first < Base(fv + 1, r.bs) && Oldest(r) <= StretchOf(first, r.bs)
    requires f == Slot(fv, r.offs[h], r.headers[h].size)
    ensures StretchOf(first, r.bs) <= fv
    ensures FirstSlot(r.headers[h], f, first, r.bs) == Slot(StretchOf(first, r.bs), r.offs[h], r.headers[h].size)
  {
    hide Slot, Offset, StretchOf;
    var v := StretchOf(first, r.bs);
    BaseSplit(first, r.bs);
    if v > fv { BaseMono(fv + 1, v, r.bs); }
    assert r.headers[h].entries[f].base == Base(fv, r.bs);
    assert Base(v, r.bs) - Base(fv, r.bs) == (v - fv) * r.bs;
    ExactQuotient(v - fv, r.bs);
    SlotMove(fv, v, r.offs[h], r.headers[h].size);
  }

  lemma LoadBlockInv(s: State, t: C.Tid)
    requires Inv(s) && ConsumerReady(s, t) && s.c.consumers[t].Granted? && s.work[t].AtBlock?
    ensures Inv(ConsumerStep(s, t))
  {
    hide Inv, RingSide, CounterInv, DoneInv, C.Inv, D.Inv, ItemInv, ConsumerSide, HeaderOk, C.ConsumerStep, D.Hand, D.Count, D.Grant, Base, Slot, Offset, StretchOf, FirstSlot;
    Parts(s);
    LinkFact(s, t);
    var AtBlock(h, slot, index, v) := s.work[t];
    JobPublished(s, t);
    BaseUnique(index, v, s.ring.bs);
    JobInRing(s, t, v);
    HeaderFact(s.ring, s.c.tail, h);
    EntryFact(s.ring, h, v);
    WorkStepInv(s, ConsumerStep(s, t), t);
  }

  lemma EntryFact(r: Ring, h: nat, v: nat)
    requires h < |r.headers| == |r.offs| == |r.his| && HeaderOk(r, h) && Oldest(r) <= v < r.his[h]
    ensures r.headers[h].size > 0 && |r.headers[h].entries| == r.headers[h].size && v < Begun(r)
    ensures r.headers[h].entries[Slot(v, r.offs[h], r.headers[h].size)] == Entry(Base(v, r.bs), r.blockOf[v])
  {
  }

  /** The slot a consumer is about to read holds the item written for that index. */
  lemma HandedItem(s: State, t: C.Tid)
    requires Inv(s) && t in s.work && t in s.c.consumers && s.c.consumers[t].Granted?
    requires s.work[t].Reading? && s.work[t].pos < s.work[t].stop
    ensures s.ring.bs > 0
    ensures var w := s.work[t];
            && w.pos < s.c.head <= s.c.tail <= |s.ring.written| && (w.block, Offset(w.pos, s.ring.bs)) in s.ring.slots
            && s.ring.slots[(w.block, Offset(w.pos, s.ring.bs))] == s.ring.written[w.pos]
  {
    hide Inv, RingSide, CounterInv, DoneInv, C.Inv, D.Inv, ItemInv, ConsumerSide, HeaderOk, C.ConsumerStep, D.Hand, D.Count, D.Grant, Base, Slot, Offset, StretchOf, FirstSlot;
    Parts(s);
    LinkFact(s, t);
    var Reading(h, slot, b, start, pos, stop, v) := s.work[t];
    JobPublished(s, t);
    JobInRing(s, t, v);
    CurrentHeader(s.ring, s.c.tail);
    BaseUnique(pos, v, s.ring.bs);
    SlotFact(s.ring, s.c.tail, v, pos);
  }

  lemma SlotFact(r: Ring, tail: nat, v: nat, i: nat)
    requires RingSide(r, tail) && Oldest(r) <= v < Begun(r) && Base(v, r.bs) <= i < Base(v, r.bs) + r.bs && i < |r.written|
    ensures SlotHolds(r, v, i)
  {
    hide TailInv, RingInv, IndexInv, Base, Slot, Offset, StretchOf, FirstSlot;
  }

  /** Handing over one element. */
  lemma HandInv(s: State, t: C.Tid)
    requires Inv(s) && ConsumerReady(s, t) && s.c.consumers[t].Granted? && s.work[t].Reading? && s.work[t].pos < s.work[t].stop
    ensures Inv(ConsumerStep(s, t))
  {
    hide Inv, RingSide, CounterInv, DoneInv, C.Inv, D.Inv, ItemInv, ConsumerSide, HeaderOk, C.ConsumerStep, D.Hand, D.Count, D.Grant, Base, Slot, Offset, StretchOf, FirstSlot;
    Parts(s);
    LinkFact(s, t);
    HandedItem(s, t);
    var pos := s.work[t].pos;
    var item := s.ring.written[pos];
    D.HandInv(s.own, t, item);
    HandFrame(s.own, t, item, s.ring.written);
    WorkStepInv(s, ConsumerStep(s, t), t);
  }

  lemma HandFrame(o: D.State, t: C.Tid, item: Item, written: seq<Item>)
    requires t in o.jobs && ItemInv(written, o.delivered) && o.jobs[t].pos < |written| && item == written[o.jobs[t].pos]
    ensures var o' := D.Hand(o, t, item);
            && o'.head == o.head && o'.done == o.done && ItemInv(written, o'.delivered)
            && o'.jobs == o.jobs[t := o.jobs[t].(pos := o.jobs[t].pos + 1)]
  {
  }

  lemma CountFrame(o: D.State, t: C.Tid)
    requires t in o.jobs
    ensures var j, o' := o.jobs[t], D.Count(o, t);
            && o'.head == o.head && o'.delivered == o.delivered && o'.done == o.done + D.Range(j.from, j.pos)
            && o'.jobs == if j.pos == j.end then o.jobs - {t} else o.jobs[t := D.Job(j.pos, j.pos, j.end)]
  {
  }

  /** Counting a finished chunk. */
  lemma ChunkInv(s: State, t: C.Tid)
    requires Inv(s) && ConsumerReady(s, t) && s.c.consumers[t].Granted? && s.work[t].Reading? && s.work[t].pos >= s.work[t].stop
    ensures Inv(ConsumerStep(s, t))
  {
    hide Inv, RingSide, CounterInv, DoneInv, C.Inv, D.Inv, ItemInv, ConsumerSide, HeaderOk, C.ConsumerStep, D.Hand, D.Count, D.Grant, Base, Slot, Offset, StretchOf, FirstSlot;
    Parts(s);
    LinkFact(s, t);
    var Reading(h, slot, b, start, pos, stop, v) := s.work[t];
    JobPublished(s, t);
    JobInRing(s, t, v);
    C.ConsumerStepInv(s.c, t);
    C.StepFrame(s.c, t);
    D.CountInv(s.own, t);
    CountFrame(s.own, t);
    ChunkCounters(s.ring, s.c.tail, s.counters, s.own.done, v, start, stop);
    DoneGrows(s.ring, s.own.done, s.own.done + D.Range(start, stop));
    if stop < s.own.jobs[t].end {
      NextChunk(s.ring, h, v, stop, s.own.jobs[t].end);
    }
    ChunkLinks(s, ConsumerStep(s, t), t);
  }

  lemma DoneGrows(r: Ring, done: set<nat>, done': set<nat>)
    requires DoneInv(r, done) && done <= done'
    ensures DoneInv(r, done')
  {
    hide Base;
  }

  lemma ChunkLinks(s: State, s': State, t: C.Tid)
    requires Inv(s) && Linked(s, t) && t in s'.work && t in s'.c.consumers && s'.ring == s.ring
    requires C.Inv(s'.c) && D.Inv(s'.own) && CounterInv(s'.ring, s'.counters, s'.own.done) && DoneInv(s'.ring, s'.own.done)
    requires s'.own.head == s.own.head && s'.c.head == s.c.head && s'.c.tail == s.c.tail && s'.own.delivered == s.own.delivered
    requires s'.work == s.work[t := s'.work[t]] && s'.c.consumers == s.c.consumers[t := s'.c.consumers[t]]
    requires Linked(s', t) && t in s.own.jobs
    requires s'.own.jobs == if t in s'.own.jobs then s.own.jobs[t := s'.own.jobs[t]] else s.own.jobs - {t}
    ensures Inv(s')
  {
    hide RingSide, CounterInv, DoneInv, C.Inv, D.Inv, ItemInv, WorkOk;
    forall u | u in s'.work ensures Linked(s', u) {
      assert Linked(s, u);
    }
  }

  /** The chunk after the end of stretch v starts stretch v + 1, in the next slot of the same header. */
  lemma NextChunk(r: Ring, h: nat, v: nat, stop: nat, end: nat)
    requires r.bs > 0 && Covers(r, h, end) && stop == Base(v, r.bs) + r.bs && stop < end
    ensures v + 1 < r.his[h] && stop == Base(v + 1, r.bs)
    ensures (Slot(v, r.offs[h], r.headers[h].size) + 1) % r.headers[h].size == Slot(v + 1, r.offs[h], r.headers[h].size)
  {
    BaseNext(v, r.bs);
    hide Base, Slot;
    if r.his[h] <= v + 1 { BaseMono(r.his[h], v + 1, r.bs); }
    SlotMove(v, v + 1, r.offs[h], r.headers[h].size);
  }

  lemma ChunkCounters(r: Ring, tail: nat, counters: map<Block, nat>, done: set<nat>, v: nat, a: nat, b: nat)
    requires RingSide(r, tail) && CounterInv(r, counters, done) && Oldest(r) <= v < Begun(r)
    requires Base(v, r.bs) <= a < b <= Base(v, r.bs) + r.bs
    requires forall i | a <= i < b :: i !in done
    ensures r.blockOf[v] in counters
    ensures CounterInv(r, counters[r.blockOf[v] := counters[r.blockOf[v]] + (b - a)], done + D.Range(a, b))
  {
    hide Slot, Base, TailInv, IndexInv, SlotInv;
    var done' := done + D.Range(a, b);
    var counters' := counters[r.blockOf[v] := counters[r.blockOf[v]] + (b - a)];
    forall u: nat | Oldest(r) <= u < Begun(r)
      ensures r.blockOf[u] in counters' && Base(u, r.bs) >= 0
      ensures counters'[r.blockOf[u]] == CountDone(done', Base(u, r.bs), Base(u, r.bs) + r.bs)
    {
      if u < v { BaseMono(u, v, r.bs); }
      if u > v { BaseMono(v, u, r.bs); }
      CountAdd(done, done', Base(u, r.bs), Base(u, r.bs) + r.bs, a, b);
    }
  }

  lemma ConsumerStepInv(s: State, t: C.Tid)
    requires Inv(s) && ConsumerReady(s, t)
    ensures Inv(ConsumerStep(s, t))
  {
    hide Inv;
    if !s.c.consumers[t].Granted? {
      ClaimPhaseInv(s, t);
    } else {
      match s.work[t]
      case NoWork => LoadHeaderInv(s, t);
      case GotHeader(_) => LoadFrontInv(s, t);
      case GotFront(_, _, _) => LocateInv(s, t);
      case AtBlock(_, _, _, _) => LoadBlockInv(s, t);
      case Reading(_, _, _, _, pos, stop, _) => if pos < stop { HandInv(s, t); } else { ChunkInv(s, t); }
    }
  }
}
