/**
 One producer's ring of blocks, its circular block index, and the consumers that read from it.

 Producer and consumers interleave at every shared access: a step below performs one of them.
 The ranges consumers work on come from module QueueClaims, and the bookkeeping of what has been
 handed over from module QueueDelivery; both states are embedded here.
 */
module BlockRing {

  import C = QueueClaims
  import D = QueueDelivery
  import opened BlockArith
  import opened Options

  type Item = D.Item
  type Block = nat

  datatype Entry = Entry(base: nat, block: Block)

  /** A published block index. front is the current slot; before the first block it is -1. */
  datatype Header = Header(size: nat, front: int, entries: seq<Entry>)

  /** Where the producer is in enqueue_begin, the item write, and the publishing store. */
  datatype Producer =
    | PIdle
    | PAlloc(tail: nat)
    | PReuse(tail: nat)
    | PGrow(tail: nat)
    | PInsert(tail: nat)
    | PEntryBase(tail: nat)
    | PEntryBlock(tail: nat)
    | PFront(tail: nat)
    | PWrite(tail: nat)
    | PPublish(tail: nat)

  /** What a consumer with a granted range has loaded so far. frontStretch and stretch are history. */
  datatype Work =
    | NoWork
    | GotHeader(header: nat)
    | GotFront(header: nat, front: int, frontStretch: nat)
    | AtBlock(header: nat, slot: nat, index: nat, stretch: nat)
    | Reading(header: nat, slot: nat, block: Block, start: nat, pos: nat, stop: nat, stretch: nat)

  /**
   Memory that only the producer writes. The last four fields are history, read by no step:
   blockOf is the physical block of the v-th block-sized stretch of indices; header h keeps stretch v in
   slot (v + offs[h]) mod size and has entered his[h] stretches; written are the items by index.
   */
  datatype Ring = Ring(bs: nat, producer: Producer, tailBlock: Option<Block>, next: map<Block, Block>,
                       slots: map<(Block, nat), Item>, headers: seq<Header>, blockIndex: nat,
                       slotsUsed: nat, indexSize: nat, indexFront: nat,
                       blockOf: seq<Block>, offs: seq<int>, his: seq<nat>, written: seq<Item>)

  /** counters: elementsCompletelyDequeued of each block. own is history. */
  datatype State = State(c: C.State, ring: Ring, counters: map<Block, nat>, work: map<C.Tid, Work>, own: D.State)

  /** What the environment supplies to a producer step: the item, a requisitioned block, uninitialised memory. */
  datatype Input = Input(item: Item, block: Block, junk: seq<Entry>)

  predicate Init(s: State) {
    var r := s.ring;
    && r.bs > 0 && C.Init(s.c) && r.producer == PIdle
    && r.tailBlock == None && r.next == map[] && r.slotsUsed == 0
    && |r.headers| == 1 && r.blockIndex == 0
    && r.headers[0].size == |r.headers[0].entries| == r.indexSize > 0 && r.indexFront == 0
    && r.blockOf == [] && r.offs == [0] && r.his == [0] && r.written == []
    && s.work.Keys == s.c.consumers.Keys && (forall t <- s.work :: s.work[t] == NoWork)
    && s.own == D.INITIAL
  }

  // ----- producer steps -----

  /** The entries of a grown index: the live ones in order from the oldest, then fresh memory. */
  function GrownEntries(filled: seq<Entry>, front: nat, used: nat, junk: seq<Entry>): seq<Entry>
    requires |filled| > 0
  {
    seq(used, j requires 0 <= j < used => filled[(front - used + j) % |filled|]) + junk
  }

  predicate ProducerReady(s: State, input: Input) {
    var r := s.ring;
    && r.bs > 0
    && match r.producer
       case PAlloc(_) => r.tailBlock.Some? ==> r.tailBlock.value in r.next && r.next[r.tailBlock.value] in s.counters
       case PReuse(_) => r.tailBlock.Some? && r.tailBlock.value in r.next
       case PGrow(_) => r.blockIndex < |r.headers| && |r.headers[r.blockIndex].entries| > 0
                        && |input.junk| == 2 * r.indexSize - r.slotsUsed
       case PInsert(_) => input.block !in r.next && (r.tailBlock.Some? ==> r.tailBlock.value in r.next)
       case PEntryBase(_) => r.blockIndex < |r.headers| && r.indexFront < |r.headers[r.blockIndex].entries|
       case PEntryBlock(_) => r.blockIndex < |r.headers| && r.indexFront < |r.headers[r.blockIndex].entries| && r.tailBlock.Some?
       case PFront(_) => r.blockIndex < |r.headers| == |r.his| && r.indexSize > 0
       case PWrite(_) => r.tailBlock.Some?
       case _ => true
  }

  function SetEntry(r: Ring, p: Producer, e: Entry): Ring
    requires r.blockIndex < |r.headers| && r.indexFront < |r.headers[r.blockIndex].entries|
  {
    var h := r.headers[r.blockIndex];
    r.(producer := p, headers := r.headers[r.blockIndex := h.(entries := h.entries[r.indexFront := e])])
  }

  function ProducerStep(s: State, input: Input): State
    requires ProducerReady(s, input)
  {
    var r := s.ring;
    match r.producer
    case PIdle =>
      var tail := s.c.tail;
      s.(ring := r.(producer := if Offset(tail, r.bs) == 0 then PAlloc(tail) else PWrite(tail)))
    case PAlloc(tail) =>
      s.(ring := r.(producer :=
        if r.tailBlock.Some? && s.counters[r.next[r.tailBlock.value]] == r.bs then PReuse(tail)
        else if r.slotsUsed == r.indexSize then PGrow(tail)
        else PInsert(tail)))
    case PReuse(tail) =>
      var b := r.next[r.tailBlock.value];
      s.(ring := r.(producer := PEntryBase(tail), tailBlock := Some(b), blockOf := r.blockOf + [b]),
         counters := s.counters[b := 0])
    case PGrow(tail) =>
      var grown := GrownEntries(r.headers[r.blockIndex].entries, r.indexFront, r.slotsUsed, input.junk);
      s.(ring := r.(producer := PInsert(tail),
                    headers := r.headers + [Header(2 * r.indexSize, r.slotsUsed - 1, grown)], blockIndex := |r.headers|,
                    indexSize := 2 * r.indexSize, indexFront := r.slotsUsed,
                    offs := r.offs + [r.slotsUsed - |r.blockOf|], his := r.his + [|r.blockOf|]))
    case PInsert(tail) =>
      var b := input.block;
      var next := if r.tailBlock.None? then r.next[b := b]
                  else r.next[b := r.next[r.tailBlock.value]][r.tailBlock.value := b];
      s.(ring := r.(producer := PEntryBase(tail), tailBlock := Some(b), next := next,
                    slotsUsed := r.slotsUsed + 1, blockOf := r.blockOf + [b]),
         counters := s.counters[b := 0])
    case PEntryBase(tail) =>
      s.(ring := SetEntry(r, PEntryBlock(tail), r.headers[r.blockIndex].entries[r.indexFront].(base := tail)))
    case PEntryBlock(tail) =>
      s.(ring := SetEntry(r, PFront(tail), r.headers[r.blockIndex].entries[r.indexFront].(block := r.tailBlock.value)))
    case PFront(tail) =>
      var h := r.blockIndex;
      s.(ring := r.(producer := PWrite(tail), headers := r.headers[h := r.headers[h].(front := r.indexFront)],
                    indexFront := (r.indexFront + 1) % r.indexSize, his := r.his[h := |r.blockOf|]))
    case PWrite(tail) =>
      s.(ring := r.(producer := PPublish(tail), slots := r.slots[(r.tailBlock.value, Offset(tail, r.bs)) := input.item],
                    written := r.written + [input.item]))
    case PPublish(tail) => s.(ring := r.(producer := PIdle), c := s.c.(tail := tail + 1))
  }

  // ----- consumer steps -----

  predicate ConsumerReady(s: State, t: C.Tid) {
    var r := s.ring;
    && r.bs > 0 && t in s.c.consumers && t in s.work
    && (s.c.consumers[t].Granted? ==>
          match s.work[t]
          case NoWork => true
          case GotHeader(h) => h < |r.headers| == |r.his| && r.his[h] > 0
          case GotFront(h, f, _) => h < |r.headers| && r.headers[h].size > 0 && 0 <= f < |r.headers[h].entries|
          case AtBlock(h, slot, _, _) => h < |r.headers| && slot < |r.headers[h].entries|
          case Reading(h, _, b, start, pos, stop, _) =>
            && h < |r.headers| && r.headers[h].size > 0 && start <= stop && b in s.counters && t in s.own.jobs
            && (pos < stop ==> (b, Offset(pos, r.bs)) in r.slots))
  }

  function SetWork(s: State, t: C.Tid, w: Work): State { s.(work := s.work[t := w]) }

  /** Index entry slot of the first block of a range, as the consumer computes it from the front slot it loaded. */
  function FirstSlot(header: Header, front: int, first: nat, bs: nat): nat
    requires header.size > 0 && 0 <= front < |header.entries| && bs > 0
  {
    var offset: int := (first - Offset(first, bs) - header.entries[front].base) / bs;
    (front + offset) % header.size
  }

  function ConsumerStep(s: State, t: C.Tid): State
    requires ConsumerReady(s, t)
  {
    var r, phase := s.ring, s.c.consumers[t];
    if !phase.Granted? then
      s.(c := C.ConsumerStep(s.c, t), own := if phase.Taking? then D.Grant(s.own, t, phase.actual) else s.own)
    else
      var first, end := phase.first, phase.first + phase.count;
      match s.work[t]
      case NoWork => SetWork(s, t, GotHeader(r.blockIndex))
      case GotHeader(h) => SetWork(s, t, GotFront(h, r.headers[h].front, r.his[h] - 1))
      case GotFront(h, f, _) =>
        SetWork(s, t, AtBlock(h, FirstSlot(r.headers[h], f, first, r.bs), first, StretchOf(first, r.bs)))
      case AtBlock(h, slot, index, v) =>
        var blockEnd := index - Offset(index, r.bs) + r.bs;
        var stop := if end < blockEnd then end else blockEnd;
        SetWork(s, t, Reading(h, slot, r.headers[h].entries[slot].block, index, index, stop, v))
      case Reading(h, slot, b, start, pos, stop, v) =>
        if pos < stop then
          SetWork(s, t, Reading(h, slot, b, start, pos + 1, stop, v))
          .(own := D.Hand(s.own, t, r.slots[(b, Offset(pos, r.bs))]))
        else
          var s1 := s.(counters := s.counters[b := s.counters[b] + (stop - start)], own := D.Count(s.own, t));
          if stop == end then SetWork(s1, t, NoWork).(c := C.ConsumerStep(s.c, t))
          else SetWork(s1, t, AtBlock(h, (slot + 1) % r.headers[h].size, stop, v + 1))
  }

  ghost predicate Next(s: State, s': State) {
    || (exists input :: ProducerReady(s, input) && s' == ProducerStep(s, input))
    || (exists t <- s.work :: ConsumerReady(s, t) && s' == ConsumerStep(s, t))
  }
}
