/**
 The server's side of the time encoding, and the round trip over a whole connection.
 */
module TimeReader {

  import opened Int64
  import opened TimeDeltas
  import opened Options

  /** An item as the server reconstructs it, with the thread announced last. */
  datatype Seen = Seen(thread: nat, item: Item)

  datatype Reader = Reader(thread: nat, refs: Refs, seen: seq<Seen>)

  /** The reference that the server's processing of each type adds to. */
  function ServerClock(k: QueueType): Clock {
    match k
    case ZoneBegin => ThreadClock
    case ZoneBeginCallstack => ThreadClock
    case ZoneBeginAllocSrcLoc => ThreadClock
    case ZoneBeginAllocSrcLocCallstack => ThreadClock
    case ZoneEnd => ThreadClock
    case LockWait => SerialClock
    case LockObtain => SerialClock
    case LockRelease => SerialClock
    case LockSharedWait => SerialClock
    case LockSharedObtain => SerialClock
    case LockSharedRelease => SerialClock
    case PlotData => ThreadClock
    case GpuZoneBegin => ThreadClock
    case GpuZoneBeginCallstack => ThreadClock
    case GpuZoneBeginAllocSrcLoc => ThreadClock
    case GpuZoneBeginAllocSrcLocCallstack => ThreadClock
    case GpuZoneEnd => ThreadClock
    case GpuZoneBeginSerial => SerialClock
    case GpuZoneBeginCallstackSerial => SerialClock
    case GpuZoneBeginAllocSrcLocSerial => SerialClock
    case GpuZoneBeginAllocSrcLocCallstackSerial => SerialClock
    case GpuZoneEndSerial => SerialClock
    case GpuTime => GpuClock
    case MemAlloc | MemAllocNamed | MemAllocCallstack | MemAllocCallstackNamed => SerialClock
    case MemFree | MemFreeNamed | MemFreeCallstack | MemFreeCallstackNamed => SerialClock
    case CallstackSample => ContextClock
    case CallstackSampleContextSwitch => ContextClock
    case ContextSwitch => ContextClock
    case ThreadWakeup => ContextClock
    case FiberEnter => ThreadClock
    case FiberLeave => ThreadClock
    case _ => Untimed
  }

  /** The types that the server files under the thread announced last. */
  predicate ServerThread(k: QueueType) {
    match k
    case ZoneBegin | ZoneBeginCallstack | ZoneBeginAllocSrcLoc | ZoneBeginAllocSrcLocCallstack => true
    case ZoneEnd | ZoneValidation | ZoneText | ZoneName | ZoneColor | ZoneValue => true
    case Message | MessageLiteral | MessageColor | MessageLiteralColor => true
    case MessageCallstack | MessageLiteralCallstack | MessageColorCallstack | MessageLiteralColorCallstack => true
    case Callstack | CallstackAlloc | CrashReport => true
    case FiberEnter | FiberLeave => true
    case _ => false
  }

  /** The client measures every item that it sends against the reference that the server adds to. */
  lemma ClocksAgree(k: QueueType)
    ensures ClockOf(k) == ServerClock(k)
  {
  }

  function Restore(r: Refs, item: Item): Item {
    if ServerClock(item.kind).Untimed? then item else item.(time := Plus64(RefOf(r, ServerClock(item.kind)), item.time))
  }

  function Plus64(a: int, b: int): int64 { Wrap64(a + b) }

  /** The server drops a plot value that is not finite before it looks at the time. */
  predicate Skipped(item: Item) { item.kind == PlotData && !item.finite }

  /** The thread reference starts from zero at every ThreadContext. */
  function ReadOne(r: Reader, w: Wire): Reader {
    match w
    case ThreadContext(t) => Reader(t, r.refs.(thread := 0), r.seen)
    case Event(item) =>
      if Skipped(item) then r
      else
        var original := Restore(r.refs, item);
        Reader(r.thread, SetRef(r.refs, ServerClock(item.kind), original.time), r.seen + [Seen(r.thread, original)])
  }

  /** A server that connects knows nothing: all its references are zero. */
  function Read(wire: seq<Wire>): Reader {
    if wire == [] then Reader(0, Refs(0, 0, 0, 0), []) else ReadOne(Read(wire[..|wire| - 1]), wire[|wire| - 1])
  }

  lemma ReadNext(wire: seq<Wire>, w: Wire)
    ensures Read(wire + [w]) == ReadOne(Read(wire), w)
  {
    assert (wire + [w])[..|wire|] == wire;
  }

  /** 64-bit subtraction is undone by 64-bit addition, overflow included. */
  lemma PlusMinus(a: int64, t: int64)
    ensures Plus64(a, Minus64(t, a)) == t
  {
    var d: int := Minus64(t, a);
    var q := ((t as int) - a + HALF64) / WORD64;
    assert d == (t as int) - a - q * WORD64;
    assert a + d + HALF64 == (t as int + HALF64) + (0 - q) * WORD64;
    WrapUnique(a + d, t, 0 - q);
  }

  lemma WrapUnique(x: int, t: int64, q: int)
    requires x + HALF64 == (t as int + HALF64) + q * WORD64
    ensures Wrap64(x) == t
  {
  }

  /** What goes into a connection, batch by batch. */
  datatype Batch =
    | LockFree(thread: nat, items: seq<Item>)
    | Serial(items: seq<Item>)
    | Disconnect(items: seq<Item>, timeStop: int64)

  predicate Accepted(b: Batch, fibers: bool) {
    match b
    case LockFree(_, items) => forall i | 0 <= i < |items| :: LockFreeType(items[i].kind)
    case Serial(items) => forall i | 0 <= i < |items| :: SerialType(items[i].kind, fibers)
    case Disconnect(_, timeStop) => timeStop >= 0
  }

  /** Thread ids handed out by the system are not zero. */
  predicate ThreadsNonZero(b: Batch, fibers: bool) {
    match b
    case LockFree(t, _) => t != 0
    case Serial(items) => forall i | 0 <= i < |items| :: fibers && ServerThread(items[i].kind) ==> items[i].thread != 0
    case Disconnect(_, _) => true
  }

  function SendBatch(s: Sender, b: Batch, fibers: bool): Sender {
    match b
    case LockFree(t, items) => SendItems(CheckThread(s, t), items)
    case Serial(items) => SendSerialItems(s, items, fibers)
    case Disconnect(items, timeStop) => SendItems(s, Drained(items, timeStop))
  }

  function SendAll(s: Sender, batches: seq<Batch>, fibers: bool): Sender {
    if batches == [] then s else SendBatch(SendAll(s, batches[..|batches| - 1], fibers), batches[|batches| - 1], fibers)
  }

  /** What the reader should see: the item with its own time, and its thread where the connection says one. */
  datatype Want = Want(thread: Option<nat>, item: Item)

  /** Everything but two types that stand for strings only, and what the server skips. */
  predicate Expected(item: Item) {
    item.kind != ExternalNameMetadata && item.kind != SymbolCodeMetadata && !Skipped(item)
  }

  function WantItems(thread: Option<nat>, items: seq<Item>): seq<Want> {
    if items == [] then []
    else
      var front, last := WantItems(thread, items[..|items| - 1]), items[|items| - 1];
      if Expected(last) then front + [Want(thread, last)] else front
  }

  function SerialThread(item: Item, fibers: bool): Option<nat> {
    if fibers && ServerThread(item.kind) then Some(item.thread) else None
  }

  function WantSerial(items: seq<Item>, fibers: bool): seq<Want> {
    if items == [] then []
    else WantSerial(items[..|items| - 1], fibers) + [Want(SerialThread(items[|items| - 1], fibers), items[|items| - 1])]
  }

  function WantBatch(b: Batch, fibers: bool): seq<Want> {
    match b
    case LockFree(t, items) => WantItems(Some(t), items)
    case Serial(items) => WantSerial(items, fibers)
    case Disconnect(items, timeStop) => WantItems(None, Drained(items, timeStop))
  }

  function WantAll(batches: seq<Batch>, fibers: bool): seq<Want> {
    if batches == [] then [] else WantAll(batches[..|batches| - 1], fibers) + WantBatch(batches[|batches| - 1], fibers)
  }

  predicate Matches(seen: seq<Seen>, want: seq<Want>) {
    && |seen| == |want|
    && forall i | 0 <= i < |seen| ::
         seen[i].item == want[i].item && (want[i].thread.Some? ==> seen[i].thread == want[i].thread.value)
  }

  /** Some item came out wrong, which nothing sent later can undo. */
  predicate Wrong(seen: seq<Seen>, want: seq<Want>) {
    exists i | 0 <= i < |seen| && i < |want| :: seen[i].item != want[i].item
  }

  // ----- how far the two thread references are apart -----

  /** What came first in a connection: nothing yet, a ThreadContext, or an item on the thread clock. */
  datatype Phase = Silent | Announced | Early

  /**
   Computed from the kept reference and from what is to be sent: the announced thread, the client's thread reference,
   how far the server's is ahead of it, and whether every time came out right.
   */
  datatype Drift = Drift(ctx: nat, ref: int64, skew: int64, right: bool, phase: Phase)

  /** A new connection: the server's reference is zero, the client's is the one kept. */
  function Fresh(kept: int64): Drift { Drift(0, kept, Minus64(0, kept), true, Silent) }

  /** An announcement resets both references. Thread zero is what a connection starts with and does not announce. */
  function DriftCheck(d: Drift, t: nat): Drift {
    if d.ctx == t then d else Drift(t, 0, 0, d.right, if d.phase.Silent? && t != 0 then Announced else d.phase)
  }

  /** A skipped item moves the client's reference alone; any other item on the thread clock shows the skew. */
  function DriftItem(d: Drift, item: Item): Drift {
    if !ServerClock(item.kind).ThreadClock? then d
    else if Skipped(item) then d.(ref := item.time, skew := Minus64(Plus64(d.ref, d.skew), item.time))
    else d.(ref := item.time, right := d.right && d.skew == 0, phase := if d.phase.Silent? then Early else d.phase)
  }

  function DriftItems(d: Drift, items: seq<Item>): Drift {
    if items == [] then d else DriftItem(DriftItems(d, items[..|items| - 1]), items[|items| - 1])
  }

  function DriftSerial(d: Drift, items: seq<Item>, fibers: bool): Drift {
    if items == [] then d
    else
      var before, last := DriftSerial(d, items[..|items| - 1], fibers), items[|items| - 1];
      DriftItem(if fibers && ServerThread(last.kind) then DriftCheck(before, last.thread) else before, last)
  }

  function DriftBatch(d: Drift, b: Batch, fibers: bool): Drift {
    match b
    case LockFree(t, items) => DriftItems(DriftCheck(d, t), items)
    case Serial(items) => DriftSerial(d, items, fibers)
    case Disconnect(_, _) => d
  }

  function DriftAll(d: Drift, batches: seq<Batch>, fibers: bool): Drift {
    if batches == [] then d else DriftBatch(DriftAll(d, batches[..|batches| - 1], fibers), batches[|batches| - 1], fibers)
  }

  /** Sender and server after the same wire: only the thread references may differ, by the skew. */
  predicate Tracked(s: Sender, d: Drift, want: seq<Want>) {
    var r := Read(s.wire);
    && r.thread == s.threadCtx == d.ctx && s.refs.thread == d.ref
    && r.refs == s.refs.(thread := Plus64(d.ref, d.skew))
    && if d.right then Matches(r.seen, want) else Wrong(r.seen, want)
  }

  lemma CheckTracked(s: Sender, d: Drift, t: nat, want: seq<Want>)
    requires Tracked(s, d, want)
    ensures Tracked(CheckThread(s, t), DriftCheck(d, t), want) && CheckThread(s, t).threadCtx == t
  {
    ReadNext(s.wire, ThreadContext(t));
  }

  /** The skew is added to the item's time. */
  lemma SkewShows(ref: int64, skew: int64, t: int64)
    ensures Plus64(Plus64(ref, skew), Minus64(t, ref)) == Plus64(t, skew)
    ensures Plus64(t, skew) == t <==> skew == 0
  {
    var q := Wraps(ref + skew);
    var p := Wraps(t - ref);
    SameWrap(Plus64(ref, skew) + Minus64(t, ref), t + skew, 0 - q - p);
    hide Wrap64;
    InRange(t, skew);
  }

  lemma Wraps(x: int) returns (q: int)
    ensures Wrap64(x) == x - q * WORD64
  {
    q := (x + HALF64) / WORD64;
  }

  lemma InRange(t: int64, skew: int64)
    ensures Wrap64(t + skew) == t <==> skew == 0
  {
  }

  lemma SameWrap(x: int, y: int, q: int)
    requires x == y + q * WORD64
    ensures Wrap64(x) == Wrap64(y)
  {
  }

  /** One item of any clock. */
  lemma ItemTracked(s: Sender, d: Drift, item: Item, thread: Option<nat>, want: seq<Want>)
    requires Tracked(s, d, want) && (thread.Some? ==> s.threadCtx == thread.value)
    ensures Tracked(SendItem(s, item), DriftItem(d, item), if Expected(item) then want + [Want(thread, item)] else want)
    ensures SendItem(s, item).threadCtx == s.threadCtx
  {
    hide Tracked, ClockOf, ServerClock, OnWire, Skipped, Expected;
    ClocksAgree(item.kind);
    UnsentUntimed(item);
    if !OnWire(item.kind) {
      NotSent(s, d, item, want);
    } else if Skipped(item) {
      SkippedTracked(s, d, item, want);
    } else {
      ShownTracked(s, d, item, thread, want);
    }
  }

  lemma NotSent(s: Sender, d: Drift, item: Item, want: seq<Want>)
    requires Tracked(s, d, want) && !OnWire(item.kind) && ClockOf(item.kind) == ServerClock(item.kind) == Untimed
    ensures Tracked(SendItem(s, item), DriftItem(d, item), want)
  {
    hide ClockOf, ServerClock, OnWire;
  }

  lemma SkippedTracked(s: Sender, d: Drift, item: Item, want: seq<Want>)
    requires Tracked(s, d, want) && OnWire(item.kind) && Skipped(item) && ClockOf(item.kind) == ServerClock(item.kind)
    ensures Tracked(SendItem(s, item), DriftItem(d, item), want)
  {
    hide OnWire, Read, Minus64, Plus64;
    ReadNext(s.wire, Event(Delta(s.refs, item)));
    PlusMinus(item.time, Plus64(d.ref, d.skew));
  }

  /** What the server makes of an item: its time, shifted by the skew if it is on the thread clock. */
  lemma Restored(s: Sender, d: Drift, item: Item, want: seq<Want>)
    requires Tracked(s, d, want) && !Skipped(item) && ClockOf(item.kind) == ServerClock(item.kind)
    ensures Restore(Read(s.wire).refs, Delta(s.refs, item))
            == if ServerClock(item.kind).ThreadClock? then item.(time := Plus64(item.time, d.skew)) else item
    ensures Plus64(item.time, d.skew) == item.time <==> d.skew == 0
    ensures !Skipped(Delta(s.refs, item))
  {
    hide ClockOf, ServerClock, Minus64, Plus64, Read, Matches, Wrong;
    SkewShows(d.ref, d.skew, item.time);
    PlusMinus(RefOf(s.refs, ClockOf(item.kind)), item.time);
  }

  lemma ShownTracked(s: Sender, d: Drift, item: Item, thread: Option<nat>, want: seq<Want>)
    requires Tracked(s, d, want) && (thread.Some? ==> s.threadCtx == thread.value)
    requires OnWire(item.kind) && !Skipped(item) && ClockOf(item.kind) == ServerClock(item.kind)
    ensures Tracked(SendItem(s, item), DriftItem(d, item), want + [Want(thread, item)])
  {
    hide ClockOf, ServerClock, Minus64, Plus64, OnWire, Read, Matches, Wrong, Skipped, Restore;
    Restored(s, d, item, want);
    ReadNext(s.wire, Event(Delta(s.refs, item)));
    var r := Read(s.wire);
    var original := Restore(r.refs, Delta(s.refs, item));
    SeenNext(r.seen, want, Seen(r.thread, original), Want(thread, item));
  }

  lemma SeenNext(seen: seq<Seen>, want: seq<Want>, x: Seen, w: Want)
    requires w.thread.Some? ==> x.thread == w.thread.value
    ensures Matches(seen, want) && x.item == w.item ==> Matches(seen + [x], want + [w])
    ensures Matches(seen, want) && x.item != w.item ==> Wrong(seen + [x], want + [w])
    ensures Wrong(seen, want) ==> Wrong(seen + [x], want + [w])
  {
    if Matches(seen, want) && x.item != w.item { assert (seen + [x])[|want|].item != (want + [w])[|want|].item; }
    if i :| 0 <= i < |seen| && i < |want| && seen[i].item != want[i].item {
      assert (seen + [x])[i].item != (want + [w])[i].item;
    }
  }

  lemma UnsentUntimed(item: Item)
    ensures !OnWire(item.kind) ==> ClockOf(item.kind) == Untimed
    ensures Expected(item) <==> OnWire(item.kind) && !Skipped(item)
  {
  }

  lemma {:induction false} ItemsTracked(s: Sender, d: Drift, items: seq<Item>, thread: Option<nat>, want: seq<Want>)
    requires Tracked(s, d, want) && (thread.Some? ==> s.threadCtx == thread.value)
    ensures Tracked(SendItems(s, items), DriftItems(d, items), want + WantItems(thread, items))
    ensures SendItems(s, items).threadCtx == s.threadCtx
  {
    hide Tracked, SendItem, DriftItem, Expected;
    if items == [] {
      assert want + WantItems(thread, items) == want;
    } else {
      var front, last := items[..|items| - 1], items[|items| - 1];
      ItemsTracked(s, d, front, thread, want);
      ItemTracked(SendItems(s, front), DriftItems(d, front), last, thread, want + WantItems(thread, front));
      assert want + WantItems(thread, front) + [Want(thread, last)] == want + (WantItems(thread, front) + [Want(thread, last)]);
    }
  }

  lemma {:induction false} SerialTracked(s: Sender, d: Drift, items: seq<Item>, fibers: bool, want: seq<Want>)
    requires Tracked(s, d, want) && Accepted(Serial(items), fibers)
    ensures Tracked(SendSerialItems(s, items, fibers), DriftSerial(d, items, fibers), want + WantSerial(items, fibers))
  {
    hide Tracked, Expected, SendItem, CheckThread, SerialType, NamesThread, ServerThread, DriftItem, DriftCheck;
    if items == [] {
      assert want + WantSerial(items, fibers) == want;
    } else {
      var front, last := items[..|items| - 1], items[|items| - 1];
      assert forall i | 0 <= i < |front| :: front[i] == items[i];
      SerialTracked(s, d, front, fibers, want);
      var s1, d1, want1 := SendSerialItems(s, front, fibers), DriftSerial(d, front, fibers), want + WantSerial(front, fibers);
      SerialAgrees(last, fibers);
      if fibers && NamesThread(last.kind) {
        CheckTracked(s1, d1, last.thread, want1);
        ItemTracked(CheckThread(s1, last.thread), DriftCheck(d1, last.thread), last, Some(last.thread), want1);
      } else {
        ItemTracked(s1, d1, last, None, want1);
      }
      assert want1 + [Want(SerialThread(last, fibers), last)] == want + WantSerial(items, fibers);
    }
  }

  /** With fibers the serial loop checks the thread of exactly the items that the server files under a thread. */
  lemma SerialAgrees(item: Item, fibers: bool)
    requires SerialType(item.kind, fibers)
    ensures Expected(item)
    ensures fibers ==> (NamesThread(item.kind) <==> ServerThread(item.kind))
    ensures ServerClock(item.kind).ThreadClock? ==> fibers && ServerThread(item.kind)
  {
  }

  /** The disconnect path sends nothing on the thread clock. */
  lemma {:induction false} DrainedContext(items: seq<Item>, timeStop: int64)
    ensures forall i | 0 <= i < |Drained(items, timeStop)| :: ServerClock(Drained(items, timeStop)[i].kind).ContextClock?
  {
    if items != [] { DrainedContext(items[1..], timeStop); }
  }

  lemma {:induction false} NoThreadClock(d: Drift, items: seq<Item>)
    requires forall i | 0 <= i < |items| :: !ServerClock(items[i].kind).ThreadClock?
    ensures DriftItems(d, items) == d
  {
    hide ServerClock;
    if items != [] {
      var front := items[..|items| - 1];
      assert forall i | 0 <= i < |front| :: front[i] == items[i];
      NoThreadClock(d, front);
    }
  }

  lemma BatchTracked(s: Sender, d: Drift, b: Batch, fibers: bool, want: seq<Want>)
    requires Tracked(s, d, want) && Accepted(b, fibers)
    ensures Tracked(SendBatch(s, b, fibers), DriftBatch(d, b, fibers), want + WantBatch(b, fibers))
  {
    hide Tracked, CheckThread, ServerClock, DriftCheck;
    match b
    case LockFree(t, items) =>
      CheckTracked(s, d, t, want);
      ItemsTracked(CheckThread(s, t), DriftCheck(d, t), items, Some(t), want);
    case Serial(items) =>
      SerialTracked(s, d, items, fibers, want);
    case Disconnect(items, timeStop) =>
      DrainedContext(items, timeStop);
      NoThreadClock(d, Drained(items, timeStop));
      ItemsTracked(s, d, Drained(items, timeStop), None, want);
  }

  /** A new connection: everything but the thread reference starts from zero. */
  predicate Connected(s: Sender) {
    s.threadCtx == 0 && s.refs == Refs(s.refs.thread, 0, 0, 0) && s.wire == []
  }

  lemma {:induction false} AllTracked(s: Sender, batches: seq<Batch>, fibers: bool)
    requires Connected(s) && forall i | 0 <= i < |batches| :: Accepted(batches[i], fibers)
    ensures Tracked(SendAll(s, batches, fibers), DriftAll(Fresh(s.refs.thread), batches, fibers), WantAll(batches, fibers))
  {
    hide Accepted, Minus64, Plus64;
    if batches == [] {
      PlusMinus(s.refs.thread, 0);
    } else {
      var front, last := batches[..|batches| - 1], batches[|batches| - 1];
      assert forall i | 0 <= i < |front| :: front[i] == batches[i];
      AllTracked(s, front, fibers);
      hide Tracked;
      BatchTracked(SendAll(s, front, fibers), DriftAll(Fresh(s.refs.thread), front, fibers), last, fibers, WantAll(front, fibers));
    }
  }

  /**
   The round trip: for every interleaving of lock-free, serial and disconnect batches over one connection, with any
   thread ids and any plot values, the server recovers every item with its absolute time, in order, and the thread of
   every item that belongs to one, if and only if no item that it does not skip goes out on the thread clock while the
   two thread references are apart.
   */
  lemma RoundTrip(s: Sender, batches: seq<Batch>, fibers: bool)
    requires Connected(s) && forall i | 0 <= i < |batches| :: Accepted(batches[i], fibers)
    ensures Matches(Read(SendAll(s, batches, fibers).wire).seen, WantAll(batches, fibers))
      <==> DriftAll(Fresh(s.refs.thread), batches, fibers).right
  {
    hide Accepted, WantAll, SendAll, DriftAll;
    AllTracked(s, batches, fibers);
  }

  // ----- connections without a skipped item -----

  predicate FiniteItems(items: seq<Item>) { forall i | 0 <= i < |items| :: !Skipped(items[i]) }

  predicate FinitePlots(b: Batch) { FiniteItems(b.items) }

  /** Then only the kept reference can be wrong, until the first announcement. */
  predicate ByPhase(kept: int64, d: Drift) {
    if kept == 0 then d.skew == 0 && d.right
    else match d.phase
      case Silent => d.ctx == 0 && d.skew == Minus64(0, kept) && d.right
      case Announced => d.skew == 0 && d.right
      case Early => !d.right
  }

  lemma NotZero(kept: int64)
    ensures Minus64(0, kept) == 0 <==> kept == 0
  {
  }

  lemma CheckByPhase(kept: int64, d: Drift, t: nat)
    requires ByPhase(kept, d)
    ensures ByPhase(kept, DriftCheck(d, t))
  {
    hide Minus64;
  }

  lemma ItemByPhase(kept: int64, d: Drift, item: Item)
    requires ByPhase(kept, d) && !Skipped(item)
    ensures ByPhase(kept, DriftItem(d, item))
  {
    hide Minus64, ServerClock, Skipped;
    NotZero(kept);
  }

  lemma {:induction false} ItemsByPhase(kept: int64, d: Drift, items: seq<Item>)
    requires ByPhase(kept, d) && FiniteItems(items)
    ensures ByPhase(kept, DriftItems(d, items))
  {
    hide ByPhase, DriftItem, Skipped;
    if items != [] {
      var front := items[..|items| - 1];
      assert forall i | 0 <= i < |front| :: front[i] == items[i];
      ItemsByPhase(kept, d, front);
      ItemByPhase(kept, DriftItems(d, front), items[|items| - 1]);
    }
  }

  lemma {:induction false} SerialByPhase(kept: int64, d: Drift, items: seq<Item>, fibers: bool)
    requires ByPhase(kept, d) && FiniteItems(items)
    ensures ByPhase(kept, DriftSerial(d, items, fibers))
  {
    hide ByPhase, DriftItem, DriftCheck, Skipped, ServerThread;
    if items != [] {
      var front, last := items[..|items| - 1], items[|items| - 1];
      assert forall i | 0 <= i < |front| :: front[i] == items[i];
      SerialByPhase(kept, d, front, fibers);
      var before := DriftSerial(d, front, fibers);
      CheckByPhase(kept, before, last.thread);
      ItemByPhase(kept, if fibers && ServerThread(last.kind) then DriftCheck(before, last.thread) else before, last);
    }
  }

  lemma {:induction false} AllByPhase(kept: int64, batches: seq<Batch>, fibers: bool)
    requires forall i | 0 <= i < |batches| :: FinitePlots(batches[i])
    ensures ByPhase(kept, DriftAll(Fresh(kept), batches, fibers))
  {
    hide FiniteItems, DriftCheck, DriftItems, DriftSerial;
    if batches == [] {
      NotZero(kept);
    } else {
      hide ByPhase;
      var front, last := batches[..|batches| - 1], batches[|batches| - 1];
      assert forall i | 0 <= i < |front| :: front[i] == batches[i];
      AllByPhase(kept, front, fibers);
      var d := DriftAll(Fresh(kept), front, fibers);
      match last
      case LockFree(t, items) =>
        CheckByPhase(kept, d, t);
        ItemsByPhase(kept, DriftCheck(d, t), items);
      case Serial(items) => SerialByPhase(kept, d, items, fibers);
      case Disconnect(_, _) =>
    }
  }

  /**
   With finite plot values the round trip succeeds if and only if the connection before left a zero thread reference or
   no item on the thread clock goes out before the first ThreadContext.
   */
  lemma FiniteRoundTrip(s: Sender, batches: seq<Batch>, fibers: bool)
    requires Connected(s) && forall i | 0 <= i < |batches| :: Accepted(batches[i], fibers) && FinitePlots(batches[i])
    ensures Matches(Read(SendAll(s, batches, fibers).wire).seen, WantAll(batches, fibers))
      <==> s.refs.thread == 0 || DriftAll(Fresh(s.refs.thread), batches, fibers).phase != Early
  {
    hide Accepted, FinitePlots, WantAll, SendAll, DriftAll, Fresh, Matches, Read, Minus64;
    RoundTrip(s, batches, fibers);
    AllByPhase(s.refs.thread, batches, fibers);
  }

  /** With thread ids that are not zero, as systems hand them out, no thread's time is early. */
  lemma {:induction false} NonZeroNeverEarly(d: Drift, batches: seq<Batch>, fibers: bool)
    requires d.phase.Silent? && d.ctx == 0
    requires forall i | 0 <= i < |batches| :: Accepted(batches[i], fibers) && ThreadsNonZero(batches[i], fibers)
    ensures NeverEarly(DriftAll(d, batches, fibers))
  {
    hide Accepted, ThreadsNonZero, DriftBatch;
    if batches != [] {
      var front, last := batches[..|batches| - 1], batches[|batches| - 1];
      assert forall i | 0 <= i < |front| :: front[i] == batches[i];
      NonZeroNeverEarly(d, front, fibers);
      NonZeroBatch(DriftAll(d, front, fibers), last, fibers);
    }
  }

  predicate NeverEarly(d: Drift) { d.phase.Announced? || (d.phase.Silent? && d.ctx == 0) }

  lemma NonZeroBatch(d: Drift, b: Batch, fibers: bool)
    requires NeverEarly(d) && Accepted(b, fibers) && ThreadsNonZero(b, fibers)
    ensures NeverEarly(DriftBatch(d, b, fibers))
  {
    match b
    case LockFree(t, items) => AnnouncedStays(DriftCheck(d, t), items);
    case Serial(items) => NonZeroSerial(d, items, fibers);
    case Disconnect(_, _) =>
  }

  lemma {:induction false} AnnouncedStays(d: Drift, items: seq<Item>)
    requires d.phase.Announced?
    ensures DriftItems(d, items).phase.Announced?
  {
    if items != [] { AnnouncedStays(d, items[..|items| - 1]); }
  }

  lemma {:induction false} NonZeroSerial(d: Drift, items: seq<Item>, fibers: bool)
    requires NeverEarly(d) && Accepted(Serial(items), fibers) && ThreadsNonZero(Serial(items), fibers)
    ensures NeverEarly(DriftSerial(d, items, fibers))
  {
    hide SerialType, NamesThread, ServerClock, ServerThread, Skipped;
    if items != [] {
      var front, last := items[..|items| - 1], items[|items| - 1];
      assert forall i | 0 <= i < |front| :: front[i] == items[i];
      NonZeroSerial(d, front, fibers);
      SerialAgrees(last, fibers);
    }
  }

  /** So with finite plots and non-zero thread ids every connection comes back right, whatever came before it. */
  lemma NonZeroRoundTrip(s: Sender, batches: seq<Batch>, fibers: bool)
    requires Connected(s)
    requires forall i | 0 <= i < |batches| :: Accepted(batches[i], fibers) && FinitePlots(batches[i]) && ThreadsNonZero(batches[i], fibers)
    ensures Matches(Read(SendAll(s, batches, fibers).wire).seen, WantAll(batches, fibers))
  {
    hide Accepted, FinitePlots, ThreadsNonZero, Matches;
    FiniteRoundTrip(s, batches, fibers);
    NonZeroNeverEarly(Fresh(s.refs.thread), batches, fibers);
  }

  // ----- a plot value that is not finite -----

  /**
   A zone with such a plot value inside: its end comes back shifted by as much time as had passed between its begin and
   the plot, so the trip fails unless both have the same time.
   */
  lemma PlotShiftsZone(s: Sender, thread: nat, begin: Item, plot: Item, end: Item, fibers: bool)
    requires Connected(s) && thread != 0
    requires begin.kind == ZoneBegin && plot.kind == PlotData && !plot.finite && end.kind == ZoneEnd
    ensures var b := [LockFree(thread, [begin, plot, end])]; var seen := Read(SendAll(s, b, fibers).wire).seen;
      && |seen| == 2 && seen[1].item.time == Plus64(end.time, Minus64(begin.time, plot.time))
      && (Matches(seen, WantAll(b, fibers)) <==> begin.time == plot.time)
  {
    var b := LockFree(thread, [begin, plot, end]);
    var d := DriftItems(DriftCheck(Fresh(s.refs.thread), thread), b.items);
    ZoneDrift(DriftCheck(Fresh(s.refs.thread), thread), begin, plot, end);
    RoundTrip(s, [b], fibers);
    assert DriftAll(Fresh(s.refs.thread), [b], fibers) == d by {
      hide DriftItems, DriftCheck;
      assert [b][..0] == [];
    }
    hide Matches, WantAll, DriftAll, DriftItems, DriftCheck;
    ZoneSeen(s, thread, begin, plot, end, fibers);
  }

  lemma ZoneDrift(d: Drift, begin: Item, plot: Item, end: Item)
    requires d.skew == 0 && d.right && begin.kind == ZoneBegin && plot.kind == PlotData && !plot.finite && end.kind == ZoneEnd
    ensures DriftItems(d, [begin, plot, end]).right <==> begin.time == plot.time
  {
    hide Minus64, Plus64;
    DriftInTurn(d, begin, plot, end);
    PlusZero(begin.time, plot.time);
    hide DriftItems;
  }

  lemma DriftInTurn(d: Drift, a: Item, b: Item, c: Item)
    ensures DriftItems(d, [a, b, c]) == DriftItem(DriftItem(DriftItem(d, a), b), c)
  {
    hide DriftItem;
    assert [a, b, c][..2] == [a, b] && [a, b][..1] == [a] && [a][..0] == [];
    assert DriftItems(d, []) == d && DriftItems(d, [a]) == DriftItem(d, a) && DriftItems(d, [a, b]) == DriftItem(DriftItem(d, a), b);
  }

  lemma PlusZero(t: int64, a: int64)
    ensures Plus64(t, 0) == t && (Minus64(t, a) == 0 <==> t == a)
  {
  }

  lemma ZoneSeen(s: Sender, thread: nat, begin: Item, plot: Item, end: Item, fibers: bool)
    requires Connected(s) && thread != 0
    requires begin.kind == ZoneBegin && plot.kind == PlotData && !plot.finite && end.kind == ZoneEnd
    ensures var seen := Read(SendAll(s, [LockFree(thread, [begin, plot, end])], fibers).wire).seen;
      |seen| == 2 && seen[1].item.time == Plus64(end.time, Minus64(begin.time, plot.time))
  {
    hide Minus64, Plus64, SendItem;
    var s0 := CheckThread(s, thread);
    ReadNext(s.wire, ThreadContext(thread));
    assert Read(s0.wire).seen == [] && Read(s0.wire).refs.thread == s0.refs.thread == 0;
    SentInTurn(s0, begin, plot, end);
    assert SendAll(s, [LockFree(thread, [begin, plot, end])], fibers) == SendItem(SendItem(SendItem(s0, begin), plot), end) by {
      assert [LockFree(thread, [begin, plot, end])][..0] == [];
      hide CheckThread, SendItems;
    }
    hide Read, CheckThread, SendAll;
    ZoneSent(s0, begin);
    PlotSent(SendItem(s0, begin), plot);
    ZoneSent(SendItem(SendItem(s0, begin), plot), end);
    PlusMinus(0, begin.time);
    Shifted(begin.time, plot.time, end.time);
  }

  lemma ZoneSent(s: Sender, item: Item)
    requires item.kind == ZoneBegin || item.kind == ZoneEnd
    ensures var r, s' := Read(s.wire), SendItem(s, item);
      var t := Plus64(r.refs.thread, Minus64(item.time, s.refs.thread));
      && s'.refs.thread == item.time
      && Read(s'.wire) == Reader(r.thread, r.refs.(thread := t), r.seen + [Seen(r.thread, item.(time := t))])
  {
    hide Minus64, Plus64, Read;
    ReadNext(s.wire, Event(Delta(s.refs, item)));
  }

  lemma PlotSent(s: Sender, item: Item)
    requires item.kind == PlotData && !item.finite
    ensures SendItem(s, item).refs.thread == item.time && Read(SendItem(s, item).wire) == Read(s.wire)
  {
    hide Minus64, Read;
    ReadNext(s.wire, Event(Delta(s.refs, item)));
  }

  lemma SentInTurn(s: Sender, a: Item, b: Item, c: Item)
    ensures SendItems(s, [a, b, c]) == SendItem(SendItem(SendItem(s, a), b), c)
  {
    hide SendItem;
    assert [a, b, c][..2] == [a, b] && [a, b][..1] == [a] && [a][..0] == [];
    assert SendItems(s, []) == s && SendItems(s, [a]) == SendItem(s, a) && SendItems(s, [a, b]) == SendItem(SendItem(s, a), b);
  }

  lemma Shifted(a: int64, b: int64, c: int64)
    ensures Plus64(a, Minus64(c, b)) == Plus64(c, Minus64(a, b))
  {
    var q := Wraps(c - b);
    var p := Wraps(a - b);
    SameWrap(a + Minus64(c, b), c + Minus64(a, b), p - q);
  }
}
