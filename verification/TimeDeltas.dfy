/**
 Timestamps on the wire are differences: the profiler keeps one reference per clock, rewrites each item's time in
 place to its distance from the reference, and the reader keeps the same references and adds them back.
 */
module TimeDeltas {

  import opened Int64

  /** Two's complement arithmetic of 64-bit timestamps. */
  function Wrap64(x: int): (r: int64) { (x + HALF64) % WORD64 - HALF64 }

  function Minus64(a: int, b: int): int64 { Wrap64(a - b) }

  /** The queue item types named by the two dequeue loops; Plain stands for the others, which both loops pass on. */
  datatype QueueType =
    | ZoneText | ZoneName | Message | MessageColor | MessageCallstack | MessageColorCallstack | MessageAppInfo
    | ZoneBeginAllocSrcLoc | ZoneBeginAllocSrcLocCallstack | CallstackSerial | Callstack | CallstackAlloc
    | CallstackSample | CallstackSampleContextSwitch | FrameImage | ZoneBegin | ZoneBeginCallstack | ZoneEnd
    | LockWait | LockObtain | LockRelease | LockSharedWait | LockSharedObtain | LockSharedRelease | LockName
    | MemAlloc | MemAllocNamed | MemFree | MemFreeNamed
    | MemAllocCallstack | MemAllocCallstackNamed | MemFreeCallstack | MemFreeCallstackNamed
    | GpuZoneBegin | GpuZoneBeginCallstack | GpuZoneBeginAllocSrcLoc | GpuZoneBeginAllocSrcLocCallstack | GpuZoneEnd
    | GpuZoneBeginSerial | GpuZoneBeginCallstackSerial | GpuZoneBeginAllocSrcLocSerial
    | GpuZoneBeginAllocSrcLocCallstackSerial | GpuZoneEndSerial
    | PlotData | ContextSwitch | ThreadWakeup | GpuTime | GpuContextName
    | CallstackFrameSize | SymbolInformation | CodeInformation | ExternalNameMetadata | SymbolCodeMetadata
    | FiberEnter | FiberLeave
    | ZoneColor | ZoneValue | ZoneValidation | CrashReport
    | MessageLiteral | MessageLiteralColor | MessageLiteralCallstack | MessageLiteralColorCallstack
    | Plain

  datatype Clock = Untimed | ThreadClock | SerialClock | ContextClock | GpuClock

  /** Which reference the two loops measure an item's time against. */
  function ClockOf(k: QueueType): Clock {
    match k
    case ZoneBegin | ZoneBeginCallstack | ZoneBeginAllocSrcLoc | ZoneBeginAllocSrcLocCallstack | ZoneEnd => ThreadClock
    case GpuZoneBegin | GpuZoneBeginCallstack | GpuZoneBeginAllocSrcLoc | GpuZoneBeginAllocSrcLocCallstack | GpuZoneEnd => ThreadClock
    case PlotData | FiberEnter | FiberLeave => ThreadClock
    case CallstackSample | CallstackSampleContextSwitch | ContextSwitch | ThreadWakeup => ContextClock
    case GpuTime => GpuClock
    case LockWait | LockObtain | LockRelease | LockSharedWait | LockSharedObtain | LockSharedRelease => SerialClock
    case MemAlloc | MemAllocNamed | MemAllocCallstack | MemAllocCallstackNamed => SerialClock
    case MemFree | MemFreeNamed | MemFreeCallstack | MemFreeCallstackNamed => SerialClock
    case GpuZoneBeginSerial | GpuZoneBeginCallstackSerial | GpuZoneEndSerial => SerialClock
    case GpuZoneBeginAllocSrcLocSerial | GpuZoneBeginAllocSrcLocCallstackSerial => SerialClock
    case _ => Untimed
  }

  /** Two types carry strings only and put no item of their own on the wire. */
  predicate OnWire(k: QueueType) { !k.ExternalNameMetadata? && !k.SymbolCodeMetadata? }

  /** With fibers, the serial queue carries the items that belong to a thread, and each names it. */
  predicate NamesThread(k: QueueType) {
    match k
    case ZoneBegin | ZoneBeginCallstack | ZoneBeginAllocSrcLoc | ZoneBeginAllocSrcLocCallstack | ZoneEnd => true
    case ZoneText | ZoneName | Message | MessageCallstack | MessageColor | MessageColorCallstack => true
    case Callstack | CallstackAlloc | FiberEnter | FiberLeave => true
    case ZoneColor | ZoneValue | ZoneValidation | CrashReport => true
    case MessageLiteral | MessageLiteralColor | MessageLiteralCallstack | MessageLiteralColorCallstack => true
    case _ => false
  }

  /** The types that reach the lock-free loop's assert(false). */
  predicate LockFreeType(k: QueueType) {
    !ClockOf(k).SerialClock? && !k.FiberEnter? && !k.FiberLeave? && !k.CallstackSerial? && !k.LockName?
  }

  /** The types that the serial loop handles. */
  predicate SerialType(k: QueueType, fibers: bool) {
    || ClockOf(k).SerialClock? || k.CallstackSerial? || k.LockName? || k.GpuTime? || k.GpuContextName? || k.Plain?
    || k.ZoneColor? || k.ZoneValue? || k.ZoneValidation? || k.CrashReport?
    || k.MessageLiteral? || k.MessageLiteralColor? || k.MessageLiteralCallstack? || k.MessageLiteralColorCallstack?
    || (fibers && NamesThread(k))
  }

  /** finite is about the value of a plot item, which may be NaN or infinite. */
  datatype Item = Item(kind: QueueType, thread: nat, time: int64, finite: bool, rest: int)

  datatype Wire = ThreadContext(thread: nat) | Event(item: Item)

  /** One absolute time per clock. */
  datatype Refs = Refs(thread: int64, serial: int64, context: int64, gpu: int64)

  function RefOf(r: Refs, c: Clock): int64 {
    match c
    case ThreadClock => r.thread
    case SerialClock => r.serial
    case ContextClock => r.context
    case GpuClock => r.gpu
    case Untimed => 0
  }

  function SetRef(r: Refs, c: Clock, t: int64): Refs {
    match c
    case ThreadClock => r.(thread := t)
    case SerialClock => r.(serial := t)
    case ContextClock => r.(context := t)
    case GpuClock => r.(gpu := t)
    case Untimed => r
  }

  // ----- the sender as a function -----

  datatype Sender = Sender(threadCtx: nat, refs: Refs, wire: seq<Wire>)

  function Delta(r: Refs, item: Item): Item {
    if ClockOf(item.kind).Untimed? then item else item.(time := Minus64(item.time, RefOf(r, ClockOf(item.kind))))
  }

  function CheckThread(s: Sender, threadId: nat): Sender {
    if s.threadCtx == threadId then s
    else Sender(threadId, s.refs.(thread := 0), s.wire + [ThreadContext(threadId)])
  }

  function SendItem(s: Sender, item: Item): Sender {
    s.(refs := SetRef(s.refs, ClockOf(item.kind), item.time),
       wire := if OnWire(item.kind) then s.wire + [Event(Delta(s.refs, item))] else s.wire)
  }

  function SendItems(s: Sender, items: seq<Item>): Sender {
    if items == [] then s else SendItem(SendItems(s, items[..|items| - 1]), items[|items| - 1])
  }

  function SendSerialItem(s: Sender, item: Item, fibers: bool): Sender {
    SendItem(if fibers && NamesThread(item.kind) then CheckThread(s, item.thread) else s, item)
  }

  function SendSerialItems(s: Sender, items: seq<Item>, fibers: bool): Sender {
    if items == [] then s else SendSerialItem(SendSerialItems(s, items[..|items| - 1], fibers), items[|items| - 1], fibers)
  }

  /** The items that the disconnect path still sends: context switches up to the first one past timeStop. */
  function Drained(items: seq<Item>, timeStop: int64): (r: seq<Item>)
    ensures |r| <= |items|
  {
    if items == [] then []
    else if !Drains(items[0].kind) then Drained(items[1..], timeStop)
    else if items[0].time > timeStop then []
    else [items[0]] + Drained(items[1..], timeStop)
  }

  /** -1 once a context switch past timeStop was met. */
  function DrainedTo(items: seq<Item>, timeStop: int64): int64 {
    if items == [] then timeStop
    else if Drains(items[0].kind) && items[0].time > timeStop then -1
    else DrainedTo(items[1..], timeStop)
  }

  predicate Drains(k: QueueType) { k.ContextSwitch? || k.ThreadWakeup? }

  predicate Past(item: Item, timeStop: int64) {
    (item.kind == ContextSwitch || item.kind == ThreadWakeup) && item.time > timeStop
  }

  /** Where the disconnect path stops: at the first context switch or wakeup past timeStop. */
  function StopAt(items: seq<Item>, timeStop: int64): (n: nat)
    ensures n <= |items| && (n < |items| ==> Past(items[n], timeStop))
    ensures forall i | 0 <= i < n :: !Past(items[i], timeStop)
  {
    if items == [] || Past(items[0], timeStop) then 0 else 1 + StopAt(items[1..], timeStop)
  }

  /** These places of the items before n, in order, are all context switches and wakeups there. */
  predicate Selects(places: seq<nat>, items: seq<Item>, n: nat)
    requires n <= |items|
  {
    && (forall j | 0 <= j < |places| :: places[j] < n)
    && (forall j, k | 0 <= j < k < |places| :: places[j] < places[k])
    && (forall i | 0 <= i < n :: i in places <==> items[i].kind == ContextSwitch || items[i].kind == ThreadWakeup)
  }

  predicate Picks(items: seq<Item>, places: seq<nat>, picked: seq<Item>) {
    |picked| == |places| && forall j | 0 <= j < |places| :: places[j] < |items| && picked[j] == items[places[j]]
  }

  /** The same places, seen from one item earlier. */
  function Moved(places: seq<nat>): (r: seq<nat>)
    ensures |r| == |places| && forall j | 0 <= j < |r| :: r[j] == places[j] + 1
  {
    seq(|places|, j requires 0 <= j < |places| => places[j] + 1)
  }

  lemma MovedPicks(items: seq<Item>, picked: seq<Item>, rest: seq<nat>, moved: seq<nat>)
    requires items != [] && Picks(items[1..], rest, picked)
    requires |moved| == |rest| && forall j | 0 <= j < |rest| :: moved[j] == rest[j] + 1
    ensures Picks(items, [0] + moved, [items[0]] + picked) && Picks(items, moved, [] + picked)
  {
  }

  /** What goes out are the context switches and wakeups before the stop, each once and in order; -1 reports the stop. */
  lemma {:induction false} DrainedSelects(items: seq<Item>, timeStop: int64) returns (places: seq<nat>)
    ensures Selects(places, items, StopAt(items, timeStop))
    ensures Picks(items, places, Drained(items, timeStop))
    ensures DrainedTo(items, timeStop) == if StopAt(items, timeStop) < |items| then -1 else timeStop
  {
    hide Selects, Drains, Past, Drained, StopAt, DrainedTo;
    places := [];
    if items == [] || Past(items[0], timeStop) {
      NothingDrained(items, timeStop);
      return;
    }
    FirstDrained(items, timeStop);
    var rest := DrainedSelects(items[1..], timeStop);
    hide Picks;
    places := if Drains(items[0].kind) then [0] + Moved(rest) else Moved(rest);
    MovedPicks(items, Drained(items[1..], timeStop), rest, Moved(rest));
    MovedSelects(items, rest, Moved(rest), places, StopAt(items[1..], timeStop));
  }

  lemma NothingDrained(items: seq<Item>, timeStop: int64)
    requires items == [] || Past(items[0], timeStop)
    ensures Drained(items, timeStop) == [] && StopAt(items, timeStop) == 0 && Selects([], items, 0) && Picks(items, [], [])
    ensures DrainedTo(items, timeStop) == if items == [] then timeStop else -1
  {
  }

  lemma FirstDrained(items: seq<Item>, timeStop: int64)
    requires items != [] && !Past(items[0], timeStop)
    ensures Drained(items, timeStop) == (if Drains(items[0].kind) then [items[0]] else []) + Drained(items[1..], timeStop)
    ensures StopAt(items, timeStop) == 1 + StopAt(items[1..], timeStop)
    ensures DrainedTo(items, timeStop) == DrainedTo(items[1..], timeStop)
  {
  }

  lemma MovedSelects(items: seq<Item>, rest: seq<nat>, moved: seq<nat>, places: seq<nat>, n: nat)
    requires items != [] && n < |items| && Selects(rest, items[1..], n)
    requires |moved| == |rest| && forall j | 0 <= j < |rest| :: moved[j] == rest[j] + 1
    requires places == if Drains(items[0].kind) then [0] + moved else moved
    ensures Selects(places, items, n + 1)
  {
    forall i | 0 < i < n + 1 ensures i in places <==> items[i].kind == ContextSwitch || items[i].kind == ThreadWakeup {
      assert items[i] == items[1..][i - 1];
      if i - 1 in rest {
        var j :| 0 <= j < |rest| && rest[j] == i - 1;
        assert moved[j] == i && moved[j] in moved;
      }
      if i in moved {
        var j :| 0 <= j < |moved| && moved[j] == i;
        assert rest[j] in rest;
      }
    }
  }

  /** The profiler's side of a connection. wire is what AppendData has been given. */
  class Profiler {
    var m_threadCtx: nat
    var m_refTimeThread: int64
    var m_refTimeSerial: int64
    var m_refTimeCtx: int64
    var m_refTimeGpu: int64
    var wire: seq<Wire>
    const fibers: bool

    ghost function State(): Sender
      reads this
    {
      Sender(m_threadCtx, Refs(m_refTimeThread, m_refTimeSerial, m_refTimeCtx, m_refTimeGpu), wire)
    }

    constructor (fibers: bool)
      ensures State() == Sender(0, Refs(0, 0, 0, 0), []) && this.fibers == fibers
    {
      m_threadCtx, m_refTimeThread, m_refTimeSerial, m_refTimeCtx, m_refTimeGpu := 0, 0, 0, 0, 0;
      wire := [];
      this.fibers := fibers;
    }

    /** A new connection keeps the thread reference of the one before. */
    method Connect()
      modifies this
      ensures State() == Sender(0, Refs(old(m_refTimeThread), 0, 0, 0), [])
    {
      m_threadCtx := 0;
      m_refTimeSerial := 0;
      m_refTimeCtx := 0;
      m_refTimeGpu := 0;
      wire := [];
    }

    method ThreadCtxCheck(threadId: nat) returns (changed: bool)
      modifies this`m_threadCtx, this`m_refTimeThread, this`wire
      ensures State() == CheckThread(old(State()), threadId) && changed == (old(m_threadCtx) != threadId)
      ensures changed ==> m_refTimeThread == 0
    {
      if m_threadCtx == threadId { return false; }
      wire := wire + [ThreadContext(threadId)];
      m_threadCtx := threadId;
      m_refTimeThread := 0;
      return true;
    }

    /** The lock-free loop over one run of items of a block: times are rewritten in place. */
    method ProcessItems(items: array<Item>)
      requires forall i | 0 <= i < items.Length :: LockFreeType(items[i].kind)
      modifies this, items
      ensures State() == SendItems(old(State()), old(items[..]))
    {
      ghost var was, old_items := State(), items[..];
      var refThread, refCtx, refGpu := m_refTimeThread, m_refTimeCtx, m_refTimeGpu;
      var i := 0;
      while i < items.Length
        invariant 0 <= i <= items.Length && items[i..] == old_items[i..]
        invariant Sender(m_threadCtx, Refs(refThread, m_refTimeSerial, refCtx, refGpu), wire) == SendItems(was, old_items[..i])
      {
        SendNext(was, old_items, i);
        assert items[i] == items[i..][0] == old_items[i];
        var t := items[i].time;
        match ClockOf(items[i].kind) {
          case ThreadClock =>
            items[i] := items[i].(time := Minus64(t, refThread));
            refThread := t;
          case ContextClock =>
            items[i] := items[i].(time := Minus64(t, refCtx));
            refCtx := t;
          case GpuClock =>
            items[i] := items[i].(time := Minus64(t, refGpu));
            refGpu := t;
          case Untimed =>
        }
        if OnWire(items[i].kind) { wire := wire + [Event(items[i])]; }
        i := i + 1;
      }
      assert old_items[..i] == old_items;
      m_refTimeThread, m_refTimeCtx, m_refTimeGpu := refThread, refCtx, refGpu;
    }

    /** One call of the lock-free dequeue: the producer's thread is announced, then its items are sent. */
    method Dequeue(threadId: nat, items: array<Item>)
      requires forall i | 0 <= i < items.Length :: LockFreeType(items[i].kind)
      modifies this, items
      ensures State() == SendItems(CheckThread(old(State()), threadId), old(items[..]))
    {
      var _ := ThreadCtxCheck(threadId);
      ProcessItems(items);
    }

    /** The serial loop; with fibers it checks the thread of each item that names one. */
    method DequeueSerial(items: array<Item>)
      requires forall i | 0 <= i < items.Length :: SerialType(items[i].kind, fibers)
      modifies this, items
      ensures State() == SendSerialItems(old(State()), old(items[..]), fibers)
    {
      hide SerialType, ClockOf, NamesThread, OnWire, SendSerialItems;
      ghost var was, old_items := State(), items[..];
      SendSerialNone(was, fibers);
      var refSerial, refGpu, refThread := m_refTimeSerial, m_refTimeGpu, m_refTimeThread;
      var i := 0;
      while i < items.Length
        invariant 0 <= i <= items.Length && items[i..] == old_items[i..]
        invariant Sender(m_threadCtx, Refs(refThread, refSerial, m_refTimeCtx, refGpu), wire) == SendSerialItems(was, old_items[..i], fibers)
        invariant !fibers ==> refThread == m_refTimeThread
      {
        SendSerialNext(was, old_items, i, fibers);
        assert items[i] == items[i..][0] == old_items[i];
        SerialFacts(items[i].kind, fibers);
        if fibers && NamesThread(items[i].kind) {
          var changed := ThreadCtxCheck(items[i].thread);
          if changed { refThread := 0; }
        }
        var t := items[i].time;
        match ClockOf(items[i].kind) {
          case SerialClock =>
            items[i] := items[i].(time := Minus64(t, refSerial));
            refSerial := t;
          case GpuClock =>
            items[i] := items[i].(time := Minus64(t, refGpu));
            refGpu := t;
          case ThreadClock =>
            items[i] := items[i].(time := Minus64(t, refThread));
            refThread := t;
          case Untimed =>
        }
        wire := wire + [Event(items[i])];
        i := i + 1;
      }
      assert old_items[..i] == old_items;
      m_refTimeSerial, m_refTimeGpu := refSerial, refGpu;
      if fibers { m_refTimeThread := refThread; }
    }

    /** The disconnect path: context switches up to timeStop go out, everything else is dropped. */
    method DequeueContextSwitches(items: array<Item>, timeStop: int64) returns (timeStop': int64)
      modifies this, items
      ensures timeStop < 0 ==> timeStop' == timeStop && State() == old(State())
      ensures timeStop >= 0 ==> State() == SendItems(old(State()), Drained(old(items[..]), timeStop))
      ensures timeStop >= 0 ==> timeStop' == DrainedTo(old(items[..]), timeStop)
    {
      if timeStop < 0 { return timeStop; }
      hide SendItems, SendItem, Drained, DrainedTo, DrainedSoFar, Drains, ClockOf, Minus64;
      ghost var was, old_items, done := State(), items[..], [];
      var refCtx: int64 := m_refTimeCtx;
      var i := 0;
      DrainStart(was, old_items, timeStop);
      while i < items.Length
        invariant 0 <= i <= items.Length && items[i..] == old_items[i..]
        invariant Sender(m_threadCtx, Refs(m_refTimeThread, m_refTimeSerial, refCtx, m_refTimeGpu), wire) == SendItems(was, done)
        invariant DrainedSoFar(old_items, i, timeStop, done)
      {
        assert items[i] == items[i..][0] == old_items[i];
        DrainNext(old_items, i, timeStop, done);
        if Drains(items[i].kind) {
          var t := items[i].time;
          if t > timeStop {
            m_refTimeCtx := refCtx;
            return -1;
          }
          SendContextItem(was, done, old_items[i]);
          done := done + [old_items[i]];
          items[i] := items[i].(time := Minus64(t, refCtx));
          refCtx := t;
          wire := wire + [Event(items[i])];
        }
        i := i + 1;
      }
      DrainEnd(old_items, timeStop, done);
      m_refTimeCtx := refCtx;
      return timeStop;
    }
  }

  /** How an item on the context switch clock extends what was sent. */
  lemma SendContextItem(s: Sender, items: seq<Item>, item: Item)
    requires Drains(item.kind)
    ensures var r := SendItems(s, items);
      SendItems(s, items + [item]) == Sender(r.threadCtx, r.refs.(context := item.time),
        r.wire + [Event(item.(time := Minus64(item.time, r.refs.context)))])
  {
    hide SendItems, ClockOf, Minus64;
    DrainsFacts(item.kind);
    SendAppend(s, items, item);
  }

  lemma DrainsFacts(k: QueueType)
    requires Drains(k)
    ensures ClockOf(k) == ContextClock && OnWire(k)
  {
  }

  lemma SendAppend(s: Sender, items: seq<Item>, item: Item)
    ensures SendItems(s, items + [item]) == SendItem(SendItems(s, items), item)
  {
    assert (items + [item])[..|items|] == items;
  }

  ghost predicate DrainedSoFar(items: seq<Item>, i: nat, timeStop: int64, done: seq<Item>) {
    && i <= |items| && Drained(items, timeStop) == done + Drained(items[i..], timeStop)
    && DrainedTo(items, timeStop) == DrainedTo(items[i..], timeStop)
  }

  lemma DrainStart(s: Sender, items: seq<Item>, timeStop: int64)
    ensures SendItems(s, []) == s && DrainedSoFar(items, 0, timeStop, [])
  {
    assert items[0..] == items;
  }

  /** One item of the disconnect path: skipped, past the stop, or sent. */
  lemma DrainNext(items: seq<Item>, i: nat, timeStop: int64, done: seq<Item>)
    requires i < |items| && DrainedSoFar(items, i, timeStop, done)
    ensures !Drains(items[i].kind) ==> DrainedSoFar(items, i + 1, timeStop, done)
    ensures Drains(items[i].kind) && items[i].time > timeStop ==> Drained(items, timeStop) == done && DrainedTo(items, timeStop) == -1
    ensures Drains(items[i].kind) && items[i].time <= timeStop ==> DrainedSoFar(items, i + 1, timeStop, done + [items[i]])
  {
    assert items[i..][1..] == items[i + 1..];
    assert done + [] == done;
    assert (done + [items[i]]) + Drained(items[i + 1..], timeStop) == done + ([items[i]] + Drained(items[i + 1..], timeStop));
  }

  lemma DrainEnd(items: seq<Item>, timeStop: int64, done: seq<Item>)
    requires DrainedSoFar(items, |items|, timeStop, done)
    ensures Drained(items, timeStop) == done && DrainedTo(items, timeStop) == timeStop
  {
  }

  lemma SerialFacts(k: QueueType, fibers: bool)
    requires SerialType(k, fibers)
    ensures OnWire(k) && !ClockOf(k).ContextClock? && (ClockOf(k).ThreadClock? ==> fibers)
  {
  }

  lemma SendSerialNone(s: Sender, fibers: bool)
    ensures SendSerialItems(s, [], fibers) == s
  {
  }

  lemma SendSerialNext(s: Sender, items: seq<Item>, i: nat, fibers: bool)
    requires i < |items|
    ensures SendSerialItems(s, items[..i + 1], fibers) == SendSerialItem(SendSerialItems(s, items[..i], fibers), items[i], fibers)
  {
    assert items[..i + 1][..i] == items[..i];
  }

  lemma SendNext(s: Sender, items: seq<Item>, i: nat)
    requires i < |items|
    ensures SendItems(s, items[..i + 1]) == SendItem(SendItems(s, items[..i]), items[i])
  {
    assert items[..i + 1][..i] == items[..i];
  }
}
