/**
 The bounded single-producer single-consumer queue of symbol requests.

 Each method below is one load or store of emplace, front or pop, so any interleaving of a producer and a consumer is
 a sequence of calls. A slot is raw memory (None) or holds a constructed item. The ghost counters number the items;
 the index fields hold these numbers modulo the ring's size.
 */
module SpscQueue {

  import BlockArith
  import opened Options

  datatype ProducerPc<T> =
    | NotEmplacing
    | Check(item: T, writeIdx: nat, next: nat)
    | Reload(item: T, writeIdx: nat, next: nat)
    | Construct(item: T, writeIdx: nat, next: nat)
    | Publish(writeIdx: nat, next: nat)

  /** Holding: front has returned a pointer to the slot at readIdx. */
  datatype ConsumerPc = NotReading | FrontReload(readIdx: nat) | Holding(readIdx: nat) | Destroy(readIdx: nat) | Retire(readIdx: nat)

  function Wrap(k: nat, size: nat): (r: nat)
    requires size > 0
    ensures r < size
  {
    k % size
  }

  /** The increment of both indices. */
  function NextIndex(i: nat, size: nat): nat { if i + 1 == size then 0 else i + 1 }

  lemma WrapNext(k: nat, size: nat)
    requires size > 0
    ensures NextIndex(Wrap(k, size), size) == Wrap(k + 1, size)
  {
    var q, r := k / size, k % size;
    assert k == q * size + r;
    if r + 1 == size { BlockArith.ModUnique(k + 1, q + 1, 0, size); } else { BlockArith.ModUnique(k + 1, q, r + 1, size); }
  }

  lemma WrapDistinct(j: nat, k: nat, size: nat)
    requires size > 0 && j < k < j + size
    ensures Wrap(j, size) != Wrap(k, size)
  {
    var q, r := j / size, j % size;
    assert j == q * size + r;
    if r + (k - j) < size {
      BlockArith.ModUnique(k, q, r + (k - j), size);
    } else {
      BlockArith.ModUnique(k, q + 1, r + (k - j) - size, size);
    }
  }

  /** Every number of the ring falls on exactly one index in a window of size numbers. */
  lemma WrapSame(j: nat, k: nat, size: nat)
    requires size > 0 && j <= k <= j + size
    ensures Wrap(j, size) == Wrap(k, size) <==> j == k || k == j + size
  {
    if j < k < j + size { WrapDistinct(j, k, size); }
    if k == j + size {
      assert j == (j / size) * size + j % size;
      BlockArith.ModUnique(k, j / size + 1, j % size, size);
    }
  }

  /** Items numbered lo and up are constructed in their slots; every other slot, padding included, is raw memory. */
  ghost predicate SlotsHold<T>(slots: seq<Option<T>>, size: nat, pad: nat, lo: nat, log: seq<T>)
    requires size > 0 && |slots| == size + 2 * pad
  {
    && (forall k | lo <= k < |log| :: slots[pad + Wrap(k, size)] == Some(log[k]))
    && (forall k | |log| <= k < lo + size :: slots[pad + Wrap(k, size)] == None)
    && (forall i | 0 <= i < pad || size + pad <= i < |slots| :: slots[i] == None)
  }

  lemma ConstructSlot<T>(slots: seq<Option<T>>, size: nat, pad: nat, lo: nat, log: seq<T>, item: T)
    requires size > 0 && |slots| == size + 2 * pad && SlotsHold(slots, size, pad, lo, log)
    requires lo <= |log| < lo + size
    ensures slots[pad + Wrap(|log|, size)] == None
    ensures SlotsHold(slots[pad + Wrap(|log|, size) := Some(item)], size, pad, lo, log + [item])
  {
    hide Wrap;
    forall k | lo <= k < lo + size && k != |log| ensures Wrap(k, size) != Wrap(|log|, size) {
      if k < |log| { WrapDistinct(k, |log|, size); } else { WrapDistinct(|log|, k, size); }
    }
  }

  lemma DestroySlot<T>(slots: seq<Option<T>>, size: nat, pad: nat, lo: nat, log: seq<T>)
    requires size > 0 && |slots| == size + 2 * pad && SlotsHold(slots, size, pad, lo, log)
    requires lo < |log| <= lo + size
    ensures slots[pad + Wrap(lo, size)] == Some(log[lo])
    ensures SlotsHold(slots[pad + Wrap(lo, size) := None], size, pad, lo + 1, log)
  {
    hide Wrap;
    WrapSame(lo, lo + size, size);
    forall k | lo < k < lo + size ensures Wrap(k, size) != Wrap(lo, size) {
      WrapDistinct(lo, k, size);
    }
  }

  class SpscQueue<T> {
    const size: nat
    const pad: nat
    const slots: array<Option<T>>
    var writeIdx: nat
    var readIdxCache: nat
    var readIdx: nat
    var writeIdxCache: nat
    var producer: ProducerPc<T>
    var consumer: ConsumerPc

    ghost var log: seq<T>
    ghost var published: nat
    ghost var destroyed: nat
    ghost var retired: nat
    ghost var seenRetired: nat
    ghost var seenPublished: nat

    ghost predicate Valid()
      reads this, slots
    {
      && size > 0 && slots.Length == size + 2 * pad
      && seenRetired <= retired <= destroyed <= retired + 1 && destroyed <= published
      && retired <= seenPublished <= published <= |log| <= published + 1
      && |log| < seenRetired + size
      && writeIdx == Wrap(published, size) && readIdx == Wrap(retired, size)
      && readIdxCache == Wrap(seenRetired, size) && writeIdxCache == Wrap(seenPublished, size)
      && ProducerOk() && ConsumerOk()
      && SlotsHold(slots[..], size, pad, destroyed, log)
    }

    ghost predicate ProducerOk()
      reads this
      requires size > 0
    {
      && (!producer.NotEmplacing? ==> producer.writeIdx == Wrap(published, size) && producer.next == Wrap(published + 1, size))
      && (producer.Construct? ==> published + 1 < seenRetired + size)
      && (producer.Publish? <==> |log| == published + 1)
    }

    ghost predicate ConsumerOk()
      reads this
      requires size > 0
    {
      && (!consumer.NotReading? ==> consumer.readIdx == Wrap(retired, size))
      && (consumer.Holding? || consumer.Destroy? || consumer.Retire? ==> retired < seenPublished)
      && (consumer.Retire? <==> destroyed == retired + 1)
    }

    /** The queue as a bounded FIFO: published and not yet popped. */
    ghost function Contents(): seq<T>
      reads this
      requires retired <= published <= |log|
    {
      log[retired..published]
    }

    /** Everything the producer's steps leave to the consumer. */
    twostate predicate ConsumerSideUnchanged()
      reads this
    {
      && readIdx == old(readIdx) && writeIdxCache == old(writeIdxCache) && consumer == old(consumer)
      && destroyed == old(destroyed) && retired == old(retired) && seenPublished == old(seenPublished)
    }

    twostate predicate ProducerSideUnchanged()
      reads this
    {
      && writeIdx == old(writeIdx) && readIdxCache == old(readIdxCache) && producer == old(producer)
      && log == old(log) && published == old(published) && seenRetired == old(seenRetired)
    }

    constructor (capacity: nat, padding: nat)
      ensures Valid() && Contents() == [] && size == capacity + 1 && pad == padding && fresh(slots)
      ensures producer == NotEmplacing && consumer == NotReading && published == retired == 0 && log == []
    {
      size, pad := capacity + 1, padding;
      slots := new Option<T>[capacity + 1 + 2 * padding](_ => None);
      writeIdx, readIdxCache, readIdx, writeIdxCache := 0, 0, 0, 0;
      producer, consumer := NotEmplacing, NotReading;
      log, published, destroyed, retired, seenRetired, seenPublished := [], 0, 0, 0, 0, 0;
    }

    /** emplace: loads its own index and computes the next one. */
    method EmplaceBegin(item: T)
      requires Valid() && producer.NotEmplacing?
      modifies this
      ensures Valid() && ConsumerSideUnchanged() && Contents() == old(Contents()) && log == old(log) && published == old(published)
      ensures producer == Check(item, writeIdx, NextIndex(writeIdx, size))
    {
      WrapNext(published, size);
      producer := Check(item, writeIdx, NextIndex(writeIdx, size));
    }

    /** The spin test against the cached read index; a queue that looks full by the cache reloads it. */
    method EmplaceCheck()
      requires Valid() && producer.Check?
      modifies this
      ensures Valid() && ConsumerSideUnchanged() && Contents() == old(Contents()) && log == old(log) && published == old(published)
      ensures producer == if published - seenRetired == size - 1
        then Reload(old(producer).item, old(producer).writeIdx, old(producer).next)
        else Construct(old(producer).item, old(producer).writeIdx, old(producer).next)
    {
      WrapSame(seenRetired, published + 1, size);
      producer := if producer.next == readIdxCache
        then Reload(producer.item, producer.writeIdx, producer.next)
        else Construct(producer.item, producer.writeIdx, producer.next);
    }

    method EmplaceReload()
      requires Valid() && producer.Reload?
      modifies this
      ensures Valid() && ConsumerSideUnchanged() && Contents() == old(Contents()) && log == old(log) && published == old(published)
      ensures producer == Check(old(producer).item, old(producer).writeIdx, old(producer).next)
      ensures seenRetired == retired
    {
      readIdxCache := readIdx;
      seenRetired := retired;
      producer := Check(producer.item, producer.writeIdx, producer.next);
    }

    /** Constructs the item, in a slot that holds nothing. */
    method EmplaceConstruct()
      requires Valid() && producer.Construct?
      modifies this, slots
      ensures Valid() && ConsumerSideUnchanged() && Contents() == old(Contents()) && published == old(published)
      ensures log == old(log) + [old(producer).item] && producer == Publish(old(producer).writeIdx, old(producer).next)
      ensures old(slots[pad + producer.writeIdx]) == None
      ensures slots[..] == old(slots[..])[pad + old(producer).writeIdx := Some(old(producer).item)]
    {
      hide Wrap, SlotsHold;
      ConstructSlot(slots[..], size, pad, destroyed, log, producer.item);
      slots[pad + producer.writeIdx] := Some(producer.item);
      log := log + [producer.item];
      producer := Publish(producer.writeIdx, producer.next);
    }

    method EmplacePublish()
      requires Valid() && producer.Publish?
      modifies this
      ensures Valid() && ConsumerSideUnchanged() && log == old(log) && published == old(published) + 1
      ensures producer == NotEmplacing && Contents() == old(Contents()) + [log[published - 1]]
      ensures |Contents()| < size
    {
      writeIdx := producer.next;
      published := published + 1;
      producer := NotEmplacing;
    }

    /** front: loads its own index; only when the cache says empty does it look at the producer's. */
    method FrontBegin()
      requires Valid() && (consumer.NotReading? || consumer.Holding?)
      modifies this
      ensures Valid() && ProducerSideUnchanged() && Contents() == old(Contents()) && retired == old(retired)
      ensures consumer == if seenPublished == retired then FrontReload(readIdx) else Holding(readIdx)
    {
      WrapSame(retired, seenPublished, size);
      consumer := if readIdx == writeIdxCache then FrontReload(readIdx) else Holding(readIdx);
    }

    /** Returns null exactly when nothing published remains. */
    method FrontReloadCache()
      requires Valid() && consumer.FrontReload?
      modifies this
      ensures Valid() && ProducerSideUnchanged() && Contents() == old(Contents()) && retired == old(retired)
      ensures consumer == if Contents() == [] then NotReading else Holding(readIdx)
    {
      writeIdxCache := writeIdx;
      seenPublished := published;
      WrapSame(retired, published, size);
      consumer := if writeIdxCache == consumer.readIdx then NotReading else Holding(consumer.readIdx);
    }

    /** Dereferences the pointer that front returned: the oldest item. */
    method Read() returns (item: T)
      requires Valid() && consumer.Holding?
      ensures Contents() != [] && item == Contents()[0]
    {
      item := slots[pad + consumer.readIdx].value;
    }

    /** pop: loads its own index; its assert on the producer's index holds. */
    method PopBegin()
      requires Valid() && consumer.Holding?
      modifies this
      ensures Valid() && ProducerSideUnchanged() && Contents() == old(Contents()) && retired == old(retired)
      ensures writeIdx != readIdx && consumer == Destroy(readIdx)
    {
      WrapSame(retired, published, size);
      consumer := Destroy(readIdx);
    }

    /** Destroys the item, in a slot that holds the oldest one. */
    method PopDestroy()
      requires Valid() && consumer.Destroy?
      modifies this, slots
      ensures Valid() && ProducerSideUnchanged() && Contents() == old(Contents()) && retired == old(retired)
      ensures consumer == Retire(old(consumer).readIdx) && Contents() != []
      ensures old(slots[pad + consumer.readIdx]) == Some(Contents()[0])
      ensures slots[..] == old(slots[..])[pad + old(consumer).readIdx := None]
    {
      hide Wrap, SlotsHold;
      DestroySlot(slots[..], size, pad, destroyed, log);
      slots[pad + consumer.readIdx] := None;
      destroyed := destroyed + 1;
      consumer := Retire(consumer.readIdx);
    }

    method PopRetire()
      requires Valid() && consumer.Retire?
      modifies this
      ensures Valid() && ProducerSideUnchanged() && consumer == NotReading && retired == old(retired) + 1
      ensures old(Contents()) == [old(Contents()[0])] + Contents()
    {
      WrapNext(retired, size);
      readIdx := NextIndex(consumer.readIdx, size);
      retired := retired + 1;
      consumer := NotReading;
    }

    /** size() when neither index moves between its two loads; SizeWhileMoving is the general case. */
    method Size() returns (n: nat)
      requires Valid()
      ensures n == |Contents()| <= size - 1
    {
      CountOfLoads(published, retired, size);
      n := Difference(writeIdx, readIdx, size);
    }

    method Empty() returns (b: bool)
      requires Valid()
      ensures b <==> Contents() == []
    {
      WrapSame(retired, published, size);
      b := writeIdx == readIdx;
    }
  }

  /** The index difference, corrected by the ring's size when negative. */
  function Difference(write: nat, read: nat, size: nat): (n: nat)
    requires write < size && read < size
    ensures n < size
  {
    if write < read then write - read + size else write - read
  }

  /** It is the count, in number of items, reduced modulo the ring's size; so it is the count where that fits. */
  lemma CountOfLoads(written: nat, read: nat, size: nat)
    requires size > 0
    ensures Difference(Wrap(written, size), Wrap(read, size), size) == (written - read) % size
    ensures Difference(Wrap(written, size), Wrap(read, size), size) == written - read <==> 0 <= written - read < size
  {
    CountOfParts(written / size, written % size, read / size, read % size, size);
    assert written == written / size * size + written % size && read == read / size * size + read % size;
  }

  lemma CountOfParts(qw: nat, w: nat, qr: nat, r: nat, size: nat)
    requires w < size && r < size
    ensures var d := (qw * size + w) - (qr * size + r);
            Difference(w, r, size) == d % size && (Difference(w, r, size) == d <==> 0 <= d < size)
  {
    var d := (qw * size + w) - (qr * size + r);
    assert d == (qw - qr) * size + (w - r) == (qw - qr - 1) * size + (w - r + size) by {
      assert (qw - qr) * size == qw * size - qr * size;
      assert (qw - qr - 1) * size == (qw - qr) * size - size;
    }
    BlockArith.ModUnique(d, if w < r then qw - qr - 1 else qw - qr, Difference(w, r, size), size);
    if 0 <= d < size { BlockArith.ModUnique(d, 0, d, size); }
  }

  /** The items that the consumer has read when it has popped retired of them and may be popping one more. */
  ghost function Taken<T>(q: SpscQueue<T>): nat
    reads q
  {
    if q.consumer.Destroy? || q.consumer.Retire? then q.retired + 1 else q.retired
  }

  /** The producer emplaces the given items in order, one step per call. */
  ghost predicate Feeding<T(!new)>(q: SpscQueue<T>, items: seq<T>)
    reads q
  {
    && q.published <= |q.log| && q.log <= items
    && (q.producer.Check? || q.producer.Reload? || q.producer.Construct? ==>
          |q.log| == q.published < |items| && q.producer.item == items[q.published])
  }

  method ProducerTurn<T(!new)>(q: SpscQueue<T>, items: seq<T>, emplaced: nat) returns (emplaced': nat)
    requires q.Valid() && Feeding(q, items) && emplaced == q.published
    modifies q, q.slots
    ensures q.Valid() && Feeding(q, items) && emplaced' == q.published && q.ConsumerSideUnchanged() && old(q.log) <= q.log
    ensures old(q.published) <= q.published
  {
    hide SlotsHold, Wrap, SpscQueue.Valid;
    ProducerCounts(q);
    emplaced' := emplaced;
    match q.producer
    case NotEmplacing => if emplaced < |items| { q.EmplaceBegin(items[emplaced]); }
    case Check(_, _, _) => q.EmplaceCheck();
    case Reload(_, _, _) => q.EmplaceReload();
    case Construct(_, _, _) => q.EmplaceConstruct();
    case Publish(_, _) => q.EmplacePublish(); emplaced' := emplaced + 1;
  }

  lemma ProducerCounts<T(!new)>(q: SpscQueue<T>)
    requires q.Valid()
    ensures |q.log| == if q.producer.Publish? then q.published + 1 else q.published
  {
    hide SlotsHold, Wrap, SpscQueue.ConsumerOk;
  }

  /** The consumer's loop: front, then read and pop what it returns. */
  method ConsumerTurn<T(!new)>(q: SpscQueue<T>, received: seq<T>) returns (received': seq<T>)
    requires q.Valid() && Taken(q) <= |q.log| && received == q.log[..Taken(q)]
    modifies q, q.slots
    ensures q.Valid() && q.ProducerSideUnchanged() && Taken(q) <= |q.log| && received' == q.log[..Taken(q)]
    ensures old(q.retired) <= q.retired
  {
    hide SlotsHold, Wrap, SpscQueue.ProducerOk, SpscQueue.Valid;
    received' := received;
    CountsOrdered(q);
    match q.consumer
    case NotReading => q.FrontBegin();
    case FrontReload(_) => q.FrontReloadCache();
    case Holding(_) =>
      var item := q.Read();
      received' := received + [item];
      q.PopBegin();
    case Destroy(_) => q.PopDestroy();
    case Retire(_) => q.PopRetire();
    CountsOrdered(q);
  }

  lemma CountsOrdered<T(!new)>(q: SpscQueue<T>)
    requires q.Valid()
    ensures q.retired <= Taken(q) <= q.retired + 1 && Taken(q) <= q.published <= |q.log| < q.retired + q.size
    ensures q.consumer.Holding? || q.consumer.Destroy? ==> q.retired < q.published
  {
    hide SlotsHold, Wrap, SpscQueue.ProducerOk;
  }

  /**
   Under every schedule of single steps the consumer receives what the producer emplaced, in order, nothing twice and
   nothing skipped, and never lags by more than the capacity.
   */
  method Interleave<T(!new)>(capacity: nat, padding: nat, items: seq<T>, schedule: seq<bool>)
    returns (q: SpscQueue<T>, received: seq<T>)
    ensures fresh(q) && q.Valid() && received <= items
    ensures |received| <= q.published <= |q.log| && q.log <= items && q.published <= q.retired + capacity
    ensures q.retired <= |received| <= q.retired + 1
  {
    hide SlotsHold, Wrap, SpscQueue.Valid;
    q := new SpscQueue<T>(capacity, padding);
    CountsOrdered(q);
    var emplaced;
    emplaced, received := Turns(q, items, 0, [], schedule);
    CountsOrdered(q);
  }

  /** A stretch of a schedule. */
  method Turns<T(!new)>(q: SpscQueue<T>, items: seq<T>, emplaced: nat, received: seq<T>, schedule: seq<bool>)
    returns (emplaced': nat, received': seq<T>)
    requires q.Valid() && Feeding(q, items) && emplaced == q.published
    requires Taken(q) <= |q.log| && received == q.log[..Taken(q)]
    modifies q, q.slots
    ensures q.Valid() && Feeding(q, items) && emplaced' == q.published
    ensures Taken(q) <= |q.log| && received' == q.log[..Taken(q)]
    ensures old(q.published) <= q.published && old(q.retired) <= q.retired
    ensures (forall turn <- schedule :: turn) ==> q.retired == old(q.retired)
    ensures (forall turn <- schedule :: !turn) ==> q.published == old(q.published)
  {
    hide SlotsHold, Wrap, SpscQueue.Valid;
    emplaced', received' := emplaced, received;
    for i := 0 to |schedule|
      invariant q.Valid() && Feeding(q, items) && emplaced' == q.published
      invariant Taken(q) <= |q.log| && received' == q.log[..Taken(q)]
      invariant old(q.published) <= q.published && old(q.retired) <= q.retired
      invariant (forall turn <- schedule :: turn) ==> q.retired == old(q.retired)
      invariant (forall turn <- schedule :: !turn) ==> q.published == old(q.published)
    {
      assert schedule[i] in schedule;
      if schedule[i] {
        emplaced' := ProducerTurn(q, items, emplaced');
      } else {
        received' := ConsumerTurn(q, received');
      }
    }
  }

  /**
   size() while both threads go on between its two loads, which the program may do in either order. The result is
   always below the ring's size. With the write index loaded first it is what was published then less what is popped
   now, exactly if not more has been popped; with the read index loaded first, what is published now less what was
   popped then, exactly if that fits. So a thread that uses the queue itself gets the size at one of the two loads.
   */
  method SizeWhileMoving<T(!new)>(q: SpscQueue<T>, items: seq<T>, emplaced: nat, received: seq<T>, schedule: seq<bool>, write_first: bool)
    returns (n: nat, emplaced': nat, received': seq<T>)
    requires q.Valid() && Feeding(q, items) && emplaced == q.published
    requires Taken(q) <= |q.log| && received == q.log[..Taken(q)]
    modifies q, q.slots
    ensures q.Valid() && Feeding(q, items) && emplaced' == q.published
    ensures Taken(q) <= |q.log| && received' == q.log[..Taken(q)]
    ensures n < q.size
    ensures write_first ==> (n == old(q.published) - q.retired <==> q.retired <= old(q.published))
    ensures !write_first ==> (n == q.published - old(q.retired) <==> q.published - old(q.retired) < q.size)
    ensures (forall turn <- schedule :: turn) ==> n == if write_first then |old(q.Contents())| else |q.Contents()|
    ensures (forall turn <- schedule :: !turn) ==> n == if write_first then |q.Contents()| else |old(q.Contents())|
  {
    hide SlotsHold, Wrap, SpscQueue.Valid;
    CountsOrdered(q);
    IndicesWrap(q);
    var first := if write_first then q.writeIdx else q.readIdx;
    emplaced', received' := Turns(q, items, emplaced, received, schedule);
    CountsOrdered(q);
    IndicesWrap(q);
    if write_first {
      CountOfLoads(old(q.published), q.retired, q.size);
      n := Difference(first, q.readIdx, q.size);
    } else {
      CountOfLoads(q.published, old(q.retired), q.size);
      n := Difference(q.writeIdx, first, q.size);
    }
  }

  lemma IndicesWrap<T(!new)>(q: SpscQueue<T>)
    requires q.Valid()
    ensures q.size > 0 && q.writeIdx == Wrap(q.published, q.size) && q.readIdx == Wrap(q.retired, q.size)
  {
  }
}
