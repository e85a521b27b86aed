/**
 How the consumer walks over the producers.

 Producers are numbered in the order they joined the list. The list is prepend-only: the producer numbered p links
 to p - 1, producer 0 ends the list, and the tail is the newest. A call of try_dequeue_bulk_single looks at one
 producer after another while all of them go on enqueueing: available(k, p) is what producer p holds when the call
 makes its k-th attempt.
 */
module ProducerRotation {

  import BlockArith
  import opened Options

  type Producer = nat

  const QUOTA: nat := 8192
  const WORD32: nat := 0x1_0000_0000

  function Min(a: nat, b: nat): nat { if a < b then a else b }

  /** The step of both loops: the next link, or the tail at the end of the list. */
  function NextProducer(n: nat, p: Producer): Producer
    requires p < n
  {
    if p == 0 then n - 1 else p - 1
  }

  /** The producer k links after p in a ring of n. */
  function Ahead(n: nat, p: Producer, k: nat): (r: Producer)
    requires p < n
    ensures r < n
  {
    (p - k) % n
  }

  /** How many links lead from p to q. */
  function Distance(n: nat, p: Producer, q: Producer): (r: nat)
    requires p < n && q < n
    ensures r < n
  {
    (p - q) % n
  }

  lemma AheadNext(n: nat, p: Producer, k: nat)
    requires p < n
    ensures NextProducer(n, Ahead(n, p, k)) == Ahead(n, p, k + 1) && Ahead(n, p, 0) == p
  {
    var a := p - k;
    assert a == (a / n) * n + a % n;
    if a % n == 0 { BlockArith.ModUnique(a - 1, a / n - 1, n - 1, n); } else { BlockArith.ModUnique(a - 1, a / n, a % n - 1, n); }
  }

  lemma AheadAhead(n: nat, p: Producer, j: nat, k: nat)
    requires p < n
    ensures Ahead(n, Ahead(n, p, j), k) == Ahead(n, p, j + k)
  {
    BlockArith.ModShift(p - j, (-1) * k, n);
  }

  /** A producer is met exactly after its distance, modulo the ring. */
  lemma AheadDistance(n: nat, p: Producer, q: Producer, k: nat)
    requires p < n && q < n && k < n
    ensures Ahead(n, p, k) == q <==> k == Distance(n, p, q)
  {
    if Ahead(n, p, k) == q {
      var t := (p - k) / n;
      assert p - k == t * n + q;
      assert p - q == t * n + k;
      BlockArith.ModUnique(p - q, t, k, n);
    } else if k == Distance(n, p, q) {
      var t := (p - q) / n;
      assert p - q == t * n + k && p - k == t * n + q;
      BlockArith.ModUnique(p - k, t, q, n);
    }
  }

  lemma DistanceAhead(n: nat, p: Producer, q: Producer, k: nat)
    requires p < n && q < n && k <= Distance(n, p, q)
    ensures Distance(n, Ahead(n, p, k), q) == Distance(n, p, q) - k
  {
    var d := Distance(n, p, q);
    AheadDistance(n, p, q, d);
    AheadAhead(n, p, k, d - k);
    AheadDistance(n, Ahead(n, p, k), q, d - k);
  }

  /** How many links from the tail a token starts; the offset counts from the start of the list. */
  function Offset(prodCount: nat, initialOffset: nat): (r: nat)
    requires prodCount > 0
    ensures r < prodCount
  {
    prodCount - 1 - initialOffset % prodCount
  }

  /** How many links a token moves for a changed global offset, in uint32 arithmetic. */
  function Turn(prodCount: nat, lastKnown: nat, globalOffset: nat): (r: nat)
    requires prodCount > 0
    ensures r < prodCount
  {
    var delta := (globalOffset - lastKnown) % WORD32;
    if delta >= prodCount then delta % prodCount else delta
  }

  /** The consumer's token: uint32 counters and two pointers into the producer list. */
  class ConsumerToken {
    const initialOffset: nat
    var lastKnownGlobalOffset: nat
    var itemsConsumedFromCurrent: nat
    var currentProducer: Option<Producer>
    var desiredProducer: Option<Producer>

    ghost predicate Valid()
      reads this
    {
      && initialOffset < WORD32 && lastKnownGlobalOffset < WORD32 && itemsConsumedFromCurrent < WORD32
      && (desiredProducer.Some? <==> currentProducer.Some?)
    }

    /** Both pointers lead into the first n producers. */
    ghost predicate Within(n: nat)
      reads this
    {
      && (desiredProducer.Some? ==> desiredProducer.value < n)
      && (currentProducer.Some? ==> currentProducer.value < n)
    }

    constructor (consumerId: nat)
      requires consumerId < WORD32
      ensures Valid() && Within(0) && initialOffset == consumerId && desiredProducer == None
      ensures lastKnownGlobalOffset == WORD32 - 1
    {
      initialOffset := consumerId;
      lastKnownGlobalOffset := WORD32 - 1;
      itemsConsumedFromCurrent := 0;
      currentProducer := None;
      desiredProducer := None;
    }

    /** Walks to the producer this token is to start from; prodCount may run ahead of the n producers linked. */
    method UpdateCurrentProducer(n: nat, prodCount: nat, globalOffset: nat) returns (ok: bool)
      requires Valid() && Within(n) && n <= prodCount < WORD32 && globalOffset < WORD32
      modifies this
      ensures Valid() && Within(n) && ok == (n > 0)
      ensures !ok ==> unchanged(this)
      ensures ok ==>
        var start := match old(desiredProducer)
          case Some(p) => p
          case None => Ahead(n, n - 1, Offset(prodCount, initialOffset));
        && currentProducer == desiredProducer
        && desiredProducer == Some(Ahead(n, start, Turn(prodCount, old(lastKnownGlobalOffset), globalOffset)))
        && lastKnownGlobalOffset == globalOffset && itemsConsumedFromCurrent == 0
    {
      hide Ahead, Offset, Turn;
      if desiredProducer == None && n == 0 { return false; }
      var desired;
      if desiredProducer == None {
        var offset := Offset(prodCount, initialOffset);
        desired := n - 1;
        var i := 0;
        AheadNext(n, n - 1, 0);
        while i != offset
          invariant unchanged(this) && 0 <= i <= offset && desired < n && desired == Ahead(n, n - 1, i)
        {
          AheadNext(n, n - 1, i);
          desired := NextProducer(n, desired);
          i := i + 1;
        }
      } else {
        desired := desiredProducer.value;
      }
      ghost var start := desired;
      assert start == match old(desiredProducer)
        case Some(p) => p
        case None => Ahead(n, n - 1, Offset(prodCount, initialOffset));
      var delta := Turn(prodCount, lastKnownGlobalOffset, globalOffset);
      assert delta == Turn(prodCount, old(lastKnownGlobalOffset), globalOffset);
      var i := 0;
      AheadNext(n, start, 0);
      while i != delta
        invariant 0 <= i <= delta && desired < n && desired == Ahead(n, start, i)
      {
        AheadNext(n, start, i);
        desired := NextProducer(n, desired);
        i := i + 1;
      }
      desiredProducer := Some(desired);
      lastKnownGlobalOffset := globalOffset;
      currentProducer := Some(desired);
      itemsConsumedFromCurrent := 0;
      return true;
    }

    /**
     One call with n producers linked at its end (seen of them when it looked for its start). Its j-th attempt is at
     the producer j links after the first, until one gives something: at most the quota of what it holds.
     */
    method TryDequeueBulkSingle(n: nat, seen: nat, prodCount: nat, globalOffset: nat, available: (nat, Producer) -> nat)
      returns (count: nat, ghost first: Producer, ghost attempts: nat)
      requires Valid() && Within(seen) && seen <= n && seen <= prodCount < WORD32 && globalOffset < WORD32
      modifies this
      ensures Valid() && Within(n)
      ensures seen == 0 ==> unchanged(this) && count == attempts == 0
      ensures seen > 0 ==> currentProducer.Some? && Served(n, available, first, attempts, count, currentProducer.value)
      ensures old(desiredProducer).Some? && old(lastKnownGlobalOffset) == globalOffset ==>
        first == old(currentProducer).value && lastKnownGlobalOffset == globalOffset && desiredProducer == old(desiredProducer)
    {
      hide Ahead, Distance, Offset, Turn;
      if desiredProducer == None || lastKnownGlobalOffset != globalOffset {
        var ok := UpdateCurrentProducer(seen, prodCount, globalOffset);
        if !ok { return 0, 0, 0; }
      }
      var current := currentProducer.value;
      count, first, attempts := Min(QUOTA, available(0, current)), current, 1;
      itemsConsumedFromCurrent := (itemsConsumedFromCurrent + count) % WORD32;
      AheadNext(n, current, 0);
      var ptr := NextProducer(n, current);
      if count == 0 {
        var attempt := 1;
        label FirstTried:
        while ptr != current
          invariant attempts == attempt && 1 <= attempt <= n && ptr < n && ptr == Ahead(n, current, attempt)
          invariant unchanged@FirstTried(this)
          invariant forall j | 0 <= j < attempt :: available(j, Ahead(n, current, j)) == 0
          decreases n - attempt
        {
          if attempt == n { AheadAround(n, current); assert false; }
          var dequeued := Min(QUOTA, available(attempt, ptr));
          attempt, attempts := attempt + 1, attempts + 1;
          if dequeued != 0 {
            currentProducer := Some(ptr);
            itemsConsumedFromCurrent := dequeued;
            return dequeued, first, attempts;
          }
          AheadNext(n, current, attempt - 1);
          ptr := NextProducer(n, ptr);
        }
        BackMeansAround(n, current, attempt);
        return 0, first, attempts;
      } else {
        currentProducer := Some(ptr);
        itemsConsumedFromCurrent := 0;
      }
    }
  }

  /** What a call that starts from producer first does, and the producer last that the token then points to. */
  predicate Served(n: nat, available: (nat, Producer) -> nat, first: Producer, attempts: nat, count: nat, last: Producer) {
    && first < n && 1 <= attempts <= n
    && (forall j | 0 <= j < attempts - 1 :: available(j, Ahead(n, first, j)) == 0)
    && count == Min(QUOTA, available(attempts - 1, Ahead(n, first, attempts - 1)))
    && (count == 0 ==> attempts == n)
    && last == if count == 0 then first else if attempts == 1 then NextProducer(n, first) else Ahead(n, first, attempts - 1)
  }

  lemma AheadAround(n: nat, p: Producer)
    requires p < n
    ensures Ahead(n, p, n) == p
  {
    BlockArith.ModUnique(p - n, -1, p, n);
  }

  lemma BackMeansAround(n: nat, p: Producer, k: nat)
    requires p < n && 1 <= k <= n && Ahead(n, p, k) == p
    ensures k == n
  {
    assert Distance(n, p, p) == 0;
    if k < n { AheadDistance(n, p, p, k); }
  }

  /** A call that returns 0 has tried every producer, each once, and found each empty at its turn. */
  lemma ZeroTriedAll(n: nat, available: (nat, Producer) -> nat, first: Producer, attempts: nat, last: Producer, p: Producer)
    requires Served(n, available, first, attempts, 0, last) && p < n
    ensures attempts == n && available(Distance(n, first, p), p) == 0
    ensures forall k | 0 <= k < n :: Ahead(n, first, k) == p <==> k == Distance(n, first, p)
  {
    hide Distance, Ahead;
    forall k | 0 <= k < n ensures Ahead(n, first, k) == p <==> k == Distance(n, first, p) {
      AheadDistance(n, first, p, k);
    }
    assert Ahead(n, first, Distance(n, first, p)) == p;
  }

  /** A producer that stays non-empty through a call is served by it, or comes nearer. */
  lemma CallComesNearer(n: nat, available: (nat, Producer) -> nat, first: Producer, attempts: nat, count: nat, last: Producer, p: Producer)
    requires Served(n, available, first, attempts, count, last) && p < n
    requires forall k | 0 <= k < n :: available(k, p) > 0
    ensures count > 0 && last < n
    ensures Ahead(n, first, attempts - 1) == p || Distance(n, last, p) < Distance(n, first, p)
  {
    hide Distance, Ahead;
    var d, k := Distance(n, first, p), attempts - 1;
    if count == 0 {
      ZeroTriedAll(n, available, first, attempts, last, p);
    }
    AheadDistance(n, first, p, d);
    AheadNext(n, first, 0);
    if k < d { DistanceAhead(n, first, p, if k == 0 then 1 else k); }
  }

  /** One call as the rest of the program sees it. */
  datatype Call = Call(available: (nat, Producer) -> nat, first: Producer, attempts: nat, count: nat, last: Producer)

  predicate Obeys(n: nat, c: Call) { Served(n, c.available, c.first, c.attempts, c.count, c.last) }

  /** The call took something from producer p. */
  predicate Serves(n: nat, c: Call, p: Producer)
    requires c.first < n && c.attempts > 0
  {
    c.count > 0 && Ahead(n, c.first, c.attempts - 1) == p
  }

  /** Successive calls with the same n producers; each starts where the one before left the token. */
  predicate Calls(n: nat, calls: seq<Call>) {
    && (forall i | 0 <= i < |calls| :: Obeys(n, calls[i]))
    && (forall i | 0 <= i < |calls| - 1 :: calls[i + 1].first == calls[i].last)
  }

  /** No starvation: a producer that stays non-empty is served within n calls. */
  lemma ServedWithinN(n: nat, calls: seq<Call>, p: Producer)
    requires n > 0 && Calls(n, calls) && |calls| == n && p < n
    requires forall j, k | 0 <= j < n && 0 <= k < n :: calls[j].available(k, p) > 0
    ensures exists i | 0 <= i < n :: Obeys(n, calls[i]) && Serves(n, calls[i], p)
  {
    assert forall i | 0 <= i < n :: Obeys(n, calls[i]);
    if forall i | 0 <= i < n :: !Serves(n, calls[i], p) {
      NearerByEach(n, calls, p, n - 1);
    }
  }

  lemma {:induction false} NearerByEach(n: nat, calls: seq<Call>, p: Producer, i: nat)
    requires n > 0 && Calls(n, calls) && |calls| == n && p < n && i < n
    requires forall j, k | 0 <= j < n && 0 <= k < n :: calls[j].available(k, p) > 0
    requires forall j | 0 <= j < n :: Obeys(n, calls[j]) && !Serves(n, calls[j], p)
    ensures calls[i].last < n && Distance(n, calls[i].last, p) + i + 1 < n
  {
    hide Distance;
    if i > 0 { NearerByEach(n, calls, p, i - 1); }
    var c := calls[i];
    CallComesNearer(n, c.available, c.first, c.attempts, c.count, c.last, p);
  }

  /** Where a token starts: the global offset stays 0, so the first call turns by 0 - (-1) = 1. */
  lemma FirstStart(n: nat, consumerId: nat)
    requires 0 < n < WORD32
    ensures Ahead(n, Ahead(n, n - 1, Offset(n, consumerId)), Turn(n, WORD32 - 1, 0)) == (consumerId - 1) % n
  {
    var i := consumerId % n;
    assert Offset(n, consumerId) == n - 1 - i;
    BlockArith.ModUnique(n - 1 - (n - 1 - i), 0, i, n);
    assert Ahead(n, n - 1, Offset(n, consumerId)) == i;
    assert Turn(n, WORD32 - 1, 0) == 1 % n;
    BlockArith.ModShift(consumerId, -1, n);
    if n == 1 { BlockArith.ModUnique(consumerId - 1, consumerId - 1, 0, 1); } else { BlockArith.ModUnique(1, 0, 1, n); }
  }

  /** Consumers with consecutive ids start at different producers, as long as there are enough producers. */
  lemma StartsSpread(n: nat, a: nat, b: nat)
    requires 0 < n < WORD32 && a < b < a + n
    ensures (a - 1) % n != (b - 1) % n
  {
    var q, r := (a - 1) / n, (a - 1) % n;
    assert a - 1 == q * n + r;
    if r + (b - a) < n {
      BlockArith.ModUnique(b - 1, q, r + (b - a), n);
    } else {
      assert b - 1 == (q + 1) * n + (r + (b - a) - n);
      BlockArith.ModUnique(b - 1, q + 1, r + (b - a) - n, n);
    }
  }
}
