/**
 Who is working on which elements, and what has been handed over.

 A consumer's granted range becomes its job. Handing an element to processData advances the job's pos;
 set_many_empty counts the stretch handed over so far and drops it from the job. This is the bookkeeping
 behind "every published element is delivered exactly once", free of blocks and index arithmetic.
 */
module QueueDelivery {

  type Tid = nat
  type Item = int

  /** Elements from..end are not counted yet; those before pos have been handed over. */
  datatype Job = Job(from: nat, pos: nat, end: nat)

  datatype Delivery = Delivery(consumer: Tid, index: nat, item: Item)

  /** deliveredAt is the position of an element's delivery in delivered. */
  datatype State = State(head: nat, owner: seq<Tid>, jobs: map<Tid, Job>, done: set<nat>,
                         delivered: seq<Delivery>, deliveredAt: map<nat, nat>)

  const INITIAL := State(0, [], map[], {}, [], map[])

  function Range(lo: nat, hi: nat): (r: set<nat>)
    ensures forall i :: i in r <==> lo <= i < hi
    decreases hi - lo
  {
    if hi <= lo then {} else Range(lo, hi - 1) + {hi - 1}
  }

  /** The head's fetch_add gives the next n elements to t. */
  function Grant(s: State, t: Tid, n: nat): State {
    s.(head := s.head + n, owner := s.owner + seq(n, _ => t), jobs := s.jobs[t := Job(s.head, s.head, s.head + n)])
  }

  /** One more element of t's job is handed to processData. */
  function Hand(s: State, t: Tid, item: Item): State
    requires t in s.jobs
  {
    var j := s.jobs[t];
    s.(jobs := s.jobs[t := j.(pos := j.pos + 1)], delivered := s.delivered + [Delivery(t, j.pos, item)],
       deliveredAt := s.deliveredAt[j.pos := |s.delivered|])
  }

  /** The stretch handed over so far is counted; an exhausted job ends. */
  function Count(s: State, t: Tid): State
    requires t in s.jobs
  {
    var j := s.jobs[t];
    s.(done := s.done + Range(j.from, j.pos),
       jobs := if j.pos == j.end then s.jobs - {t} else s.jobs[t := j.(from := j.pos)])
  }

  ghost predicate OwnerInv(s: State) {
    && |s.owner| == s.head
    && (forall i <- s.done :: i < s.head)
    && (forall t <- s.jobs :: s.jobs[t].from <= s.jobs[t].pos <= s.jobs[t].end <= s.head && s.jobs[t].from < s.jobs[t].end)
    && (forall t, i | t in s.jobs && s.jobs[t].from <= i < s.jobs[t].end :: s.owner[i] == t && i !in s.done)
    && (forall i: nat | i < s.head && i !in s.done ::
          s.owner[i] in s.jobs && s.jobs[s.owner[i]].from <= i < s.jobs[s.owner[i]].end)
  }

  /** Element i has been handed over. */
  ghost predicate Handed(s: State, i: nat)
    requires |s.owner| == s.head
  {
    i in s.done || (i < s.head && s.owner[i] in s.jobs && s.jobs[s.owner[i]].from <= i < s.jobs[s.owner[i]].pos)
  }

  /** deliveredAt and delivered are inverse, and hold exactly what has been handed over. */
  ghost predicate Located(s: State)
    requires |s.owner| == s.head
  {
    && (forall i: nat :: i in s.deliveredAt <==> Handed(s, i))
    && (forall i <- s.deliveredAt :: s.deliveredAt[i] < |s.delivered| && s.delivered[s.deliveredAt[i]].index == i)
    && (forall k | 0 <= k < |s.delivered| :: s.delivered[k].index in s.deliveredAt && s.deliveredAt[s.delivered[k].index] == k)
  }

  /** Each consumer sees its own elements, in index order, up to where its job stands. */
  ghost predicate Ordered(s: State)
    requires |s.owner| == s.head
  {
    && (forall k | 0 <= k < |s.delivered| :: s.delivered[k].index < s.head && s.delivered[k].consumer == s.owner[s.delivered[k].index])
    && (forall k | 0 <= k < |s.delivered| :: s.delivered[k].consumer in s.jobs ==>
          s.delivered[k].index < s.jobs[s.delivered[k].consumer].pos)
    && (forall j, k | 0 <= j < k < |s.delivered| && s.delivered[j].consumer == s.delivered[k].consumer ::
          s.delivered[j].index < s.delivered[k].index)
  }

  ghost predicate Inv(s: State) { OwnerInv(s) && Located(s) && Ordered(s) }

  lemma GrantInv(s: State, t: Tid, n: nat)
    requires Inv(s) && t !in s.jobs && n > 0
    ensures Inv(Grant(s, t, n))
  {
    hide OwnerInv, Handed;
    GrantOwners(s, t, n);
    assert forall u <- Grant(s, t, n).jobs :: u == t || (u in s.jobs && Grant(s, t, n).jobs[u] == s.jobs[u]);
  }

  lemma GrantOwners(s: State, t: Tid, n: nat)
    requires OwnerInv(s) && t !in s.jobs && n > 0
    ensures OwnerInv(Grant(s, t, n)) && |s.owner| == s.head
    ensures forall i: nat :: Handed(Grant(s, t, n), i) <==> Handed(s, i)
  {
    assert OwnerInv(Grant(s, t, n));
  }

  lemma HandInv(s: State, t: Tid, item: Item)
    requires Inv(s) && t in s.jobs && s.jobs[t].pos < s.jobs[t].end
    ensures Inv(Hand(s, t, item)) && !Handed(s, s.jobs[t].pos)
  {
    hide OwnerInv, Handed, Located, Ordered;
    HandOwners(s, t, item);
    HandLocated(s, t, item);
    HandOrdered(s, t, item);
  }

  lemma HandLocated(s: State, t: Tid, item: Item)
    requires OwnerInv(s) && Located(s) && t in s.jobs && s.jobs[t].pos < s.jobs[t].end
    ensures |s.owner| == s.head && Located(Hand(s, t, item))
  {
    hide OwnerInv, Handed;
    HandOwners(s, t, item);
    var s' := Hand(s, t, item);
    assert forall k | 0 <= k < |s.delivered| :: s.delivered[k].index != s.jobs[t].pos;
    assert forall k | 0 <= k < |s.delivered| :: s'.delivered[k] == s.delivered[k];
  }

  lemma HandOrdered(s: State, t: Tid, item: Item)
    requires OwnerInv(s) && Ordered(s) && t in s.jobs && s.jobs[t].pos < s.jobs[t].end
    ensures |s.owner| == s.head && Ordered(Hand(s, t, item))
  {
    hide OwnerInv, Handed;
    HandOwners(s, t, item);
    var s' := Hand(s, t, item);
    assert forall k | 0 <= k < |s.delivered| :: s'.delivered[k] == s.delivered[k];
    assert forall u <- s'.jobs :: u in s.jobs && s.jobs[u].pos <= s'.jobs[u].pos;
  }

  lemma HandOwners(s: State, t: Tid, item: Item)
    requires OwnerInv(s) && t in s.jobs && s.jobs[t].pos < s.jobs[t].end
    ensures OwnerInv(Hand(s, t, item)) && |s.owner| == s.head
    ensures s.jobs[t].pos < s.head && s.owner[s.jobs[t].pos] == t && !Handed(s, s.jobs[t].pos)
    ensures forall i: nat :: Handed(Hand(s, t, item), i) <==> Handed(s, i) || i == s.jobs[t].pos
  {
    HandKeepsOwners(s, t, item);
    forall i: nat ensures Handed(Hand(s, t, item), i) <==> Handed(s, i) || i == s.jobs[t].pos { HandHands(s, t, item, i); }
  }

  lemma HandKeepsOwners(s: State, t: Tid, item: Item)
    requires OwnerInv(s) && t in s.jobs && s.jobs[t].pos < s.jobs[t].end
    ensures OwnerInv(Hand(s, t, item)) && |s.owner| == s.head
    ensures s.jobs[t].pos < s.head && s.owner[s.jobs[t].pos] == t && !Handed(s, s.jobs[t].pos)
  {
  }

  lemma HandHands(s: State, t: Tid, item: Item, i: nat)
    requires OwnerInv(s) && t in s.jobs && s.jobs[t].pos < s.jobs[t].end
    ensures Handed(Hand(s, t, item), i) <==> Handed(s, i) || i == s.jobs[t].pos
  {
  }

  lemma CountInv(s: State, t: Tid)
    requires Inv(s) && t in s.jobs && s.jobs[t].from < s.jobs[t].pos
    ensures Inv(Count(s, t))
  {
    hide OwnerInv, Handed;
    CountOwners(s, t);
    assert forall u <- Count(s, t).jobs :: u in s.jobs && Count(s, t).jobs[u].pos == s.jobs[u].pos;
  }

  lemma CountOwners(s: State, t: Tid)
    requires OwnerInv(s) && t in s.jobs && s.jobs[t].from < s.jobs[t].pos
    ensures OwnerInv(Count(s, t)) && |s.owner| == s.head
    ensures forall i: nat :: Handed(Count(s, t), i) <==> Handed(s, i)
  {
    CountKeepsOwners(s, t);
    forall i: nat ensures Handed(Count(s, t), i) <==> Handed(s, i) { CountKeepsHanded(s, t, i); }
  }

  lemma CountKeepsOwners(s: State, t: Tid)
    requires OwnerInv(s) && t in s.jobs && s.jobs[t].from < s.jobs[t].pos
    ensures OwnerInv(Count(s, t)) && |s.owner| == s.head
  {
    hide Range;
    var s' := Count(s, t);
    forall i: nat | i < s'.head && i !in s'.done
      ensures s'.owner[i] in s'.jobs && s'.jobs[s'.owner[i]].from <= i < s'.jobs[s'.owner[i]].end {
      assert i !in Range(s.jobs[t].from, s.jobs[t].pos);
    }
    forall u, i | u in s'.jobs && s'.jobs[u].from <= i < s'.jobs[u].end ensures s'.owner[i] == u && i !in s'.done {
      assert s.owner[i] == u && i !in s.done;
    }
  }

  lemma CountKeepsHanded(s: State, t: Tid, i: nat)
    requires OwnerInv(s) && t in s.jobs && s.jobs[t].from < s.jobs[t].pos
    ensures Handed(Count(s, t), i) <==> Handed(s, i)
  {
  }

  // ----- consequences -----

  /** No element is handed over twice, and a consumer sees its elements in index order. */
  lemma DeliveredOnceInOrder(s: State, j: nat, k: nat)
    requires Inv(s) && j < k < |s.delivered|
    ensures s.delivered[j].index != s.delivered[k].index
    ensures s.delivered[j].consumer == s.delivered[k].consumer ==> s.delivered[j].index < s.delivered[k].index
  {
    assert s.deliveredAt[s.delivered[j].index] == j;
  }

  /** Once no job is open, every granted element has been handed over. */
  lemma AllDelivered(s: State, i: nat)
    requires Inv(s) && s.jobs == map[] && i < s.head
    ensures i in s.deliveredAt && s.deliveredAt[i] < |s.delivered| && s.delivered[s.deliveredAt[i]].index == i
  {
    assert Handed(s, i);
  }

  /** With one consumer the deliveries are the elements 0, 1, 2, ... in this order. */
  lemma {:induction false} SingleConsumerFifo(s: State, t: Tid, k: nat)
    requires Inv(s) && k < |s.delivered|
    requires s.jobs.Keys <= {t} && forall i | 0 <= i < |s.owner| :: s.owner[i] == t
    ensures s.delivered[k].index == k
  {
    forall i | 0 <= i < |s.delivered| ensures s.delivered[i].consumer == t {
      assert s.delivered[i].index < |s.owner|;
    }
    PrefixHanded(s, t, s.delivered[k].index);
    if k > 0 {
      SingleConsumerFifo(s, t, k - 1);
      var i := s.delivered[k - 1].index + 1;
      assert s.delivered[k].index > i ==> i in s.deliveredAt;
    } else {
      assert 0 in s.deliveredAt;
    }
  }

  /** With one consumer, everything before a handed element has been handed over. */
  lemma PrefixHanded(s: State, t: Tid, i: nat)
    requires Inv(s) && i in s.deliveredAt
    requires s.jobs.Keys <= {t} && forall j | 0 <= j < |s.owner| :: s.owner[j] == t
    ensures forall j: nat | j <= i :: j in s.deliveredAt
  {
    forall j: nat | j <= i ensures Handed(s, j) {
      var k := s.deliveredAt[i];
      assert s.delivered[k].index == i < s.head && s.delivered[k].consumer == s.owner[i] == t;
      if j !in s.done {
        assert t in s.jobs && s.jobs[t].from <= j < s.jobs[t].end;
      }
    }
  }
}
