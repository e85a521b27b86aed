/**
 How consumers of one lock-free producer queue claim ranges of elements.

 Each consumer runs dequeue_bulk one atomic access at a time: load the tail, load the
 overcommit counter, load the optimistic counter, fetch_add the optimistic counter,
 load the tail again, repay the overcommit counter, fetch_add the head. Every phase of
 a consumer below ends at one such access, and any number of consumers interleave with
 the producer's publishing store. Indices are logical (unbounded); module QueueWords
 relates them to machine words.
 */
module QueueClaims {

  type Tid = nat

  /** Largest number of elements one call asks for. */
  const MAX_BULK: nat := 8192

  /** Local variables of one consumer between two atomic accesses. */
  datatype Phase =
    | Idle
    | HaveTail(tail: nat)
    | HaveOvercommit(tail: nat, overcommit: nat)
    | HaveDesired(overcommit: nat, desired: nat)
    | Claimed(overcommit: nat, desired: nat, myCount: nat, claim: nat)
    | Repaying(desired: nat, actual: nat, claim: nat)
    | Taking(actual: nat, claim: nat)
    | Granted(first: nat, count: nat)

  /** History of one optimistic claim; the log keeps claims in fetch_add order. */
  datatype Claim = Claim(owner: Tid, overcommit: nat, base: nat, desired: nat,
                         resolved: bool, actual: nat, repaid: bool, taken: bool)

  datatype State = State(tail: nat, head: nat, optimistic: nat, overcommit: nat,
                         consumers: map<Tid, Phase>, log: seq<Claim>)

  predicate Init(s: State) {
    && s.tail == 0 && s.head == 0 && s.optimistic == 0 && s.overcommit == 0 && s.log == []
    && forall t <- s.consumers :: s.consumers[t] == Idle
  }

  function Min(a: int, b: int): int { if a < b then a else b }

  /** The producer publishes one more element. */
  function Publish(s: State): State { s.(tail := s.tail + 1) }

  function SetPhase(s: State, t: Tid, p: Phase): State {
    s.(consumers := s.consumers[t := p])
  }

  /** One atomic access of consumer t. A granted consumer goes idle when it has finished its range. */
  function ConsumerStep(s: State, t: Tid): State
    requires t in s.consumers
  {
    match s.consumers[t]
    case Idle => SetPhase(s, t, HaveTail(s.tail))
    case HaveTail(tail) => SetPhase(s, t, HaveOvercommit(tail, s.overcommit))
    case HaveOvercommit(tail, overcommit) =>
      var desired: int := tail - (s.optimistic - overcommit);
      if desired > 0
      then SetPhase(s, t, HaveDesired(overcommit, Min(desired, MAX_BULK)))
      else SetPhase(s, t, Idle)
    case HaveDesired(overcommit, desired) =>
      var entry := Claim(t, overcommit, s.optimistic, desired, false, 0, false, false);
      SetPhase(s, t, Claimed(overcommit, desired, s.optimistic, |s.log|))
        .(optimistic := s.optimistic + desired, log := s.log + [entry])
    case Claimed(overcommit, desired, myCount, k) =>
      var available: int := s.tail - (myCount - overcommit);
      var actual := if available > 0 then Min(desired, available) else 0;
      var next := if actual < desired then Repaying(desired, actual, k) else Taking(actual, k);
      if k < |s.log|
      then SetPhase(s, t, next).(log := s.log[k := s.log[k].(resolved := true, actual := actual, repaid := actual == desired)])
      else s
    case Repaying(desired, actual, k) =>
      var next := if actual > 0 then Taking(actual, k) else Idle;
      if k < |s.log| && actual <= desired
      then SetPhase(s, t, next).(overcommit := s.overcommit + (desired - actual), log := s.log[k := s.log[k].(repaid := true)])
      else s
    case Taking(actual, k) =>
      if k < |s.log|
      then SetPhase(s, t, Granted(s.head, actual)).(head := s.head + actual, log := s.log[k := s.log[k].(taken := true)])
      else s
    case Granted(_, _) => SetPhase(s, t, Idle)
  }

  predicate Next(s: State, s': State) {
    || s' == Publish(s)
    || exists t <- s.consumers :: s' == ConsumerStep(s, t)
  }

  // ----- sums over the log -----

  function Desired(c: Claim): int { c.desired }
  function Actual(c: Claim): int { c.actual }
  function Slack(c: Claim): int { if c.resolved then c.desired - c.actual else 0 }
  function Repaid(c: Claim): int { if c.repaid then c.desired - c.actual else 0 }
  function Taken(c: Claim): int { if c.taken then c.actual else 0 }

  function Sum(f: Claim -> int, log: seq<Claim>, n: nat): int
    requires n <= |log|
  {
    if n == 0 then 0 else Sum(f, log, n - 1) + f(log[n - 1])
  }

  lemma {:induction false} SumUpdate(f: Claim -> int, log: seq<Claim>, k: nat, c: Claim, n: nat)
    requires k < |log| && n <= |log|
    ensures Sum(f, log[k := c], n) == Sum(f, log, n) + (if k < n then f(c) - f(log[k]) else 0)
  {
    if n > 0 {
      SumUpdate(f, log, k, c, n - 1);
    }
  }

  lemma {:induction false} SumAppend(f: Claim -> int, log: seq<Claim>, c: Claim, n: nat)
    requires n <= |log|
    ensures Sum(f, log + [c], n) == Sum(f, log, n)
  {
    if n > 0 {
      SumAppend(f, log, c, n - 1);
    }
  }

  // ----- the invariant -----

  predicate ClaimOk(s: State, k: nat)
    requires k < |s.log|
  {
    var c := s.log[k];
    && c.base == Sum(Desired, s.log, k)
    && c.overcommit <= Sum(Slack, s.log, k)
    && 0 < c.desired <= MAX_BULK && c.actual <= c.desired
    && (!c.resolved ==> c.actual == 0 && !c.repaid && !c.taken)
    && (c.actual > 0 ==> c.base - c.overcommit + c.actual <= s.tail)
    && (c.actual == c.desired ==> c.repaid)
    && (c.taken ==> c.repaid)
    && ((c.resolved && c.repaid && (c.taken || c.actual == 0)) || PhaseHolds(s, c.owner, k))
  }

  /** Consumer t is still working on claim k. */
  predicate PhaseHolds(s: State, t: Tid, k: nat) {
    t in s.consumers &&
    match s.consumers[t]
    case Claimed(_, _, _, j) => j == k
    case Repaying(_, _, j) => j == k
    case Taking(_, j) => j == k
    case _ => false
  }

  predicate PhaseOk(s: State, t: Tid)
    requires t in s.consumers
  {
    match s.consumers[t]
    case Idle => true
    case HaveTail(tail) => tail <= s.tail
    case HaveOvercommit(tail, overcommit) => tail <= s.tail && overcommit <= s.overcommit
    case HaveDesired(overcommit, desired) => overcommit <= s.overcommit && 0 < desired <= MAX_BULK
    case Claimed(overcommit, desired, myCount, k) =>
      && k < |s.log| && s.log[k] == Claim(t, overcommit, myCount, desired, false, 0, false, false)
    case Repaying(desired, actual, k) =>
      && k < |s.log| && s.log[k].owner == t && s.log[k].desired == desired && s.log[k].actual == actual < desired
      && s.log[k].resolved && !s.log[k].repaid && !s.log[k].taken
    case Taking(actual, k) =>
      && k < |s.log| && s.log[k].owner == t && s.log[k].actual == actual && actual > 0
      && s.log[k].resolved && s.log[k].repaid && !s.log[k].taken
    case Granted(first, count) => 0 < count <= MAX_BULK && first + count <= s.head
  }

  predicate Counters(s: State) {
    && s.optimistic == Sum(Desired, s.log, |s.log|)
    && s.overcommit == Sum(Repaid, s.log, |s.log|)
    && s.head == Sum(Taken, s.log, |s.log|)
  }

  predicate Inv(s: State) {
    && Counters(s)
    && (forall k | 0 <= k < |s.log| :: ClaimOk(s, k))
    && (forall t <- s.consumers :: PhaseOk(s, t))
  }

  lemma InitInv(s: State)
    requires Init(s)
    ensures Inv(s)
  {
  }

  // ----- consequences of the invariant -----

  lemma {:induction false} SumOrder(s: State, n: nat)
    requires n <= |s.log| && forall k | 0 <= k < |s.log| :: ClaimOk(s, k)
    ensures 0 <= Sum(Taken, s.log, n) <= Sum(Actual, s.log, n)
    ensures 0 <= Sum(Repaid, s.log, n) <= Sum(Slack, s.log, n)
    ensures Sum(Actual, s.log, n) + Sum(Slack, s.log, n) <= Sum(Desired, s.log, n)
  {
    if n > 0 {
      SumOrder(s, n - 1);
      assert ClaimOk(s, n - 1);
    }
  }

  /** What all claims together were granted never reaches past the published tail. */
  lemma {:induction false} ActualWithinTail(s: State, n: nat)
    requires n <= |s.log| && forall k | 0 <= k < |s.log| :: ClaimOk(s, k)
    ensures Sum(Actual, s.log, n) <= s.tail
  {
    if n > 0 {
      ActualWithinTail(s, n - 1);
      SumOrder(s, n - 1);
      assert ClaimOk(s, n - 1);
    }
  }

  /** headIndex <= tailIndex. */
  lemma HeadWithinTail(s: State)
    requires Inv(s)
    ensures s.head <= s.tail
  {
    SumOrder(s, |s.log|);
    ActualWithinTail(s, |s.log|);
  }

  /** A grant is a range of published elements. */
  lemma GrantIsPublished(s: State, t: Tid)
    requires Inv(s) && t in s.consumers && s.consumers[t].Granted?
    ensures s.consumers[t].count > 0
    ensures s.consumers[t].first + s.consumers[t].count <= s.head <= s.tail
  {
    HeadWithinTail(s);
    assert PhaseOk(s, t);
  }

  /** The assertion after the optimistic fetch_add: overcommit <= myDequeueCount. */
  lemma OvercommitWithinClaim(s: State, t: Tid)
    requires Inv(s) && t in s.consumers && s.consumers[t].Claimed?
    ensures s.consumers[t].overcommit <= s.consumers[t].myCount
  {
    assert PhaseOk(s, t);
    var k := s.consumers[t].claim;
    assert ClaimOk(s, k);
    SumOrder(s, k);
    ActualNonNegative(s, k);
  }

  lemma {:induction false} ActualNonNegative(s: State, n: nat)
    requires n <= |s.log|
    ensures 0 <= Sum(Actual, s.log, n)
  {
    if n > 0 {
      ActualNonNegative(s, n - 1);
    }
  }

  /** No consumer holds a claim that it has not turned into a grant or given back. */
  predicate Quiescent(s: State) {
    forall t <- s.consumers :: !s.consumers[t].Claimed? && !s.consumers[t].Repaying? && !s.consumers[t].Taking?
  }

  /** With no claim in flight, the optimistic count less the overcommit is exactly the head. */
  lemma QuiescentCounters(s: State)
    requires Inv(s) && Quiescent(s)
    ensures s.optimistic - s.overcommit == s.head
  {
    QuiescentSums(s, |s.log|);
  }

  lemma {:induction false} QuiescentSums(s: State, n: nat)
    requires Inv(s) && Quiescent(s) && n <= |s.log|
    ensures Sum(Desired, s.log, n) == Sum(Repaid, s.log, n) + Sum(Taken, s.log, n)
  {
    if n > 0 {
      QuiescentSums(s, n - 1);
      assert ClaimOk(s, n - 1);
    }
  }

  // ----- preservation -----

  lemma PublishInv(s: State)
    requires Inv(s)
    ensures Inv(Publish(s))
  {
    var s' := Publish(s);
    forall k | 0 <= k < |s'.log| ensures ClaimOk(s', k) {
      assert ClaimOk(s, k);
      assert PhaseHolds(s, s.log[k].owner, k) ==> PhaseHolds(s', s.log[k].owner, k);
    }
    forall t | t in s'.consumers ensures PhaseOk(s', t) {
      assert PhaseOk(s, t);
    }
  }

  /** A step that changes only the local variables of a consumer with no claim keeps the log and the others. */
  lemma LocalStepInv(s: State, t: Tid, p: Phase)
    requires Inv(s) && t in s.consumers
    requires !s.consumers[t].Claimed? && !s.consumers[t].Repaying? && !s.consumers[t].Taking?
    requires PhaseOk(SetPhase(s, t, p), t)
    ensures Inv(SetPhase(s, t, p))
  {
    var s' := SetPhase(s, t, p);
    forall k | 0 <= k < |s'.log| ensures ClaimOk(s', k) {
      assert ClaimOk(s, k);
      assert PhaseHolds(s, s.log[k].owner, k) ==> PhaseHolds(s', s.log[k].owner, k);
    }
    forall u | u in s'.consumers ensures PhaseOk(s', u) {
      assert u in s.consumers && (u != t ==> PhaseOk(s, u));
    }
  }

  lemma ClaimStepInv(s: State, t: Tid)
    requires Inv(s) && t in s.consumers && s.consumers[t].HaveDesired?
    ensures Inv(ConsumerStep(s, t))
  {
    var s' := ConsumerStep(s, t);
    var n := |s.log|;
    var entry := s'.log[n];
    assert PhaseOk(s, t);
    forall m: nat | m <= n
      ensures Sum(Desired, s'.log, m) == Sum(Desired, s.log, m)
      ensures Sum(Slack, s'.log, m) == Sum(Slack, s.log, m)
    {
      SumAppend(Desired, s.log, entry, m);
      SumAppend(Slack, s.log, entry, m);
    }
    SumAppend(Repaid, s.log, entry, n);
    SumAppend(Taken, s.log, entry, n);
    SumOrder(s, n);
    forall k | 0 <= k < |s'.log| ensures ClaimOk(s', k) {
      if k < n {
        assert ClaimOk(s, k);
        assert PhaseHolds(s, s.log[k].owner, k) ==> PhaseHolds(s', s.log[k].owner, k);
      } else {
        assert PhaseHolds(s', t, n);
      }
    }
    forall u | u in s'.consumers ensures PhaseOk(s', u) {
      assert u in s.consumers && (u != t ==> PhaseOk(s, u));
    }
  }

  /**
   Replacing the entry of the claim that consumer t is working on keeps the invariant when the
   entry's desired count stays, its slack does not shrink, and the entry and the new phase are in order.
   */
  lemma EntryStepInv(s: State, s': State, t: Tid, k: nat)
    requires Inv(s) && PhaseHolds(s, t, k) && k < |s.log| && s.log[k].owner == t
    requires |s'.log| == |s.log| && s'.log == s.log[k := s'.log[k]]
    requires s'.tail == s.tail && s'.optimistic == s.optimistic
    requires t in s'.consumers && s'.consumers == s.consumers[t := s'.consumers[t]]
    requires s'.log[k].owner == t && s'.log[k].overcommit == s.log[k].overcommit && s'.log[k].base == s.log[k].base
    requires Desired(s'.log[k]) == Desired(s.log[k]) && Slack(s'.log[k]) >= Slack(s.log[k])
    requires s'.overcommit - s.overcommit == Repaid(s'.log[k]) - Repaid(s.log[k]) >= 0
    requires s'.head - s.head == Taken(s'.log[k]) - Taken(s.log[k]) >= 0
    requires var c := s'.log[k];
             && c.actual <= c.desired && c.resolved
             && (c.actual > 0 ==> c.base - c.overcommit + c.actual <= s.tail)
             && (c.actual == c.desired ==> c.repaid) && (c.taken ==> c.repaid)
             && ((c.repaid && (c.taken || c.actual == 0)) || PhaseHolds(s', t, k))
    requires PhaseOk(s', t)
    ensures Inv(s')
  {
    var n := |s.log|;
    forall m: nat | m <= n
      ensures Sum(Desired, s'.log, m) == Sum(Desired, s.log, m)
      ensures Sum(Slack, s'.log, m) >= Sum(Slack, s.log, m)
    {
      SumUpdate(Desired, s.log, k, s'.log[k], m);
      SumUpdate(Slack, s.log, k, s'.log[k], m);
    }
    SumUpdate(Repaid, s.log, k, s'.log[k], n);
    SumUpdate(Taken, s.log, k, s'.log[k], n);
    forall j | 0 <= j < |s'.log| ensures ClaimOk(s', j) {
      assert ClaimOk(s, j);
      if j != k {
        assert s'.log[j] == s.log[j];
        assert PhaseHolds(s, s.log[j].owner, j) ==> s.log[j].owner != t;
      }
    }
    forall u | u in s'.consumers ensures PhaseOk(s', u) {
      if u != t {
        assert u in s.consumers && PhaseOk(s, u);
      }
    }
  }

  lemma ResolveStepInv(s: State, t: Tid)
    requires Inv(s) && t in s.consumers && s.consumers[t].Claimed?
    ensures Inv(ConsumerStep(s, t))
  {
    assert PhaseOk(s, t);
    var k := s.consumers[t].claim;
    assert ClaimOk(s, k);
    EntryStepInv(s, ConsumerStep(s, t), t, k);
  }

  lemma RepayStepInv(s: State, t: Tid)
    requires Inv(s) && t in s.consumers && s.consumers[t].Repaying?
    ensures Inv(ConsumerStep(s, t))
  {
    assert PhaseOk(s, t);
    var k := s.consumers[t].claim;
    assert ClaimOk(s, k);
    EntryStepInv(s, ConsumerStep(s, t), t, k);
  }

  lemma TakeStepInv(s: State, t: Tid)
    requires Inv(s) && t in s.consumers && s.consumers[t].Taking?
    ensures Inv(ConsumerStep(s, t))
  {
    assert PhaseOk(s, t);
    var k := s.consumers[t].claim;
    assert ClaimOk(s, k);
    EntryStepInv(s, ConsumerStep(s, t), t, k);
  }

  lemma ConsumerStepInv(s: State, t: Tid)
    requires Inv(s) && t in s.consumers
    ensures Inv(ConsumerStep(s, t))
  {
    assert PhaseOk(s, t);
    match s.consumers[t]
    case HaveDesired(_, _) => ClaimStepInv(s, t);
    case Claimed(_, _, _, _) => ResolveStepInv(s, t);
    case Repaying(_, _, _) => RepayStepInv(s, t);
    case Taking(_, _) => TakeStepInv(s, t);
    case _ =>
      var s' := ConsumerStep(s, t);
      LocalStepInv(s, t, s'.consumers[t]);
  }

  /** What a consumer's step can change outside the log: its own phase, and the head when it takes its range. */
  lemma StepFrame(s: State, t: Tid)
    requires Inv(s) && t in s.consumers
    ensures var p, s' := s.consumers[t], ConsumerStep(s, t);
            && s'.tail == s.tail && t in s'.consumers && s'.consumers == s.consumers[t := s'.consumers[t]]
            && (p.Taking? ==> p.actual > 0 && s'.head == s.head + p.actual && s'.consumers[t] == Granted(s.head, p.actual))
            && (!p.Taking? ==> s'.head == s.head && !s'.consumers[t].Granted?)
  {
    assert PhaseOk(s, t);
  }

  lemma NextInv(s: State, s': State)
    requires Inv(s) && Next(s, s')
    ensures Inv(s')
  {
    if s' == Publish(s) {
      PublishInv(s);
    } else {
      var t :| t in s.consumers && s' == ConsumerStep(s, t);
      ConsumerStepInv(s, t);
    }
  }

  predicate Run(run: seq<State>) {
    && |run| > 0 && Init(run[0])
    && forall i | 0 <= i < |run| - 1 :: Next(run[i], run[i + 1])
  }

  lemma {:induction false} RunInv(run: seq<State>, i: nat)
    requires Run(run) && i < |run|
    ensures Inv(run[i])
  {
    if i == 0 {
      InitInv(run[0]);
    } else {
      RunInv(run, i - 1);
      assert Next(run[i - 1], run[i - 1 + 1]);
      NextInv(run[i - 1], run[i]);
    }
  }

  /** In every state of every run the head stays within the tail and the claim assertion holds. */
  lemma ClaimsAreSafe(run: seq<State>, i: nat)
    requires Run(run) && i < |run|
    ensures run[i].head <= run[i].tail
    ensures forall t <- run[i].consumers | run[i].consumers[t].Claimed? ::
              run[i].consumers[t].overcommit <= run[i].consumers[t].myCount
    ensures forall t <- run[i].consumers | run[i].consumers[t].Granted? ::
              0 < run[i].consumers[t].count <= run[i].tail - run[i].consumers[t].first
  {
    RunInv(run, i);
    HeadWithinTail(run[i]);
    forall t | t in run[i].consumers && run[i].consumers[t].Claimed?
      ensures run[i].consumers[t].overcommit <= run[i].consumers[t].myCount
    {
      OvercommitWithinClaim(run[i], t);
    }
    forall t | t in run[i].consumers && run[i].consumers[t].Granted?
      ensures 0 < run[i].consumers[t].count <= run[i].tail - run[i].consumers[t].first
    {
      GrantIsPublished(run[i], t);
    }
  }

  // ----- how much a claim is granted -----

  /** A claim in force: what a consumer resolves it to, when it sees this tail. */
  predicate GrantedUpTo(c: Claim, tail: nat) {
    && c.resolved && c.actual <= c.desired
    && (c.actual > 0 ==> c.base - c.overcommit + c.actual <= tail)
    && (c.actual < c.desired ==> c.base - c.overcommit + c.actual >= tail)
  }

  /** The access that settles claim k. */
  predicate Settles(s: State, s': State, k: nat) {
    && k < |s.log| && k < |s'.log| && !s.log[k].resolved
    && s'.log[k] == s.log[k].(resolved := true, actual := s'.log[k].actual, repaid := s'.log[k].repaid)
  }

  /**
   However many consumers contend: a claim gets all it asked for, or everything up to the tail that its consumer loads
   at this access, and nothing only if that tail leaves nothing to it.
   */
  lemma ClaimGetsAll(s: State, t: Tid)
    requires Inv(s) && t in s.consumers && s.consumers[t].Claimed?
    ensures var k, s' := s.consumers[t].claim, ConsumerStep(s, t);
            && Settles(s, s', k) && GrantedUpTo(s'.log[k], s.tail)
            && s'.consumers[t] == (if s'.log[k].actual < s'.log[k].desired then Repaying(s'.log[k].desired, s'.log[k].actual, k)
                                   else Taking(s'.log[k].actual, k))
  {
    assert PhaseOk(s, t);
  }

  /** Outside its own settling access, what a claim was granted does not change. */
  lemma ClaimStays(s: State, s': State, k: nat)
    requires Inv(s) && Next(s, s') && k < |s'.log| && s'.log[k].resolved
    ensures k < |s.log| && s'.log[k].desired == s.log[k].desired
    ensures s'.log[k].base == s.log[k].base && s'.log[k].overcommit == s.log[k].overcommit
    ensures if s.log[k].resolved then s'.log[k].actual == s.log[k].actual
            else Settles(s, s', k) && GrantedUpTo(s'.log[k], s.tail)
  {
    if t :| t in s.consumers && s' == ConsumerStep(s, t) {
      assert PhaseOk(s, t);
      if s.consumers[t].Claimed? { ClaimGetsAll(s, t); }
    }
  }

  /** Over every run: a settled claim was settled at one access of the run, for everything up to the tail of that access. */
  lemma {:induction false} ShortGrantsReachTail(run: seq<State>, i: nat, k: nat)
    requires Run(run) && i < |run| && k < |run[i].log| && run[i].log[k].resolved
    ensures exists j :: 0 <= j < i && Settles(run[j], run[j + 1], k) && GrantedUpTo(run[i].log[k], run[j].tail)
  {
    hide Inv, Next, Settles;
    RunInv(run, i - 1);
    assert Next(run[i - 1], run[i - 1 + 1]);
    ClaimStays(run[i - 1], run[i], k);
    if run[i - 1].log[k].resolved { ShortGrantsReachTail(run, i - 1, k); }
  }

  /** The access at which a consumer, on entering the call, loads the tail. */
  predicate Loads(s: State, s': State, t: Tid, tail: nat) {
    t in s.consumers && s.consumers[t].Idle? && s' == ConsumerStep(s, t) && s.tail == tail
  }

  /** The tail and the overcommit counter that a consumer works with are those of earlier accesses. */
  lemma {:induction false} LoadedValues(run: seq<State>, i: nat, t: Tid)
    requires Run(run) && i < |run| && t in run[i].consumers
    ensures match run[i].consumers[t]
      case HaveTail(tail) => TailLoaded(run, i, t, tail)
      case HaveOvercommit(tail, overcommit) => TailLoaded(run, i, t, tail) && OvercommitSeen(run, i, overcommit)
      case _ => true
  {
    hide ConsumerStep, Loads;
    if i > 0 {
      var s := run[i - 1];
      RunStep(run, i - 1);
      LoadStep(s, run[i], t);
      hide Run;
      LoadedValues(run, i - 1, t);
      if Loads(s, run[i], t, s.tail) { assert Loads(run[i - 1], run[i - 1 + 1], t, s.tail); }
    }
  }

  predicate TailLoaded(run: seq<State>, i: nat, t: Tid, tail: nat)
    requires i < |run|
  {
    exists j :: 0 <= j < i && Loads(run[j], run[j + 1], t, tail)
  }

  predicate OvercommitSeen(run: seq<State>, i: nat, overcommit: nat)
    requires i < |run|
  {
    exists j :: 0 <= j < i && run[j].overcommit == overcommit
  }

  lemma RunStep(run: seq<State>, i: nat)
    requires Run(run) && i + 1 < |run|
    ensures Next(run[i], run[i + 1])
  {
  }

  lemma LoadStep(s: State, s': State, t: Tid)
    requires Next(s, s') && t in s'.consumers
    ensures t in s.consumers
    ensures match s'.consumers[t]
      case HaveTail(tail) => s.consumers[t] == HaveTail(tail) || Loads(s, s', t, tail)
      case HaveOvercommit(tail, overcommit) =>
        s.consumers[t] == HaveOvercommit(tail, overcommit) || (s.consumers[t] == HaveTail(tail) && s.overcommit == overcommit)
      case _ => true
  {
    hide ConsumerStep;
    if u :| u in s.consumers && s' == ConsumerStep(s, u) {
      if u == t { OwnStep(s, t); } else { OtherStep(s, u, t); }
    }
  }

  lemma OwnStep(s: State, t: Tid)
    requires t in s.consumers
    ensures var s' := ConsumerStep(s, t);
      t in s'.consumers &&
      match s'.consumers[t]
      case HaveTail(tail) => s.consumers[t].Idle? && s.tail == tail
      case HaveOvercommit(tail, overcommit) => s.consumers[t] == HaveTail(tail) && s.overcommit == overcommit
      case _ => true
  {
  }

  lemma OtherStep(s: State, u: Tid, t: Tid)
    requires u in s.consumers && u != t
    ensures t in ConsumerStep(s, u).consumers <==> t in s.consumers
    ensures t in s.consumers ==> ConsumerStep(s, u).consumers[t] == s.consumers[t]
  {
  }

  /**
   A call returns without an element only if the tail it loaded leaves it nothing: the one it loaded before claiming,
   or, once it has claimed, the one it loaded after.
   */
  lemma GivesUpOnlyEmpty(run: seq<State>, i: nat, t: Tid)
    requires Run(run) && i + 1 < |run| && t in run[i].consumers && run[i + 1] == ConsumerStep(run[i], t)
    requires !run[i].consumers[t].Granted? && run[i + 1].consumers[t].Idle?
    ensures match run[i].consumers[t]
      case HaveOvercommit(tail, overcommit) =>
        && tail <= run[i].optimistic - overcommit
        && TailLoaded(run, i, t, tail)
      case Repaying(_, _, k) =>
        && k < |run[i].log| && run[i].log[k].owner == t && run[i].log[k].actual == 0
        && exists j :: 0 <= j < i && Settles(run[j], run[j + 1], k) && run[i].log[k].base - run[i].log[k].overcommit >= run[j].tail
      case _ => false
  {
    RunInv(run, i);
    LoadedValues(run, i, t);
    hide Run;
    assert PhaseOk(run[i], t);
    if run[i].consumers[t].Repaying? {
      var k := run[i].consumers[t].claim;
      ShortGrantsReachTail(run, i, k);
      hide Inv, Settles;
    }
  }

  // ----- a single consumer -----

  /** What a consumer that has the queue to itself knows at each of its phases. */
  predicate AloneInv(s: State, t: Tid) {
    && s.consumers.Keys == {t}
    && match s.consumers[t]
       case HaveTail(tail) => s.head <= tail
       case HaveOvercommit(tail, overcommit) => s.head <= tail && overcommit == s.overcommit
       case HaveDesired(overcommit, desired) => overcommit == s.overcommit && s.head + desired <= s.tail
       case Claimed(overcommit, desired, myCount, _) => myCount - overcommit == s.head && s.head + desired <= s.tail
       case Repaying(_, _, _) => false
       case _ => true
  }

  /**
   A lone consumer is never granted less than it asked for and never repays: it gives up exactly when the
   tail it loaded equals the head, and otherwise asks for everything up to that tail, at most MAX_BULK.
   */
  lemma AloneConsumerIsExact(s: State, t: Tid)
    requires Inv(s) && AloneInv(s, t)
    ensures AloneInv(ConsumerStep(s, t), t) && AloneInv(Publish(s), t)
    ensures var p, p' := s.consumers[t], ConsumerStep(s, t).consumers[t];
            && (p.HaveOvercommit? ==> p' == if p.tail == s.head then Idle else HaveDesired(p.overcommit, Min(p.tail - s.head, MAX_BULK)))
            && (p.Claimed? ==> p' == Taking(p.desired, p.claim))
            && (p.Taking? ==> p' == Granted(s.head, p.actual))
  {
    assert PhaseOk(s, t);
    HeadWithinTail(s);
    if s.consumers[t].Idle? || s.consumers[t].HaveTail? || s.consumers[t].HaveOvercommit? || s.consumers[t].HaveDesired? {
      assert Quiescent(s) by {
        forall u | u in s.consumers ensures u == t {
          assert u in s.consumers.Keys;
        }
      }
      QuiescentCounters(s);
    }
    assert ConsumerStep(s, t).consumers.Keys == {t};
  }
}
