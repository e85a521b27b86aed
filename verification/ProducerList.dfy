/**
 How producers join the queue: add_producer prepends to a linked list with a compare-and-swap loop, any number of
 threads at once, one atomic access per step. chain, the linked producers from the tail on, is read by no step.
 */
module ProducerList {

  import opened Options

  type Tid = nat
  type Ptr = nat

  datatype Pc = Idle | Count(p: Ptr) | LoadTail(p: Ptr) | SetNext(p: Ptr, prev: Option<Ptr>) | Swap(p: Ptr, prev: Option<Ptr>)

  datatype State = State(tail: Option<Ptr>, next: map<Ptr, Option<Ptr>>, count: nat, threads: map<Tid, Pc>, chain: seq<Ptr>)

  predicate Init(s: State) {
    s.tail == None && s.next == map[] && s.count == 0 && s.chain == [] && forall t <- s.threads :: s.threads[t] == Idle
  }

  function SetPc(s: State, t: Tid, pc: Pc): State { s.(threads := s.threads[t := pc]) }

  /** One atomic access of a thread inside add_producer; the weak compare-and-swap may fail for no reason. */
  function Step(s: State, t: Tid, spurious: bool): State
    requires t in s.threads
  {
    match s.threads[t]
    case Idle => s
    case Count(p) => SetPc(s, t, LoadTail(p)).(count := s.count + 1)
    case LoadTail(p) => SetPc(s, t, SetNext(p, s.tail))
    case SetNext(p, prev) => SetPc(s, t, Swap(p, prev)).(next := s.next[p := prev])
    case Swap(p, prev) =>
      if s.tail == prev && !spurious
      then SetPc(s, t, Idle).(tail := Some(p), chain := [p] + s.chain)
      else SetPc(s, t, SetNext(p, s.tail))
  }

  /** An idle thread has just created producer p and calls add_producer. */
  function Create(s: State, t: Tid, p: Ptr): State { SetPc(s, t, Count(p)).(next := s.next[p := None]) }

  ghost predicate Next(s: State, s': State) {
    || (exists t, spurious | t in s.threads :: s' == Step(s, t, spurious))
    || (exists t, p | t in s.threads :: s.threads[t].Idle? && p !in s.next && s' == Create(s, t, p))
  }

  function At(chain: seq<Ptr>, i: nat): Option<Ptr> { if i < |chain| then Some(chain[i]) else None }

  predicate ChainOk(s: State) {
    && s.tail == At(s.chain, 0)
    && (forall i | 0 <= i < |s.chain| :: s.chain[i] in s.next && s.next[s.chain[i]] == At(s.chain, i + 1))
    && (forall i, j | 0 <= i < j < |s.chain| :: s.chain[i] != s.chain[j])
  }

  /** A producer being linked is its thread's alone, and off the chain. */
  predicate ThreadsOk(s: State) {
    && (forall t <- s.threads | !s.threads[t].Idle? :: s.threads[t].p in s.next && s.threads[t].p !in s.chain)
    && (forall t, u | t in s.threads && u in s.threads && t != u && !s.threads[t].Idle? && !s.threads[u].Idle? ::
          s.threads[t].p != s.threads[u].p)
    && (forall t <- s.threads | s.threads[t].Swap? :: s.next[s.threads[t].p] == s.threads[t].prev)
  }

  function Counted(s: State): set<Tid> { set t | t in s.threads && !s.threads[t].Idle? && !s.threads[t].Count? }

  predicate Inv(s: State) {
    ChainOk(s) && ThreadsOk(s) && s.count == |s.chain| + |Counted(s)|
  }

  /** The older chain is what the newer one ends with. */
  predicate EndsWith(longer: seq<Ptr>, shorter: seq<Ptr>) {
    |shorter| <= |longer| && longer[|longer| - |shorter|..] == shorter
  }

  lemma CountedChange(s: State, s': State, t: Tid)
    requires t in s.threads && t in s'.threads && s'.threads == s.threads[t := s'.threads[t]]
    ensures |Counted(s')| == |Counted(s)| + (if t in Counted(s') then 1 else 0) - (if t in Counted(s) then 1 else 0)
  {
    assert Counted(s') == if t in Counted(s') then Counted(s) + {t} else Counted(s) - {t};
  }

  /** What a step of thread t may touch. */
  lemma StepShape(s: State, t: Tid, spurious: bool)
    requires t in s.threads
    ensures var s' := Step(s, t, spurious);
      && t in s'.threads && s'.threads == s.threads[t := s'.threads[t]]
      && (s.threads[t].Idle? ==> s' == s)
      && (!s.threads[t].Idle? ==>
            (s'.threads[t].Idle? || s'.threads[t].p == s.threads[t].p)
            && (s'.next == s.next || (s'.next == s.next[s.threads[t].p := s'.next[s.threads[t].p]] && s'.chain == s.chain))
            && (s'.chain == s.chain || (s'.chain == [s.threads[t].p] + s.chain && s'.threads[t].Idle?)))
      && (s'.threads[t].Swap? ==> s.threads[t].SetNext? && s.threads[t].prev == s'.threads[t].prev && s'.next == s.next[s'.threads[t].p := s'.threads[t].prev])
  {
  }

  lemma StepChain(s: State, t: Tid, spurious: bool)
    requires ChainOk(s) && ThreadsOk(s) && t in s.threads
    ensures ChainOk(Step(s, t, spurious)) && EndsWith(Step(s, t, spurious).chain, s.chain)
  {
    if s.threads[t].Swap? && s.tail == s.threads[t].prev && !spurious {
      LinkedChain(s, t);
    } else {
      UnlinkedChain(s, t, spurious);
    }
  }

  lemma LinkedChain(s: State, t: Tid)
    requires ChainOk(s) && ThreadsOk(s) && t in s.threads && s.threads[t].Swap? && s.tail == s.threads[t].prev
    ensures ChainOk(Step(s, t, false)) && EndsWith(Step(s, t, false).chain, s.chain)
  {
    var s' := Step(s, t, false);
    assert s'.chain[1..] == s.chain;
    forall i | 0 <= i < |s'.chain| ensures s'.chain[i] in s'.next && s'.next[s'.chain[i]] == At(s'.chain, i + 1) {
      if i > 0 { assert s'.chain[i] == s.chain[i - 1]; }
    }
  }

  lemma UnlinkedChain(s: State, t: Tid, spurious: bool)
    requires ChainOk(s) && ThreadsOk(s) && t in s.threads
    requires !(s.threads[t].Swap? && s.tail == s.threads[t].prev && !spurious)
    ensures ChainOk(Step(s, t, spurious)) && EndsWith(Step(s, t, spurious).chain, s.chain)
  {
  }

  lemma StepThreads(s: State, t: Tid, spurious: bool)
    requires ThreadsOk(s) && t in s.threads
    ensures ThreadsOk(Step(s, t, spurious))
  {
    hide Step;
    StepShape(s, t, spurious);
  }

  lemma StepInv(s: State, t: Tid, spurious: bool)
    requires Inv(s) && t in s.threads
    ensures Inv(Step(s, t, spurious)) && EndsWith(Step(s, t, spurious).chain, s.chain)
  {
    hide ChainOk, ThreadsOk, EndsWith, Counted, Step;
    StepChain(s, t, spurious);
    StepThreads(s, t, spurious);
    StepCount(s, t, spurious);
  }

  lemma StepCount(s: State, t: Tid, spurious: bool)
    requires t in s.threads && s.count == |s.chain| + |Counted(s)|
    ensures var s' := Step(s, t, spurious); s'.count == |s'.chain| + |Counted(s')|
  {
    hide Counted;
    CountedChange(s, Step(s, t, spurious), t);
    CountedNow(s, t);
    CountedNow(Step(s, t, spurious), t);
  }

  lemma CountedNow(s: State, t: Tid)
    ensures t in Counted(s) <==> t in s.threads && !s.threads[t].Idle? && !s.threads[t].Count?
  {
  }

  lemma CreateInv(s: State, t: Tid, p: Ptr)
    requires Inv(s) && t in s.threads && s.threads[t].Idle? && p !in s.next
    ensures Inv(Create(s, t, p))
  {
    CountedChange(s, Create(s, t, p), t);
  }

  lemma NextInv(s: State, s': State)
    requires Inv(s) && Next(s, s')
    ensures Inv(s') && EndsWith(s'.chain, s.chain)
  {
    hide Inv, Step;
    if t, spurious :| t in s.threads && s' == Step(s, t, spurious) {
      StepInv(s, t, spurious);
    } else {
      var t, p :| t in s.threads && s.threads[t].Idle? && p !in s.next && s' == Create(s, t, p);
      CreateInv(s, t, p);
    }
  }

  ghost predicate Run(states: seq<State>) {
    |states| > 0 && Init(states[0]) && forall i | 0 <= i < |states| - 1 :: Next(states[i], states[i + 1])
  }

  lemma {:induction false} RunInv(states: seq<State>, i: nat)
    requires Run(states) && i < |states|
    ensures Inv(states[i])
  {
    if i == 0 {
      assert Counted(states[0]) == {};
    } else {
      RunInv(states, i - 1);
      NextInv(states[i - 1], states[i]);
    }
  }

  /** The list is prepend-only: whatever was linked stays linked, in its place from the end. */
  lemma {:induction false} PrependOnly(states: seq<State>, i: nat, j: nat)
    requires Run(states) && i <= j < |states|
    ensures EndsWith(states[j].chain, states[i].chain)
    decreases j
  {
    hide Next, Inv;
    if i < j {
      PrependOnly(states, i, j - 1);
      RunInv(states, j - 1);
      NextInv(states[j - 1], states[j]);
    }
  }

  /** The producer with number k, counted from the end of the list. */
  function Numbered(s: State, k: nat): Ptr
    requires k < |s.chain|
  {
    s.chain[|s.chain| - 1 - k]
  }

  /** Numbers are stable, and each producer links to the one numbered just below, whatever is added meanwhile. */
  lemma LinksAreNumbers(states: seq<State>, i: nat, j: nat, k: nat)
    requires Run(states) && i <= j < |states| && k < |states[i].chain|
    ensures k < |states[j].chain| && Numbered(states[j], k) == Numbered(states[i], k)
    ensures Numbered(states[j], k) in states[j].next
    ensures states[j].next[Numbered(states[j], k)] == if k == 0 then None else Some(Numbered(states[j], k - 1))
    ensures states[j].tail == Some(Numbered(states[j], |states[j].chain| - 1))
  {
    PrependOnly(states, i, j);
    RunInv(states, j);
    var a, b := states[i].chain, states[j].chain;
    assert b[|b| - |a|..][|a| - 1 - k] == a[|a| - 1 - k];
  }

  /** The count never lags behind the list, so a consumer that sees a producer divides by a positive count. */
  lemma CountCovers(states: seq<State>, i: nat)
    requires Run(states) && i < |states|
    ensures |states[i].chain| <= states[i].count
    ensures states[i].tail.Some? ==> states[i].count > 0
  {
    RunInv(states, i);
  }
}
