/**
 How many threads the free list bears: with 2^31 - 1 threads, all of which may hold the first node at once, the count
 reaches the flag bit and the assertion of try_get fails. With fewer it never does.
 */
module FreeListLimit {

  import opened Options
  import opened FreeList

  const LIMIT: nat := SHOULD_BE_ON_FREELIST - 1

  /** A run from any start, however many threads there are. */
  ghost predicate RunFrom(start: State, states: seq<State>) {
    |states| > 0 && states[0] == start && forall i | 0 <= i < |states| - 1 :: Next(states[i], states[i + 1])
  }

  /** The assertion after a successful pop. */
  predicate PopAssertHolds(s: State, t: Tid)
    requires t in s.threads
  {
    s.threads[t].GetCheck? && s.threads[t].node in s.refs ==> s.refs[s.threads[t].node] < SHOULD_BE_ON_FREELIST
  }

  /** In no run from this start does the assertion fail. */
  ghost predicate AlwaysHolds(start: State) {
    forall states: seq<State>, i, t | RunFrom(start, states) && 0 <= i < |states| && t in states[i].threads ::
      PopAssertHolds(states[i], t)
  }

  lemma Extend(start: State, states: seq<State>, s: State)
    requires RunFrom(start, states) && Next(states[|states| - 1], s)
    ensures RunFrom(start, states + [s])
  {
    hide Next;
  }

  /** Thread t makes its next access. */
  lemma Advance(start: State, states: seq<State>, t: Tid) returns (longer: seq<State>)
    requires RunFrom(start, states) && Enabled(states[|states| - 1], t)
    ensures RunFrom(start, longer) && longer[|longer| - 1] == Step(states[|states| - 1], t)
  {
    hide Step;
    var s := states[|states| - 1];
    assert Next(s, Step(s, t));
    Extend(start, states, Step(s, t));
    longer := states + [Step(s, t)];
  }

  /** Node n is listed alone; the first i of the threads hold it, all others are idle. */
  predicate Held(s: State, start: State, n: Node, threads: seq<Tid>, i: nat)
    requires i <= |threads|
  {
    && s.threads.Keys == start.threads.Keys && Known(s, n)
    && s.head == Some(n) && s.refs[n] == 1 + i
    && (forall j | 0 <= j < i :: threads[j] in s.threads && s.threads[threads[j]] == GetNext(n))
    && (forall t <- s.threads | t !in threads[..i] :: s.threads[t] == Idle)
  }

  predicate Distinct(threads: seq<Tid>) { forall i, j | 0 <= i < j < |threads| :: threads[i] != threads[j] }

  /** One thread puts the node on the empty list and returns. */
  lemma ListNode(start: State, n: Node, threads: seq<Tid>) returns (states: seq<State>)
    requires Start(start) && n in start.role && |threads| > 0 && threads[0] in start.threads
    ensures RunFrom(start, states) && Held(states[|states| - 1], start, n, threads, 0)
  {
    hide RunFrom, Next;
    var t := threads[0];
    states := CallAddFirst(start, n, t);
    states := Advance(start, states, t);
    states := Advance(start, states, t);
    states := Advance(start, states, t);
    states := Advance(start, states, t);
    states := Advance(start, states, t);
  }

  lemma CallAddFirst(start: State, n: Node, t: Tid) returns (states: seq<State>)
    requires Start(start) && n in start.role && t in start.threads
    ensures RunFrom(start, states) && states[|states| - 1] == CallAdd(start, t, n)
  {
    assert Next(start, CallAdd(start, t, n));
    states := [start, CallAdd(start, t, n)];
  }

  /** One more thread enters try_get and counts itself in. */
  lemma HoldOne(start: State, states: seq<State>, n: Node, threads: seq<Tid>, i: nat) returns (longer: seq<State>)
    requires RunFrom(start, states) && Distinct(threads) && i < |threads| && threads[i] in start.threads
    requires Held(states[|states| - 1], start, n, threads, i) && 1 + i < SHOULD_BE_ON_FREELIST
    ensures RunFrom(start, longer) && Held(longer[|longer| - 1], start, n, threads, i + 1)
  {
    hide Next, Step, SetPc;
    var t, s := threads[i], states[|states| - 1];
    assert t !in threads[..i];
    CountedIn(s, t, n);
    longer := CallTryGet(start, states, t);
    longer := Advance(start, longer, t);
    longer := Advance(start, longer, t);
    longer := Advance(start, longer, t);
    assert threads[..i + 1] == threads[..i] + [t];
  }

  /** try_get up to the counted reference, alone. */
  lemma CountedIn(s: State, t: Tid, n: Node)
    requires t in s.threads && s.threads[t] == Idle && Known(s, n) && s.head == Some(n) && 0 < s.refs[n] < SHOULD_BE_ON_FREELIST
    ensures var a := SetPc(s, t, GetHead);
      && Enabled(a, t) && Enabled(Step(a, t), t) && Enabled(Step(Step(a, t), t), t)
      && Step(Step(Step(a, t), t), t) == s.(threads := s.threads[t := GetNext(n)], refs := s.refs[n := s.refs[n] + 1], role := s.role[n := s.role[n]])
  {
    var a := SetPc(s, t, GetHead);
    var b := Step(a, t);
    assert b == SetPc(s, t, GetRefs(n));
    var c := Step(b, t);
    assert c == SetPc(s, t, GetInc(n, s.refs[n]));
  }

  lemma CallTryGet(start: State, states: seq<State>, t: Tid) returns (longer: seq<State>)
    requires RunFrom(start, states) && t in states[|states| - 1].threads && states[|states| - 1].threads[t].Idle?
    ensures RunFrom(start, longer) && longer[|longer| - 1] == SetPc(states[|states| - 1], t, GetHead)
  {
    var s := states[|states| - 1];
    assert Next(s, SetPc(s, t, GetHead));
    Extend(start, states, SetPc(s, t, GetHead));
    longer := states + [SetPc(s, t, GetHead)];
  }

  lemma {:induction false} HoldAll(start: State, n: Node, threads: seq<Tid>, i: nat) returns (states: seq<State>)
    requires Start(start) && n in start.role && Distinct(threads) && 0 < |threads| && i <= |threads| && i < SHOULD_BE_ON_FREELIST
    requires forall j | 0 <= j < |threads| :: threads[j] in start.threads
    ensures RunFrom(start, states) && Held(states[|states| - 1], start, n, threads, i)
  {
    hide Held, Next;
    if i == 0 {
      states := ListNode(start, n, threads);
    } else {
      states := HoldAll(start, n, threads, i - 1);
      states := HoldOne(start, states, n, threads, i - 1);
    }
  }

  /** The first of them pops the node while all hold it: the assertion finds the flag up. */
  lemma PopUnderAll(start: State, n: Node, threads: seq<Tid>) returns (states: seq<State>)
    requires Start(start) && n in start.role && Distinct(threads) && |threads| == LIMIT
    requires forall j | 0 <= j < |threads| :: threads[j] in start.threads
    ensures RunFrom(start, states) && threads[0] in states[|states| - 1].threads
    ensures !PopAssertHolds(states[|states| - 1], threads[0])
  {
    hide Next;
    states := HoldAll(start, n, threads, LIMIT);
    assert states[|states| - 1].threads[threads[0]] == GetNext(n);
    states := Advance(start, states, threads[0]);
    states := Advance(start, states, threads[0]);
  }

  lemma {:induction false} Pick(from: set<Tid>, k: nat) returns (threads: seq<Tid>)
    requires k <= |from|
    ensures |threads| == k && Distinct(threads) && forall j | 0 <= j < k :: threads[j] in from
  {
    if k == 0 {
      threads := [];
    } else {
      var t :| t in from;
      var rest := Pick(from - {t}, k - 1);
      threads := [t] + rest;
    }
  }

  /** The assertion of try_get is safe exactly for fewer than 2^31 - 1 threads. */
  lemma SafeIffFewThreads(start: State, n: Node)
    requires Start(start) && n in start.role
    ensures AlwaysHolds(start) <==> |start.threads| < LIMIT
  {
    if |start.threads| < LIMIT {
      SafeBelow(start);
    } else {
      assert |start.threads.Keys| == |start.threads|;
      var threads := Pick(start.threads.Keys, LIMIT);
      var states := PopUnderAll(start, n, threads);
    }
  }

  lemma SafeBelow(start: State)
    requires Init(start)
    ensures AlwaysHolds(start)
  {
    hide Init;
    forall states: seq<State>, i, t | RunFrom(start, states) && 0 <= i < |states| && t in states[i].threads
      ensures PopAssertHolds(states[i], t) {
      RunIsRun(start, states);
      if states[i].threads[t].GetCheck? { PopFindsFlagDown(states, i, t); }
    }
  }

  lemma RunIsRun(start: State, states: seq<State>)
    requires Init(start) && RunFrom(start, states)
    ensures Run(states)
  {
    hide Init, Next;
  }
}
