/**
 The lock-free free list of blocks: a reference-counted stack driven by compare-and-swap.

 Threads run add and try_get one atomic access at a time. freeListRefs is a 32-bit word whose top bit asks for
 the node to be put on the list; role and chain are history, read by no step.
 */
module FreeList {

  import opened Options

  type Tid = nat
  type Node = nat

  const SHOULD_BE_ON_FREELIST: nat := 0x8000_0000
  const WORD: nat := 0x1_0000_0000

  /** What a thread does after pushing a node: return from add, or go on with try_get's loop. */
  datatype Resume = Return | Loop(head: Option<Node>)

  datatype Pc =
    | Idle
    | Adding(node: Node)
    | PushHead(node: Node, resume: Resume)
    | PushNext(node: Node, head: Option<Node>, resume: Resume)
    | PushRefs(node: Node, head: Option<Node>, resume: Resume)
    | PushCas(node: Node, head: Option<Node>, resume: Resume)
    | PushFail(node: Node, head: Option<Node>, resume: Resume)
    | GetHead
    | GetRefs(node: Node)
    | GetInc(node: Node, seen: nat)
    | GetNext(node: Node)
    | GetCas(node: Node, next: Option<Node>)
    | GetCheck(node: Node)
    | GetDrop(node: Node)
    | GetUnref(node: Node, head: Option<Node>)

  /** Where a node is: with its user, on its way to the list, on the list, or being taken. */
  datatype Role = Out | Entering(t: Tid) | Waiting | Pushing(t: Tid) | Listed | Taken(t: Tid)

  datatype State = State(head: Option<Node>, refs: map<Node, nat>, next: map<Node, Option<Node>>,
                         threads: map<Tid, Pc>, role: map<Node, Role>, chain: seq<Node>)

  /** Nodes start as FreeListNode() leaves them, threads idle. */
  predicate Start(s: State) {
    && s.head == None && s.chain == []
    && s.refs.Keys == s.next.Keys == s.role.Keys
    && (forall n <- s.refs :: s.refs[n] == 0 && s.next[n] == None && s.role[n] == Out)
    && (forall t <- s.threads :: s.threads[t] == Idle)
  }

  /** So many threads that a count of all of them and the list's own stays below the flag bit. */
  predicate Init(s: State) { Start(s) && |s.threads| < SHOULD_BE_ON_FREELIST - 1 }

  function SetPc(s: State, t: Tid, pc: Pc): State { s.(threads := s.threads[t := pc]) }

  function SetNode(s: State, n: Node, refs: nat, role: Role): State {
    s.(refs := s.refs[n := refs], role := s.role[n := role])
  }

  /** The top of try_get's loop: an empty list ends it. */
  function LoopTop(head: Option<Node>): Pc { if head.None? then Idle else GetRefs(head.value) }

  function Continue(resume: Resume): Pc { if resume.Return? then Idle else LoopTop(resume.head) }

  predicate Known(s: State, n: Node) { n in s.refs && n in s.next && n in s.role }

  predicate Enabled(s: State, t: Tid) {
    t in s.threads && !s.threads[t].Idle? && (s.threads[t].GetHead? || Known(s, s.threads[t].node))
  }

  /** One atomic access of a thread inside add or try_get. */
  function Step(s: State, t: Tid): State
    requires Enabled(s, t)
  {
    match s.threads[t]
    case Adding(n) =>
      var was := s.refs[n];
      if was == 0
      then SetPc(SetNode(s, n, (was + SHOULD_BE_ON_FREELIST) % WORD, Pushing(t)), t, PushHead(n, Return))
      else SetPc(SetNode(s, n, (was + SHOULD_BE_ON_FREELIST) % WORD, Waiting), t, Idle)
    case PushHead(n, resume) => SetPc(s, t, PushNext(n, s.head, resume))
    case PushNext(n, h, resume) => SetPc(s, t, PushRefs(n, h, resume)).(next := s.next[n := h])
    case PushRefs(n, h, resume) => SetPc(s, t, PushCas(n, h, resume)).(refs := s.refs[n := 1])
    case PushCas(n, h, resume) =>
      if s.head == h
      then SetPc(s, t, Continue(resume)).(head := Some(n), role := s.role[n := Listed], chain := [n] + s.chain)
      else SetPc(s, t, PushFail(n, s.head, resume))
    case PushFail(n, h, resume) =>
      var was := s.refs[n];
      if was == 1
      then SetPc(SetNode(s, n, (was + SHOULD_BE_ON_FREELIST - 1) % WORD, Pushing(t)), t, PushNext(n, h, resume))
      else SetPc(SetNode(s, n, (was + SHOULD_BE_ON_FREELIST - 1) % WORD, Waiting), t, Continue(resume))
    case GetHead => SetPc(s, t, LoopTop(s.head))
    case GetRefs(n) =>
      if s.refs[n] % SHOULD_BE_ON_FREELIST == 0 then SetPc(s, t, GetHead) else SetPc(s, t, GetInc(n, s.refs[n]))
    case GetInc(n, seen) =>
      if s.refs[n] == seen
      then SetPc(SetNode(s, n, (seen + 1) % WORD, s.role[n]), t, GetNext(n))
      else SetPc(s, t, GetHead)
    case GetNext(n) => SetPc(s, t, GetCas(n, s.next[n]))
    case GetCas(n, next) =>
      if s.head == Some(n)
      then SetPc(s, t, GetCheck(n)).(head := next, role := s.role[n := Taken(t)], chain := if |s.chain| > 0 then s.chain[1..] else [])
      else SetPc(s, t, GetUnref(n, s.head))
    case GetCheck(n) => SetPc(s, t, GetDrop(n))
    case GetDrop(n) => SetPc(SetNode(s, n, (s.refs[n] - 2) % WORD, Out), t, Idle)
    case GetUnref(n, h) =>
      var was := s.refs[n];
      if was == SHOULD_BE_ON_FREELIST + 1
      then SetPc(SetNode(s, n, (was - 1) % WORD, Pushing(t)), t, PushHead(n, Loop(h)))
      else SetPc(SetNode(s, n, (was - 1) % WORD, s.role[n]), t, LoopTop(h))
  }

  /** An idle thread calls add on a node that its user owns, or calls try_get. */
  function CallAdd(s: State, t: Tid, n: Node): State {
    SetPc(s, t, Adding(n)).(role := s.role[n := Entering(t)])
  }

  ghost predicate Next(s: State, s': State) {
    || (exists t <- s.threads :: Enabled(s, t) && s' == Step(s, t))
    || (exists t <- s.threads :: s.threads[t].Idle? && s' == SetPc(s, t, GetHead))
    || (exists t, n | t in s.threads && n in s.role :: s.threads[t].Idle? && s.role[n].Out? && s' == CallAdd(s, t, n))
  }

  // ----- the invariant -----

  /** Thread state pc holds a counted reference to node n. */
  predicate Holds(pc: Pc, n: Node) {
    (pc.GetNext? || pc.GetCas? || pc.GetCheck? || pc.GetDrop? || pc.GetUnref?) && pc.node == n
  }

  function Holders(s: State, n: Node): set<Tid> { set t | t in s.threads && Holds(s.threads[t], n) }

  predicate Pushes(pc: Pc, n: Node) {
    (pc.PushHead? || pc.PushNext? || pc.PushRefs? || pc.PushCas? || pc.PushFail?) && pc.node == n
  }

  /** The pusher has made the node reachable for counting: it holds the list's reference. */
  predicate Exposed(pc: Pc) { pc.PushCas? || pc.PushFail? }

  predicate NodeOk(s: State, n: Node)
    requires Known(s, n)
  {
    var h, r := |Holders(s, n)|, s.refs[n];
    match s.role[n]
    case Out => r == h
    case Entering(t) => r == h && t in s.threads && s.threads[t] == Adding(n)
    case Waiting => r == SHOULD_BE_ON_FREELIST + h && h > 0
    case Pushing(t) =>
      && t in s.threads && Pushes(s.threads[t], n)
      && if Exposed(s.threads[t]) then r == 1 + h else r == SHOULD_BE_ON_FREELIST && h == 0
    case Listed => r == 1 + h
    case Taken(t) => r == 1 + h && t in s.threads && (s.threads[t] == GetCheck(n) || s.threads[t] == GetDrop(n))
  }

  predicate ThreadOk(s: State, t: Tid)
    requires t in s.threads
  {
    var pc := s.threads[t];
    (pc.Idle? || pc.GetHead? || Known(s, pc.node)) &&
    match pc
    case Adding(n) => s.role[n] == Entering(t)
    case PushHead(n, resume) => s.role[n] == Pushing(t) && ResumeOk(s, resume)
    case PushNext(n, h, resume) => s.role[n] == Pushing(t) && ResumeOk(s, resume) && HeadOk(s, h)
    case PushRefs(n, h, resume) => s.role[n] == Pushing(t) && s.next[n] == h && ResumeOk(s, resume) && HeadOk(s, h)
    case PushCas(n, h, resume) => s.role[n] == Pushing(t) && s.next[n] == h && ResumeOk(s, resume) && HeadOk(s, h)
    case PushFail(n, h, resume) => s.role[n] == Pushing(t) && ResumeOk(s, resume) && HeadOk(s, h)
    case GetCas(n, next) => s.next[n] == next
    case GetCheck(n) => s.role[n] == Taken(t)
    case GetDrop(n) => s.role[n] == Taken(t)
    case GetUnref(n, h) => HeadOk(s, h)
    case GetInc(_, seen) => seen % SHOULD_BE_ON_FREELIST != 0
    case _ => true
  }

  predicate HeadOk(s: State, h: Option<Node>) { h.Some? ==> Known(s, h.value) }

  predicate ResumeOk(s: State, resume: Resume) { resume.Loop? ==> HeadOk(s, resume.head) }

  /** The head pointer and the next pointers spell the chain; listed nodes are on it exactly once. */
  predicate ChainOk(s: State) {
    && s.head == At(s.chain, 0)
    && (forall i | 0 <= i < |s.chain| :: Known(s, s.chain[i]) && s.role[s.chain[i]] == Listed && s.next[s.chain[i]] == At(s.chain, i + 1))
    && (forall i, j | 0 <= i < j < |s.chain| :: s.chain[i] != s.chain[j])
    && (forall n <- s.role | s.role[n] == Listed :: n in s.chain)
  }

  function At(chain: seq<Node>, i: nat): Option<Node> { if i < |chain| then Some(chain[i]) else None }

  predicate Inv(s: State) {
    && s.refs.Keys == s.next.Keys == s.role.Keys && |s.threads| < SHOULD_BE_ON_FREELIST - 1
    && (forall n <- s.role :: NodeOk(s, n))
    && (forall t <- s.threads :: ThreadOk(s, t))
    && ChainOk(s)
  }

  lemma InitInv(s: State)
    requires Init(s)
    ensures Inv(s)
  {
    forall n | n in s.role ensures NodeOk(s, n) {
      assert Holders(s, n) == {};
    }
  }

  lemma SubsetSize(a: set<Tid>, b: set<Tid>)
    requires a <= b
    ensures |a| <= |b|
  {
    assert b == a + (b - a);
  }

  /** Counts never reach the flag bit. */
  lemma HoldersBound(s: State, n: Node)
    ensures |Holders(s, n)| <= |s.threads|
  {
    SubsetSize(Holders(s, n), s.threads.Keys);
    assert |s.threads.Keys| == |s.threads|;
  }

  /** How a step of thread t changes the holders of a node. */
  lemma HoldersChange(s: State, s': State, t: Tid, n: Node)
    requires t in s.threads && t in s'.threads && s'.threads == s.threads[t := s'.threads[t]]
    ensures Holders(s', n) == if Holds(s'.threads[t], n) then Holders(s, n) + {t} else Holders(s, n) - {t}
    ensures |Holders(s', n)| == |Holders(s, n)| + (if Holds(s'.threads[t], n) then 1 else 0) - (if Holds(s.threads[t], n) then 1 else 0)
  {
    assert t in Holders(s, n) <==> Holds(s.threads[t], n);
    assert Holders(s', n) == if Holds(s'.threads[t], n) then Holders(s, n) + {t} else Holders(s, n) - {t};
  }

  // ----- preservation -----

  /** A step of t that touches at most node n: what remains is n itself, t itself, and the chain. */
  lemma StepFrame(s: State, s': State, t: Tid, n: Node)
    requires Inv(s) && t in s.threads && t in s'.threads && s'.threads == s.threads[t := s'.threads[t]]
    requires Known(s, n) && n in s'.refs && n in s'.next && n in s'.role
    requires s'.refs == s.refs[n := s'.refs[n]] && s'.next == s.next[n := s'.next[n]] && s'.role == s.role[n := s'.role[n]]
    requires forall m <- s.role | m != n :: Holds(s.threads[t], m) <==> Holds(s'.threads[t], m)
    requires forall m <- s.role | m != n :: !OwnedBy(s.role[m], t)
    requires forall u <- s.threads | u != t :: ThreadOk(s', u)
    requires NodeOk(s', n) && ThreadOk(s', t) && ChainOk(s')
    ensures Inv(s')
  {
    hide NodeOk, ThreadOk, ChainOk, Holders, Holds;
    SameThreads(s, s', t);
    forall m | m in s'.role ensures NodeOk(s', m) {
      if m != n { NodeKept(s, s', t, m); }
    }
  }

  lemma SameThreads(s: State, s': State, t: Tid)
    requires t in s.threads && t in s'.threads && s'.threads == s.threads[t := s'.threads[t]]
    ensures s'.threads.Keys == s.threads.Keys && |s'.threads| == |s.threads|
  {
    assert s'.threads.Keys == s.threads.Keys;
    assert |s'.threads| == |s'.threads.Keys| == |s.threads.Keys| == |s.threads|;
  }

  /** A node that t neither holds nor owns is as it was. */
  lemma NodeKept(s: State, s': State, t: Tid, m: Node)
    requires t in s.threads && t in s'.threads && s'.threads == s.threads[t := s'.threads[t]]
    requires Known(s, m) && Known(s', m) && NodeOk(s, m) && !OwnedBy(s.role[m], t)
    requires s'.refs[m] == s.refs[m] && s'.role[m] == s.role[m]
    requires Holds(s.threads[t], m) <==> Holds(s'.threads[t], m)
    ensures NodeOk(s', m)
  {
    hide Holders, Holds;
    HoldersChange(s, s', t, m);
  }

  /** A role that names one thread. */
  predicate OwnedBy(role: Role, t: Tid) { role == Entering(t) || role == Pushing(t) || role == Taken(t) }

  predicate Ownerless(role: Role) { role.Out? || role.Waiting? || role.Listed? }

  /** Other threads keep their view when t changes node n, and its link only while nobody holds n. */
  lemma OthersOk(s: State, s': State, t: Tid, n: Node)
    requires Inv(s) && t in s.threads && t in s'.threads && s'.threads == s.threads[t := s'.threads[t]]
    requires Known(s, n) && s'.refs.Keys == s.refs.Keys && s'.next.Keys == s.next.Keys && s'.role.Keys == s.role.Keys
    requires forall m <- s.next | m != n :: s'.next[m] == s.next[m]
    requires forall m <- s.role | m != n :: s'.role[m] == s.role[m]
    requires s'.role[n] == s.role[n] || OwnedBy(s.role[n], t) || Ownerless(s.role[n])
    requires s'.next[n] == s.next[n] || (s.role[n] == Pushing(t) && Holders(s, n) == {})
    ensures forall u <- s.threads | u != t :: ThreadOk(s', u)
  {
    forall u | u in s.threads && u != t ensures ThreadOk(s', u) {
      assert ThreadOk(s, u);
      if s.threads[u].GetCas? && s.threads[u].node == n { assert u in Holders(s, n); }
    }
  }

  /** The chain stands when neither the head nor the listed nodes' links and roles move. */
  lemma ChainStands(s: State, s': State, n: Node)
    requires Inv(s) && Known(s, n)
    requires s'.refs.Keys == s.refs.Keys && s'.next.Keys == s.next.Keys && s'.role.Keys == s.role.Keys
    requires forall m <- s.next | m != n :: s'.next[m] == s.next[m]
    requires forall m <- s.role | m != n :: s'.role[m] == s.role[m]
    requires (s'.role[n] == s.role[n] && s'.next[n] == s.next[n]) || (s.role[n] != Listed && s'.role[n] != Listed)
    requires s'.head == s.head && s'.chain == s.chain
    ensures ChainOk(s')
  {
  }

  /** What the invariant says about the node that a thread is working on. */
  lemma NodeFacts(s: State, t: Tid)
    requires Inv(s) && Enabled(s, t) && !s.threads[t].GetHead?
    ensures NodeOk(s, s.threads[t].node) && ThreadOk(s, t)
    ensures |Holders(s, s.threads[t].node)| < SHOULD_BE_ON_FREELIST - 1
    ensures Holds(s.threads[t], s.threads[t].node) ==> |Holders(s, s.threads[t].node)| > 0
    ensures |Holders(s, s.threads[t].node)| == 0 ==> Holders(s, s.threads[t].node) == {}
    ensures forall m <- s.role | m != s.threads[t].node :: NodeOk(s, m) && !OwnedBy(s.role[m], t)
  {
    var n := s.threads[t].node;
    HoldersBound(s, n);
    assert Holds(s.threads[t], n) ==> t in Holders(s, n);
    forall m | m in s.role && m != n ensures NodeOk(s, m) && !OwnedBy(s.role[m], t) { assert NodeOk(s, m); }
  }

  lemma HeadKnown(s: State)
    requires Inv(s)
    ensures HeadOk(s, s.head)
  {
    hide NodeOk, ThreadOk;
  }

  /** Moves of a thread that touch no node. */
  lemma IdleMove(s: State, t: Tid, pc: Pc)
    requires Inv(s) && t in s.threads && (s.threads[t].Idle? || s.threads[t].GetHead?)
    requires pc == GetHead || pc == LoopTop(s.head)
    ensures Inv(SetPc(s, t, pc))
  {
    hide Holders, NodeOk, ChainOk;
    var s' := SetPc(s, t, pc);
    SameThreads(s, s', t);
    HeadKnown(s);
    forall m | m in s'.role ensures NodeOk(s', m) { IdleOwnsNone(s, t, m); NodeKept(s, s', t, m); }
    forall u | u in s'.threads ensures ThreadOk(s', u) {
      if u != t { assert ThreadOk(s, u); ViewKept(s, s', u); }
    }
    assert ChainOk(s') by { ChainKept(s, s'); }
  }

  lemma ChainKept(s: State, s': State)
    requires ChainOk(s) && s' == s.(threads := s'.threads)
    ensures ChainOk(s')
  {
  }

  lemma IdleOwnsNone(s: State, t: Tid, m: Node)
    requires Inv(s) && t in s.threads && m in s.role && (s.threads[t].Idle? || s.threads[t].GetHead?)
    ensures !OwnedBy(s.role[m], t) && NodeOk(s, m)
  {
    hide Holders, ThreadOk, ChainOk;
    assert NodeOk(s, m);
  }

  lemma ViewKept(s: State, s': State, u: Tid)
    requires u in s.threads && u in s'.threads && s'.threads[u] == s.threads[u]
    requires s' == s.(threads := s'.threads) && ThreadOk(s, u)
    ensures ThreadOk(s', u)
  {
  }

  /** The step changes the list's head. */
  predicate Swings(s: State, t: Tid)
    requires t in s.threads
  {
    var pc := s.threads[t];
    (pc.PushCas? && s.head == pc.head) || (pc.GetCas? && s.head == Some(pc.node))
  }

  /** The thread is inside add's code, entered from add or from try_get. */
  predicate Puts(pc: Pc) { pc.Adding? || pc.PushHead? || pc.PushNext? || pc.PushRefs? || pc.PushCas? || pc.PushFail? }

  /** What a step that leaves the head alone may touch. */
  predicate Local(s: State, s': State, t: Tid, n: Node)
    requires Known(s, n) && Known(s', n) && t in s.threads && t in s'.threads
  {
    && s'.threads == s.threads[t := s'.threads[t]]
    && s'.refs == s.refs[n := s'.refs[n]] && s'.next == s.next[n := s'.next[n]] && s'.role == s.role[n := s'.role[n]]
    && (s'.role[n] == s.role[n] || OwnedBy(s.role[n], t) || Ownerless(s.role[n]))
    && (s'.next[n] == s.next[n] || (s.role[n] == Pushing(t) && Holders(s, n) == {}))
    && ((s'.role[n] == s.role[n] && s'.next[n] == s.next[n]) || (s.role[n] != Listed && s'.role[n] != Listed))
    && (s'.threads[t].Idle? || s'.threads[t].GetHead? || s'.threads[t].GetRefs? || s'.threads[t].node == n)
    && s'.head == s.head && s'.chain == s.chain
  }

  lemma PushShape(s: State, t: Tid)
    requires Enabled(s, t) && Puts(s.threads[t]) && !Swings(s, t)
    requires NodeOk(s, s.threads[t].node) && ThreadOk(s, t)
    ensures Known(Step(s, t), s.threads[t].node) && Local(s, Step(s, t), t, s.threads[t].node)
  {
    hide HeadOk, ResumeOk, ChainOk, Inv;
  }

  lemma GetShape(s: State, t: Tid)
    requires Enabled(s, t) && !Puts(s.threads[t]) && !s.threads[t].GetHead? && !Swings(s, t)
    requires NodeOk(s, s.threads[t].node) && ThreadOk(s, t)
    requires t in Holders(s, s.threads[t].node) || !Holds(s.threads[t], s.threads[t].node)
    requires |Holders(s, s.threads[t].node)| < SHOULD_BE_ON_FREELIST - 1
    ensures Known(Step(s, t), s.threads[t].node) && Local(s, Step(s, t), t, s.threads[t].node)
  {
    hide HeadOk, ResumeOk, ChainOk, Inv, Holders;
  }

  /** After the step, what t is in the middle of is still justified. */
  lemma PushView(s: State, t: Tid)
    requires Enabled(s, t) && Puts(s.threads[t]) && !Swings(s, t)
    requires NodeOk(s, s.threads[t].node) && ThreadOk(s, t) && HeadOk(s, s.head)
    ensures ThreadOk(Step(s, t), t)
  {
    hide ChainOk, Inv, Holders;
  }

  lemma GetView(s: State, t: Tid)
    requires Enabled(s, t) && !Puts(s.threads[t]) && !s.threads[t].GetHead? && !Swings(s, t)
    requires ThreadOk(s, t) && HeadOk(s, s.head)
    ensures ThreadOk(Step(s, t), t)
  {
    hide ChainOk, Inv, Holders, NodeOk;
  }

  lemma PushNode(s: State, t: Tid)
    requires Enabled(s, t) && Puts(s.threads[t]) && !Swings(s, t)
    requires NodeOk(s, s.threads[t].node) && ThreadOk(s, t)
    requires Holders(Step(s, t), s.threads[t].node) == Holders(s, s.threads[t].node)
    requires |Holders(s, s.threads[t].node)| < SHOULD_BE_ON_FREELIST - 1
    ensures Known(Step(s, t), s.threads[t].node) && NodeOk(Step(s, t), s.threads[t].node)
  {
    hide ChainOk, Inv, Holders, HeadOk, ResumeOk;
  }

  lemma GetNode(s: State, t: Tid)
    requires Enabled(s, t) && !Puts(s.threads[t]) && !s.threads[t].GetHead? && !Swings(s, t)
    requires NodeOk(s, s.threads[t].node) && ThreadOk(s, t)
    requires |Holders(s, s.threads[t].node)| < SHOULD_BE_ON_FREELIST - 1
    requires Holds(s.threads[t], s.threads[t].node) ==> |Holders(s, s.threads[t].node)| > 0
    requires |Holders(Step(s, t), s.threads[t].node)| == |Holders(s, s.threads[t].node)|
      + (if Holds(Step(s, t).threads[t], s.threads[t].node) then 1 else 0) - (if Holds(s.threads[t], s.threads[t].node) then 1 else 0)
    ensures Known(Step(s, t), s.threads[t].node) && NodeOk(Step(s, t), s.threads[t].node)
  {
    hide ChainOk, Inv, Holders, HeadOk, ResumeOk;
  }

  /** A step that leaves the list's head alone keeps the invariant. */
  lemma PlainStep(s: State, t: Tid)
    requires Inv(s) && Enabled(s, t) && !s.threads[t].GetHead? && !Swings(s, t)
    ensures Inv(Step(s, t))
  {
    hide Holders, HeadOk, ResumeOk, ChainOk, Inv, NodeOk, ThreadOk, Step;
    var n := s.threads[t].node;
    var s' := Step(s, t);
    NodeFacts(s, t);
    HeadKnown(s);
    PlainLocal(s, t);
    HoldersChange(s, s', t, n);
    PlainNode(s, t);
    if Puts(s.threads[t]) { PushView(s, t); } else { GetView(s, t); }
    LocalInv(s, s', t, n);
  }

  lemma PlainLocal(s: State, t: Tid)
    requires Inv(s) && Enabled(s, t) && !s.threads[t].GetHead? && !Swings(s, t)
    ensures Known(Step(s, t), s.threads[t].node) && t in Step(s, t).threads && Local(s, Step(s, t), t, s.threads[t].node)
    ensures Puts(s.threads[t]) ==> !Holds(s.threads[t], s.threads[t].node) && !Holds(Step(s, t).threads[t], s.threads[t].node)
  {
    hide HeadOk, ResumeOk, ChainOk, Inv, NodeOk, ThreadOk;
    NodeFacts(s, t);
    if Puts(s.threads[t]) { PushShape(s, t); } else { GetShape(s, t); }
  }

  lemma PlainNode(s: State, t: Tid)
    requires Inv(s) && Enabled(s, t) && !s.threads[t].GetHead? && !Swings(s, t)
    ensures Known(Step(s, t), s.threads[t].node) && NodeOk(Step(s, t), s.threads[t].node)
  {
    hide Holders, HeadOk, ResumeOk, ChainOk, Inv, NodeOk, ThreadOk, Step, Holds;
    var n := s.threads[t].node;
    NodeFacts(s, t);
    PlainLocal(s, t);
    HoldersChange(s, Step(s, t), t, n);
    if Puts(s.threads[t]) { PushNode(s, t); } else { GetNode(s, t); }
  }

  lemma LocalInv(s: State, s': State, t: Tid, n: Node)
    requires Inv(s) && t in s.threads && t in s'.threads && Known(s, n) && Known(s', n) && Local(s, s', t, n)
    requires !s.threads[t].Idle? && !s.threads[t].GetHead? && s.threads[t].node == n
    requires NodeOk(s', n) && ThreadOk(s', t)
    ensures Inv(s')
  {
    hide Holders, HeadOk, ResumeOk, ChainOk, Inv, NodeOk, ThreadOk;
    assert Enabled(s, t);
    NodeFacts(s, t);
    assert forall m <- s.role | m != n :: !Holds(s.threads[t], m) && !Holds(s'.threads[t], m);
    InvKeys(s);
    OthersOk(s, s', t, n);
    ChainStands(s, s', n);
    StepFrame(s, s', t, n);
  }

  lemma InvKeys(s: State)
    requires Inv(s)
    ensures s.refs.Keys == s.next.Keys == s.role.Keys && ChainOk(s)
    ensures forall t <- s.threads :: ThreadOk(s, t)
  {
    hide NodeOk, ThreadOk, ChainOk;
  }

  /** The swing that puts a node on the list. */
  lemma PushSwing(s: State, t: Tid)
    requires Inv(s) && Enabled(s, t) && s.threads[t].PushCas? && Swings(s, t)
    ensures Inv(Step(s, t))
  {
    hide Holders, HeadOk, ResumeOk, ChainOk, Inv, NodeOk, ThreadOk, Step;
    var n := s.threads[t].node;
    var s' := Step(s, t);
    NodeFacts(s, t);
    InvKeys(s);
    PushEffect(s, t);
    HoldersChange(s, s', t, n);
    PushedNode(s, s', t, n);
    PushedView(s, t);
    OthersOk(s, s', t, n);
    PushChain(s, t);
    StepFrame(s, s', t, n);
  }

  lemma PushEffect(s: State, t: Tid)
    requires Enabled(s, t) && s.threads[t].PushCas? && Swings(s, t) && ThreadOk(s, t)
    ensures var n, s' := s.threads[t].node, Step(s, t);
      && t in s'.threads && s'.threads == s.threads[t := s'.threads[t]] && s'.refs == s.refs && s'.next == s.next
      && s.role[n] == Pushing(t) && s'.role == s.role[n := Listed]
      && forall m: Node :: !Holds(s.threads[t], m) && !Holds(s'.threads[t], m)
  {
    hide HeadOk, ResumeOk;
  }

  lemma PushedNode(s: State, s': State, t: Tid, n: Node)
    requires Known(s, n) && Known(s', n) && t in s.threads && s.threads[t].PushCas?
    requires s.role[n] == Pushing(t) && s'.role[n] == Listed && s'.refs[n] == s.refs[n]
    requires NodeOk(s, n) && |Holders(s', n)| == |Holders(s, n)|
    ensures NodeOk(s', n)
  {
    hide Holders;
  }

  lemma PushedView(s: State, t: Tid)
    requires Enabled(s, t) && s.threads[t].PushCas? && Swings(s, t) && ThreadOk(s, t)
    ensures ThreadOk(Step(s, t), t)
  {
  }

  lemma PushChain(s: State, t: Tid)
    requires Enabled(s, t) && s.threads[t].PushCas? && Swings(s, t) && ThreadOk(s, t) && ChainOk(s)
    ensures ChainOk(Step(s, t))
  {
    hide ChainOk, NodeOk;
    PushEffect(s, t);
    PushedLink(s, t);
    Prepended(s, Step(s, t), s.threads[t].node);
  }

  lemma PushedLink(s: State, t: Tid)
    requires Enabled(s, t) && s.threads[t].PushCas? && Swings(s, t) && ThreadOk(s, t)
    ensures var n, s' := s.threads[t].node, Step(s, t);
      Known(s, n) && s.next[n] == s.head && s'.head == Some(n) && s'.chain == [n] + s.chain
  {
    hide HeadOk, ResumeOk;
  }

  /** A node that links to the head becomes the new head. */
  lemma Prepended(s: State, s': State, n: Node)
    requires ChainOk(s) && Known(s, n) && s.role[n] != Listed && s.next[n] == s.head
    requires s'.refs.Keys == s.refs.Keys && s'.next == s.next && s'.role == s.role[n := Listed]
    requires s'.head == Some(n) && s'.chain == [n] + s.chain
    ensures ChainOk(s')
  {
    assert n !in s.chain;
    forall i | 0 <= i < |s'.chain|
      ensures Known(s', s'.chain[i]) && s'.role[s'.chain[i]] == Listed && s'.next[s'.chain[i]] == At(s'.chain, i + 1) {
      if i > 0 { assert s'.chain[i] == s.chain[i - 1]; }
    }
    forall m | m in s'.role && s'.role[m] == Listed ensures m in s'.chain {
      if m != n { assert m in s.chain; }
    }
  }

  /** The swing that takes a node off the list. */
  lemma TakeSwing(s: State, t: Tid)
    requires Inv(s) && Enabled(s, t) && s.threads[t].GetCas? && Swings(s, t)
    ensures Inv(Step(s, t)) && s.role[s.threads[t].node] == Listed
  {
    hide Holders, HeadOk, ResumeOk, ChainOk, Inv, NodeOk, ThreadOk, Step;
    var n := s.threads[t].node;
    var s' := Step(s, t);
    NodeFacts(s, t);
    InvKeys(s);
    TakeChain(s, t);
    TakeEffect(s, t);
    HoldersChange(s, s', t, n);
    TakenNode(s, s', t, n);
    OthersOk(s, s', t, n);
    StepFrame(s, s', t, n);
  }

  lemma TakeEffect(s: State, t: Tid)
    requires Enabled(s, t) && s.threads[t].GetCas? && Swings(s, t)
    ensures var n, s' := s.threads[t].node, Step(s, t);
      && s'.threads == s.threads[t := GetCheck(n)] && s'.refs == s.refs && s'.next == s.next
      && s'.role == s.role[n := Taken(t)] && ThreadOk(s', t)
  {
  }

  lemma TakenNode(s: State, s': State, t: Tid, n: Node)
    requires Known(s, n) && Known(s', n) && t in s'.threads && s'.threads[t] == GetCheck(n)
    requires s.role[n] == Listed && s'.role[n] == Taken(t) && s'.refs[n] == s.refs[n]
    requires NodeOk(s, n) && |Holders(s', n)| == |Holders(s, n)|
    ensures NodeOk(s', n)
  {
  }

  lemma TakeChain(s: State, t: Tid)
    requires Enabled(s, t) && s.threads[t].GetCas? && Swings(s, t) && ThreadOk(s, t) && ChainOk(s)
    ensures ChainOk(Step(s, t)) && s.role[s.threads[t].node] == Listed
  {
    var n, s' := s.threads[t].node, Step(s, t);
    assert s.chain[0] == n;
    forall i | 0 <= i < |s'.chain|
      ensures Known(s', s'.chain[i]) && s'.role[s'.chain[i]] == Listed && s'.next[s'.chain[i]] == At(s'.chain, i + 1) {
      assert s'.chain[i] == s.chain[i + 1];
    }
    forall m | m in s'.role && s'.role[m] == Listed ensures m in s'.chain {
      assert m in s.chain && m != n;
      var i :| 0 <= i < |s.chain| && s.chain[i] == m;
      assert s'.chain[i - 1] == m;
    }
  }

  lemma CallAddInv(s: State, t: Tid, n: Node)
    requires Inv(s) && t in s.threads && s.threads[t].Idle? && n in s.role && s.role[n].Out?
    ensures Inv(CallAdd(s, t, n))
  {
    hide Holders, HeadOk, ResumeOk, ChainOk, Inv;
    var s' := CallAdd(s, t, n);
    InvKeys(s);
    forall m | m in s.role ensures !OwnedBy(s.role[m], t) && NodeOk(s, m) { IdleOwnsNone(s, t, m); }
    HoldersChange(s, s', t, n);
    OthersOk(s, s', t, n);
    ChainStands(s, s', n);
    StepFrame(s, s', t, n);
  }

  /** Every step of every thread keeps the invariant. */
  lemma NextInv(s: State, s': State)
    requires Inv(s) && Next(s, s')
    ensures Inv(s')
  {
    hide Inv, Step, CallAdd, SetPc;
    if t :| t in s.threads && Enabled(s, t) && s' == Step(s, t) {
      StepInv(s, t);
    } else if t :| t in s.threads && s.threads[t].Idle? && s' == SetPc(s, t, GetHead) {
      IdleMove(s, t, GetHead);
    } else {
      var t, n :| t in s.threads && n in s.role && s.threads[t].Idle? && s.role[n].Out? && s' == CallAdd(s, t, n);
      CallAddInv(s, t, n);
    }
  }

  lemma StepInv(s: State, t: Tid)
    requires Inv(s) && Enabled(s, t)
    ensures Inv(Step(s, t))
  {
    hide Inv;
    if s.threads[t].GetHead? {
      IdleMove(s, t, LoopTop(s.head));
    } else if !Swings(s, t) {
      PlainStep(s, t);
    } else if s.threads[t].PushCas? {
      PushSwing(s, t);
    } else {
      TakeSwing(s, t);
    }
  }

  ghost predicate Run(states: seq<State>) {
    |states| > 0 && Init(states[0]) && forall i | 0 <= i < |states| - 1 :: Next(states[i], states[i + 1])
  }

  lemma {:induction false} RunInv(states: seq<State>, i: nat)
    requires Run(states) && i < |states|
    ensures Inv(states[i])
  {
    if i == 0 {
      InitInv(states[0]);
    } else {
      RunInv(states, i - 1);
      NextInv(states[i - 1], states[i]);
    }
  }

  // ----- what every run of the list guarantees -----

  lemma NodeAt(states: seq<State>, i: nat, n: Node)
    requires Run(states) && i < |states| && n in states[i].role
    ensures Known(states[i], n) && NodeOk(states[i], n) && |Holders(states[i], n)| < SHOULD_BE_ON_FREELIST - 1
  {
    hide NodeOk, ThreadOk, ChainOk, Run, Holders;
    RunInv(states, i);
    HoldersBound(states[i], n);
  }

  lemma ThreadAt(states: seq<State>, i: nat, t: Tid)
    requires Run(states) && i < |states| && t in states[i].threads
    ensures ThreadOk(states[i], t)
  {
    hide NodeOk, ThreadOk, ChainOk, Run;
    RunInv(states, i);
  }

  lemma ChainAt(states: seq<State>, i: nat)
    requires Run(states) && i < |states|
    ensures ChainOk(states[i])
  {
    hide NodeOk, ThreadOk, ChainOk, Run;
    RunInv(states, i);
  }

  /** With fewer than 2^31 - 1 threads no count carries into the flag bit, nor wraps. */
  lemma CountsFit(states: seq<State>, i: nat, n: Node)
    requires Run(states) && i < |states| && n in states[i].role
    ensures n in states[i].refs && states[i].refs[n] < WORD - 1
    ensures states[i].refs[n] % SHOULD_BE_ON_FREELIST == |Holders(states[i], n)|
      + (if states[i].refs[n] < SHOULD_BE_ON_FREELIST && !states[i].role[n].Out? && !states[i].role[n].Entering? then 1 else 0)
  {
    hide Run, Holders;
    NodeAt(states, i, n);
  }

  /** Following the next pointers from the head meets each listed node once, then null. */
  lemma LinkedOnce(states: seq<State>, i: nat)
    requires Run(states) && i < |states|
    ensures var s := states[i];
      && s.head == At(s.chain, 0)
      && (forall j | 0 <= j < |s.chain| :: s.chain[j] in s.next && s.next[s.chain[j]] == At(s.chain, j + 1))
      && (forall j, k | 0 <= j < k < |s.chain| :: s.chain[j] != s.chain[k])
  {
    RunInv(states, i);
  }

  /** The swing that links a node finds it off the list. */
  lemma NeverRelinked(states: seq<State>, i: nat, t: Tid)
    requires Run(states) && i < |states| && Enabled(states[i], t)
    requires states[i].threads[t].PushCas? && Swings(states[i], t)
    ensures states[i].threads[t].node !in states[i].chain
    ensures Step(states[i], t).chain == [states[i].threads[t].node] + states[i].chain
  {
    hide Run;
    ChainAt(states, i);
    ThreadAt(states, i, t);
  }

  predicate Takes(pc: Pc, n: Node) { pc == GetCheck(n) || pc == GetDrop(n) }

  /** At most one thread is taking a node, and meanwhile nobody links it. */
  lemma OneTaker(states: seq<State>, i: nat, t: Tid, u: Tid, n: Node)
    requires Run(states) && i < |states| && t in states[i].threads && u in states[i].threads
    requires Takes(states[i].threads[t], n)
    ensures Takes(states[i].threads[u], n) ==> u == t
    ensures !Pushes(states[i].threads[u], n) && states[i].threads[u] != Adding(n) && n !in states[i].chain
  {
    hide Run, ChainOk, ThreadOk, Takes, Pushes;
    ChainAt(states, i);
    ThreadAt(states, i, t);
    ThreadAt(states, i, u);
    RoleOfTaken(states[i], t, n);
    RoleOfWorked(states[i], u, n);
    OffChain(states[i], n);
  }

  lemma RoleOfTaken(s: State, t: Tid, n: Node)
    requires t in s.threads && ThreadOk(s, t) && Takes(s.threads[t], n)
    ensures Known(s, n) && s.role[n] == Taken(t)
  {
  }

  lemma RoleOfWorked(s: State, u: Tid, n: Node)
    requires u in s.threads && ThreadOk(s, u) && Known(s, n)
    ensures Takes(s.threads[u], n) ==> s.role[n] == Taken(u)
    ensures Pushes(s.threads[u], n) ==> s.role[n] == Pushing(u)
    ensures s.threads[u] == Adding(n) ==> s.role[n] == Entering(u)
  {
    hide HeadOk, ResumeOk;
  }

  lemma OffChain(s: State, n: Node)
    requires ChainOk(s) && Known(s, n) && s.role[n] != Listed
    ensures n !in s.chain
  {
  }

  /** A successful pop takes the first node of the list and no other. */
  lemma PopTakesFirst(states: seq<State>, i: nat, t: Tid)
    requires Run(states) && i < |states| && Enabled(states[i], t)
    requires states[i].threads[t].GetCas? && Swings(states[i], t)
    ensures var s := states[i]; |s.chain| > 0 && s.chain[0] == s.threads[t].node && Step(s, t).chain == s.chain[1..]
    ensures Step(states[i], t).head == At(states[i].chain, 1)
  {
    hide Run, ChainOk, ThreadOk, NodeOk, Holders;
    ChainAt(states, i);
    ThreadAt(states, i, t);
    FirstIsHead(states[i]);
    PoppedLink(states[i], t);
  }

  lemma FirstIsHead(s: State)
    requires ChainOk(s)
    ensures s.head == At(s.chain, 0)
    ensures |s.chain| > 0 ==> s.chain[0] in s.next && s.next[s.chain[0]] == At(s.chain, 1)
  {
  }

  lemma PoppedLink(s: State, t: Tid)
    requires t in s.threads && ThreadOk(s, t) && s.threads[t].GetCas?
    ensures Known(s, s.threads[t].node) && s.threads[t].next == s.next[s.threads[t].node]
  {
  }

  /** The flag is down when a pop has just succeeded: the assert of try_get. */
  lemma PopFindsFlagDown(states: seq<State>, i: nat, t: Tid)
    requires Run(states) && i < |states| && t in states[i].threads && states[i].threads[t].GetCheck?
    ensures states[i].threads[t].node in states[i].refs
    ensures states[i].refs[states[i].threads[t].node] < SHOULD_BE_ON_FREELIST
  {
    var n := states[i].threads[t].node;
    hide Run, Holders;
    ThreadAt(states, i, t);
    NodeAt(states, i, n);
  }

  /** The flag is down whenever add is entered, so that adding it cannot carry. */
  lemma AddFindsFlagDown(states: seq<State>, i: nat, t: Tid)
    requires Run(states) && i < |states| && t in states[i].threads && states[i].threads[t].Adding?
    ensures states[i].threads[t].node in states[i].refs
    ensures states[i].refs[states[i].threads[t].node] < SHOULD_BE_ON_FREELIST
  {
    var n := states[i].threads[t].node;
    hide Run, Holders;
    ThreadAt(states, i, t);
    NodeAt(states, i, n);
  }

  /** At most one thread is in the code that links a node. */
  lemma OnePusher(states: seq<State>, i: nat, t: Tid, u: Tid, n: Node)
    requires Run(states) && i < |states| && t in states[i].threads && u in states[i].threads
    requires Pushes(states[i].threads[t], n) && Pushes(states[i].threads[u], n)
    ensures t == u
  {
    hide Run, ThreadOk, ChainOk, Pushes;
    ThreadAt(states, i, t);
    ThreadAt(states, i, u);
    PushedIsKnown(states[i], t, n);
    RoleOfWorked(states[i], t, n);
    RoleOfWorked(states[i], u, n);
  }

  lemma PushedIsKnown(s: State, t: Tid, n: Node)
    requires t in s.threads && ThreadOk(s, t) && Pushes(s.threads[t], n)
    ensures Known(s, n)
  {
    hide HeadOk, ResumeOk;
  }

  /** While a thread holds a reference to a node, no step changes the node's link. */
  lemma LinkStable(states: seq<State>, i: nat, t: Tid, n: Node)
    requires Run(states) && i + 1 < |states| && t in states[i].threads && Holds(states[i].threads[t], n)
    ensures n in states[i].next && n in states[i + 1].next && states[i + 1].next[n] == states[i].next[n]
  {
    hide Run, Holders, Step, CallAdd, SetPc, ThreadOk, NodeOk;
    var s, s' := states[i], states[i + 1];
    RunNext(states, i);
    ThreadAt(states, i, t);
    HeldIsKnown(s, t, n);
    NodeAt(states, i, n);
    if u :| u in s.threads && Enabled(s, u) && s' == Step(s, u) {
      ThreadAt(states, i, u);
      HeldLinkKept(s, t, u, n);
    } else {
      CallsKeepLinks(s, s');
    }
  }

  lemma RunNext(states: seq<State>, i: nat)
    requires Run(states) && i + 1 < |states|
    ensures Next(states[i], states[i + 1])
  {
  }

  lemma HeldIsKnown(s: State, t: Tid, n: Node)
    requires t in s.threads && ThreadOk(s, t) && Holds(s.threads[t], n)
    ensures Known(s, n) && t in Holders(s, n) && |Holders(s, n)| > 0
  {
  }

  lemma HeldLinkKept(s: State, t: Tid, u: Tid, n: Node)
    requires Known(s, n) && NodeOk(s, n) && Enabled(s, u) && ThreadOk(s, u) && |Holders(s, n)| > 0
    ensures n in Step(s, u).next && Step(s, u).next[n] == s.next[n]
  {
    hide Holders;
  }

  lemma CallsKeepLinks(s: State, s': State)
    requires Next(s, s') && !exists t <- s.threads :: Enabled(s, t) && s' == Step(s, t)
    ensures s'.next == s.next
  {
    hide Step;
  }

  /** No node is lost: once every thread has returned, each node is with its user or on the list. */
  lemma NothingLost(states: seq<State>, i: nat, n: Node)
    requires Run(states) && i < |states| && n in states[i].role
    requires forall t <- states[i].threads :: states[i].threads[t].Idle?
    ensures states[i].role[n] == Out <==> n !in states[i].chain
    ensures n in states[i].refs && states[i].refs[n] == if n in states[i].chain then 1 else 0
  {
    var s := states[i];
    RunInv(states, i);
    assert NodeOk(s, n);
    assert Holders(s, n) == {};
  }

  // ----- what try_get returns -----

  /** The thread is inside try_get, linking a node there included. */
  predicate InGet(pc: Pc) {
    || pc.GetHead? || pc.GetRefs? || pc.GetInc? || pc.GetNext? || pc.GetCas? || pc.GetCheck? || pc.GetDrop? || pc.GetUnref?
    || ((pc.PushHead? || pc.PushNext? || pc.PushRefs? || pc.PushCas? || pc.PushFail?) && pc.resume.Loop?)
  }

  /** The head that the loop goes on with is null. */
  predicate KeepsNull(pc: Pc) {
    || (pc.GetUnref? && pc.head.None?)
    || ((pc.PushHead? || pc.PushNext? || pc.PushRefs? || pc.PushCas? || pc.PushFail?) && pc.resume == Loop(None))
  }

  /** From state j to state i the thread has been inside one call of try_get, and in state j the list was empty. */
  predicate EmptyDuring(states: seq<State>, j: nat, i: nat, t: Tid)
    requires j <= i < |states|
  {
    && states[j].head == None && states[j].chain == []
    && forall k | j <= k <= i :: t in states[k].threads && InGet(states[k].threads[t])
  }

  /** A null head comes from a failed swing that found it. */
  lemma NullFrom(s: State, s': State, t: Tid)
    requires Next(s, s') && t in s'.threads && KeepsNull(s'.threads[t])
    ensures t in s.threads && InGet(s.threads[t])
    ensures KeepsNull(s.threads[t]) || (s.threads[t].GetCas? && s.head == None)
  {
    hide Enabled, Step;
    if u :| u in s.threads && Enabled(s, u) && s' == Step(s, u) {
      if u == t { NullFromOwn(s, t); } else { OthersStay(s, u, t); }
    }
  }

  lemma NullFromOwn(s: State, t: Tid)
    requires Enabled(s, t) && t in Step(s, t).threads && KeepsNull(Step(s, t).threads[t])
    ensures InGet(s.threads[t])
    ensures KeepsNull(s.threads[t]) || (s.threads[t].GetCas? && s.head == None)
  {
  }

  lemma OthersStay(s: State, u: Tid, t: Tid)
    requires Enabled(s, u) && u != t && t in Step(s, u).threads
    ensures t in s.threads && Step(s, u).threads[t] == s.threads[t]
  {
  }

  lemma {:induction false} NullSeen(states: seq<State>, i: nat, t: Tid)
    requires Run(states) && i < |states| && t in states[i].threads && KeepsNull(states[i].threads[t])
    ensures exists j :: 0 <= j <= i && EmptyDuring(states, j, i, t)
  {
    hide Next, KeepsNull, InGet, ChainOk;
    if i == 0 {
      StartIdle(states[0], t);
    } else {
      RunNext(states, i - 1);
      NullFrom(states[i - 1], states[i], t);
      NullInGet(states[i].threads[t]);
      if KeepsNull(states[i - 1].threads[t]) {
        NullSeen(states, i - 1, t);
        hide Run;
        var j :| 0 <= j <= i - 1 && EmptyDuring(states, j, i - 1, t);
        assert EmptyDuring(states, j, i, t);
      } else {
        HeadNull(states, i - 1);
        hide Run;
        assert EmptyDuring(states, i - 1, i, t);
      }
    }
  }

  lemma NullInGet(pc: Pc)
    requires KeepsNull(pc)
    ensures InGet(pc)
  {
  }

  lemma StartIdle(s: State, t: Tid)
    requires Init(s) && t in s.threads
    ensures !KeepsNull(s.threads[t])
  {
  }

  lemma HeadNull(states: seq<State>, i: nat)
    requires Run(states) && i < |states|
    ensures states[i].head == None <==> states[i].chain == []
  {
    hide Run;
    ChainAt(states, i);
  }

  /**
   Over every run: a call of try_get returns the node that it has just taken, or null, and null only if at some moment
   of the call the list was empty.
   */
  lemma NullOnlyIfEmpty(states: seq<State>, i: nat, t: Tid)
    requires Run(states) && i < |states| && Enabled(states[i], t) && InGet(states[i].threads[t])
    requires Step(states[i], t).threads[t].Idle?
    ensures states[i].threads[t].GetDrop? || exists j :: 0 <= j <= i && EmptyDuring(states, j, i, t)
  {
    hide Run, EmptyDuring;
    if KeepsNull(states[i].threads[t]) {
      NullSeen(states, i, t);
    } else if !states[i].threads[t].GetDrop? {
      GivesUpAtTop(states[i], t);
      HeadNull(states, i);
      OnlyNow(states, i, t);
    }
  }

  lemma OnlyNow(states: seq<State>, i: nat, t: Tid)
    requires i < |states| && t in states[i].threads && InGet(states[i].threads[t]) && states[i].head == None && states[i].chain == []
    ensures EmptyDuring(states, i, i, t)
  {
  }

  lemma GivesUpAtTop(s: State, t: Tid)
    requires Enabled(s, t) && InGet(s.threads[t]) && Step(s, t).threads[t].Idle?
    requires !KeepsNull(s.threads[t]) && !s.threads[t].GetDrop?
    ensures s.threads[t].GetHead? && s.head == None
  {
  }

  /** One thread makes all the steps, wherever the others have stopped. */
  predicate Solo(states: seq<State>, t: Tid) {
    forall i | 0 <= i < |states| - 1 :: Enabled(states[i], t) && states[i + 1] == Step(states[i], t)
  }

  /** Where a thread that meets no interference is after i accesses. */
  function SoloPc(s: State, n: Node, i: nat): Pc
    requires Known(s, n)
  {
    if i == 0 then GetHead else if i == 1 then GetRefs(n) else if i == 2 then GetInc(n, s.refs[n]) else if i == 3 then GetNext(n)
    else if i == 4 then GetCas(n, s.next[n]) else if i == 5 then GetCheck(n) else if i == 6 then GetDrop(n) else Idle
  }

  /** The node is counted once more from the third access on, and taken by the fifth. */
  predicate SoloState(s: State, s': State, t: Tid, n: Node, i: nat)
    requires Known(s, n) && s.chain != []
  {
    && s'.threads == s.threads[t := SoloPc(s, n, i)] && s'.next == s.next && n in s'.refs && n in s'.role
    && s'.head == (if i < 5 then Some(n) else s.next[n]) && s'.chain == (if i < 5 then s.chain else s.chain[1..])
    && (i < 7 ==> s'.refs[n] == if i < 3 then s.refs[n] else s.refs[n] + 1)
    && (i == 7 ==> s'.refs[n] + 1 == s.refs[n] && s'.role[n] == Out)
  }

  lemma SoloStep(s: State, s': State, t: Tid, n: Node, i: nat)
    requires Known(s, n) && s.chain != [] && i < 7 && SoloState(s, s', t, n, i)
    requires 0 < s.refs[n] < SHOULD_BE_ON_FREELIST
    ensures Enabled(s', t) && SoloState(s, Step(s', t), t, n, i + 1)
  {
  }

  /**
   A thread that runs try_get without interference, wherever the others have stopped, takes the first node of the list
   within seven accesses.
   */
  lemma SoloTakesFirst(states: seq<State>, t: Tid)
    requires |states| == 8 && Inv(states[0]) && t in states[0].threads && states[0].threads[t].GetHead?
    requires states[0].chain != [] && Solo(states, t)
    ensures states[6].threads == states[0].threads[t := GetDrop(states[0].chain[0])]
    ensures states[7].threads == states[0].threads[t := Idle]
    ensures states[7].chain == states[0].chain[1..] && states[7].head == At(states[0].chain, 1)
  {
    hide Step, Inv;
    var s, n := states[0], states[0].chain[0];
    FirstListed(s, t);
    assert SoloState(s, states[0], t, n, 0);
    SoloStep(s, states[0], t, n, 0);
    SoloStep(s, states[1], t, n, 1);
    SoloStep(s, states[2], t, n, 2);
    SoloStep(s, states[3], t, n, 3);
    SoloStep(s, states[4], t, n, 4);
    SoloStep(s, states[5], t, n, 5);
    SoloStep(s, states[6], t, n, 6);
  }

  lemma FirstListed(s: State, t: Tid)
    requires Inv(s) && s.chain != [] && t in s.threads
    ensures Known(s, s.chain[0]) && s.head == Some(s.chain[0])
    ensures 0 < s.refs[s.chain[0]] < SHOULD_BE_ON_FREELIST && s.next[s.chain[0]] == At(s.chain, 1)
    ensures s.threads[t].GetHead? ==> s.threads == s.threads[t := GetHead]
  {
    hide Holders, ThreadOk, NodeOk;
    HoldersBound(s, s.chain[0]);
    ListedCount(s, s.chain[0]);
  }

  lemma ListedCount(s: State, n: Node)
    requires Known(s, n) && NodeOk(s, n) && s.role[n] == Listed
    ensures s.refs[n] == 1 + |Holders(s, n)|
  {
    hide Holders;
  }
}
