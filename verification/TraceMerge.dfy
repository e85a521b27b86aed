/**
 The merge of context switch and wakeup rings: every pass over the rings skips one record that is not a sample in each
 ring that has one in front, and emits the earliest sample in front of the others.
 */
module TraceMerge {

  import opened Int64
  import PerfClock
  import opened Options

  /** What the merge reads of a record: its header's type and size, a sample's time, the rest. */
  datatype Record = Record(sample: bool, time: int64, size: nat, data: int)

  datatype Emitted = Emitted(ring: nat, rec: Record)

  /** How many records of each ring are behind, and what went out. */
  datatype Merge = Merge(done: seq<nat>, out: seq<Emitted>)

  const LATEST: int64 := 0x7fff_ffff_ffff_ffff

  predicate Fits(rings: seq<seq<Record>>, m: Merge) {
    |m.done| == |rings| && forall i | 0 <= i < |rings| :: m.done[i] <= |rings[i]|
  }

  predicate Active(rings: seq<seq<Record>>, m: Merge, i: nat)
    requires Fits(rings, m) && i < |rings|
  {
    m.done[i] < |rings[i]|
  }

  function Front(rings: seq<seq<Record>>, m: Merge, i: nat): Record
    requires Fits(rings, m) && i < |rings| && Active(rings, m, i)
  {
    rings[i][m.done[i]]
  }

  predicate Candidate(rings: seq<seq<Record>>, m: Merge, i: nat)
    requires Fits(rings, m) && i < |rings|
  {
    Active(rings, m, i) && Front(rings, m, i).sample
  }

  /** The choice among the first n rings: strictly earlier than all before it, starting from the latest time there is. */
  function Selected(rings: seq<seq<Record>>, m: Merge, n: nat): (sel: Option<nat>)
    requires Fits(rings, m) && n <= |rings|
    ensures sel.Some? ==> sel.value < n && Candidate(rings, m, sel.value)
    decreases n, 0
  {
    if n == 0 then None
    else if Candidate(rings, m, n - 1) && Front(rings, m, n - 1).time < SelectedTime(rings, m, n - 1) then Some(n - 1)
    else Selected(rings, m, n - 1)
  }

  function SelectedTime(rings: seq<seq<Record>>, m: Merge, n: nat): int64
    requires Fits(rings, m) && n <= |rings|
    decreases n, 1
  {
    match Selected(rings, m, n)
    case None => LATEST
    case Some(i) => Front(rings, m, i).time
  }

  function Skipped(rings: seq<seq<Record>>, m: Merge): (done: seq<nat>)
    requires Fits(rings, m)
    ensures |done| == |rings|
    ensures forall i | 0 <= i < |rings| ::
      done[i] == if Active(rings, m, i) && !Front(rings, m, i).sample then m.done[i] + 1 else m.done[i]
  {
    seq(|rings|, i requires 0 <= i < |rings| =>
      if Active(rings, m, i) && !Front(rings, m, i).sample then m.done[i] + 1 else m.done[i])
  }

  /** One pass of the outer loop. */
  function Pass(rings: seq<seq<Record>>, m: Merge): (m': Merge)
    requires Fits(rings, m)
    ensures Fits(rings, m')
  {
    match Selected(rings, m, |rings|)
    case None => Merge(Skipped(rings, m), m.out)
    case Some(i) => Merge(Skipped(rings, m)[i := m.done[i] + 1], m.out + [Emitted(i, Front(rings, m, i))])
  }

  predicate Finished(rings: seq<seq<Record>>, m: Merge)
    requires Fits(rings, m)
  {
    forall i | 0 <= i < |rings| :: !Active(rings, m, i)
  }

  function Start(rings: seq<seq<Record>>): (m: Merge)
    ensures Fits(rings, m)
  {
    Merge(seq(|rings|, _ => 0), [])
  }

  function Passes(rings: seq<seq<Record>>, n: nat): (m: Merge)
    ensures Fits(rings, m)
  {
    if n == 0 then Start(rings) else Pass(rings, Passes(rings, n - 1))
  }

  // ----- the choice -----

  /** The choice is the first of the earliest candidates. */
  lemma {:induction false} SelectedEarliest(rings: seq<seq<Record>>, m: Merge, n: nat, i: nat)
    requires Fits(rings, m) && i < n <= |rings| && Candidate(rings, m, i)
    ensures SelectedTime(rings, m, n) <= Front(rings, m, i).time
    ensures Selected(rings, m, n) == None ==> Front(rings, m, i).time == LATEST
  {
    SelectedStep(rings, m, n - 1);
    if i < n - 1 { SelectedEarliest(rings, m, n - 1, i); }
  }

  lemma SelectedStep(rings: seq<seq<Record>>, m: Merge, n: nat)
    requires Fits(rings, m) && n < |rings|
    ensures SelectedTime(rings, m, n + 1) ==
      if Candidate(rings, m, n) && Front(rings, m, n).time < SelectedTime(rings, m, n) then Front(rings, m, n).time
      else SelectedTime(rings, m, n)
    ensures Selected(rings, m, n + 1) ==
      if Candidate(rings, m, n) && Front(rings, m, n).time < SelectedTime(rings, m, n) then Some(n)
      else Selected(rings, m, n)
  {
  }

  lemma {:induction false} SelectedNotLatest(rings: seq<seq<Record>>, m: Merge, n: nat)
    requires Fits(rings, m) && n <= |rings|
    ensures Selected(rings, m, n).Some? ==> SelectedTime(rings, m, n) < LATEST
  {
    if n > 0 { SelectedNotLatest(rings, m, n - 1); }
  }

  // ----- termination -----

  predicate IsLast(r: Record) { r.sample && r.time == LATEST }

  /** No ring holds a sample with the latest time there is. */
  predicate NoneLast(rings: seq<seq<Record>>) {
    forall i, k | 0 <= i < |rings| && 0 <= k < |rings[i]| :: !IsLast(rings[i][k])
  }

  function Left(rings: seq<seq<Record>>, done: seq<nat>, n: nat): nat
    requires |done| == |rings| && n <= |rings| && forall i | 0 <= i < n :: done[i] <= |rings[i]|
  {
    if n == 0 then 0 else Left(rings, done, n - 1) + |rings[n - 1]| - done[n - 1]
  }

  lemma {:induction false} LeftShrinks(rings: seq<seq<Record>>, a: seq<nat>, b: seq<nat>, n: nat)
    requires |a| == |b| == |rings| && n <= |rings|
    requires forall i | 0 <= i < n :: a[i] <= b[i] <= |rings[i]|
    ensures Left(rings, b, n) <= Left(rings, a, n)
    ensures (exists i | 0 <= i < n :: a[i] < b[i]) ==> Left(rings, b, n) < Left(rings, a, n)
  {
    if n > 0 { LeftShrinks(rings, a, b, n - 1); }
  }

  /** A pass moves some ring on, unless every ring that is not used up has a latest sample in front. */
  lemma PassProgress(rings: seq<seq<Record>>, m: Merge)
    requires Fits(rings, m) && !Finished(rings, m) && NoneLast(rings)
    ensures Left(rings, Pass(rings, m).done, |rings|) < Left(rings, m.done, |rings|)
  {
    hide Selected, Left;
    var i :| 0 <= i < |rings| && Active(rings, m, i);
    if Front(rings, m, i).sample {
      SelectedEarliest(rings, m, |rings|, i);
      assert !IsLast(rings[i][m.done[i]]);
      assert Selected(rings, m, |rings|).Some?;
    } else {
      assert m.done[i] < Pass(rings, m).done[i];
    }
    LeftShrinks(rings, m.done, Pass(rings, m).done, |rings|);
  }

  /** A latest sample is never passed. */
  lemma {:induction false} StuckAtLast(rings: seq<seq<Record>>, i: nat, k: nat, n: nat)
    requires i < |rings| && k < |rings[i]| && IsLast(rings[i][k])
    ensures Passes(rings, n).done[i] <= k
  {
    if n > 0 {
      StuckAtLast(rings, i, k, n - 1);
      PassStopsAtLast(rings, Passes(rings, n - 1), i, k);
    }
  }

  lemma PassStopsAtLast(rings: seq<seq<Record>>, m: Merge, i: nat, k: nat)
    requires Fits(rings, m) && i < |rings| && k < |rings[i]| && IsLast(rings[i][k]) && m.done[i] <= k
    ensures Pass(rings, m).done[i] <= k
  {
    hide Selected;
    SelectedNotLatest(rings, m, |rings|);
  }

  lemma {:induction false} FinishesAfter(rings: seq<seq<Record>>, n: nat) returns (k: nat)
    requires NoneLast(rings)
    ensures Finished(rings, Passes(rings, k))
    decreases Left(rings, Passes(rings, n).done, |rings|)
  {
    if Finished(rings, Passes(rings, n)) {
      k := n;
    } else {
      PassProgress(rings, Passes(rings, n));
      k := FinishesAfter(rings, n + 1);
    }
  }

  ghost predicate Terminates(rings: seq<seq<Record>>) { exists n: nat :: Finished(rings, Passes(rings, n)) }

  /** The loop ends exactly when no sample carries the latest time there is. */
  lemma TerminatesIff(rings: seq<seq<Record>>)
    ensures Terminates(rings) <==> NoneLast(rings)
  {
    if NoneLast(rings) {
      var k := FinishesAfter(rings, 0);
    } else if Terminates(rings) {
      var n: nat :| Finished(rings, Passes(rings, n));
      var i, k :| 0 <= i < |rings| && 0 <= k < |rings[i]| && IsLast(rings[i][k]);
      StuckAtLast(rings, i, k, n);
      assert Active(rings, Passes(rings, n), i);
    }
  }

  // ----- what is emitted -----

  function SamplesOf(rs: seq<Record>): seq<Record> {
    if rs == [] then [] else SamplesOf(rs[..|rs| - 1]) + (if rs[|rs| - 1].sample then [rs[|rs| - 1]] else [])
  }

  function OfRing(out: seq<Emitted>, i: nat): seq<Record> {
    if out == [] then [] else OfRing(out[..|out| - 1], i) + (if out[|out| - 1].ring == i then [out[|out| - 1].rec] else [])
  }

  lemma SamplesNext(rs: seq<Record>, k: nat)
    requires k < |rs|
    ensures SamplesOf(rs[..k + 1]) == SamplesOf(rs[..k]) + (if rs[k].sample then [rs[k]] else [])
  {
    assert rs[..k + 1][..k] == rs[..k];
  }

  lemma OfRingNext(out: seq<Emitted>, e: Emitted, i: nat)
    ensures OfRing(out + [e], i) == OfRing(out, i) + (if e.ring == i then [e.rec] else [])
  {
    assert (out + [e])[..|out|] == out;
  }

  /** What each ring contributed so far are its samples so far, in its own order. */
  lemma {:induction false} EmitsInRingOrder(rings: seq<seq<Record>>, n: nat, i: nat)
    requires i < |rings|
    ensures OfRing(Passes(rings, n).out, i) == SamplesOf(rings[i][..Passes(rings, n).done[i]])
  {
    if n > 0 {
      EmitsInRingOrder(rings, n - 1, i);
      var m := Passes(rings, n - 1);
      PassKeepsRing(rings, m, i);
    }
  }

  lemma PassKeepsRing(rings: seq<seq<Record>>, m: Merge, i: nat)
    requires Fits(rings, m) && i < |rings| && OfRing(m.out, i) == SamplesOf(rings[i][..m.done[i]])
    ensures OfRing(Pass(rings, m).out, i) == SamplesOf(rings[i][..Pass(rings, m).done[i]])
  {
    if Active(rings, m, i) { SamplesNext(rings[i], m.done[i]); }
    var sel := Selected(rings, m, |rings|);
    if sel.Some? { OfRingNext(m.out, Emitted(sel.value, Front(rings, m, sel.value)), i); }
  }

  /** When the loop has ended every sample has been emitted exactly once. */
  lemma EmitsEverySample(rings: seq<seq<Record>>, n: nat, i: nat)
    requires i < |rings| && Finished(rings, Passes(rings, n))
    ensures OfRing(Passes(rings, n).out, i) == SamplesOf(rings[i])
  {
    EmitsInRingOrder(rings, n, i);
    assert !Active(rings, Passes(rings, n), i);
    assert rings[i][..|rings[i]|] == rings[i];
  }

  lemma {:induction false} EmitsNothingElse(rings: seq<seq<Record>>, n: nat, j: nat)
    requires j < |Passes(rings, n).out|
    ensures Passes(rings, n).out[j].ring < |rings| && Passes(rings, n).out[j].rec.sample
    ensures Passes(rings, n).out[j].rec in rings[Passes(rings, n).out[j].ring]
  {
    var m := Passes(rings, n - 1);
    if j < |m.out| { EmitsNothingElse(rings, n - 1, j); }
  }

  // ----- order -----

  /** Rings of samples only, each sorted by time. */
  predicate SortedRings(rings: seq<seq<Record>>) {
    && (forall i, k | 0 <= i < |rings| && 0 <= k < |rings[i]| :: rings[i][k].sample)
    && (forall i, k, l | 0 <= i < |rings| && 0 <= k <= l < |rings[i]| :: rings[i][k].time <= rings[i][l].time)
  }

  predicate SortedOut(out: seq<Emitted>) { forall j, k | 0 <= j <= k < |out| :: out[j].rec.time <= out[k].rec.time }

  /** Nothing in front of a ring is earlier than what went out. */
  predicate FrontsLater(rings: seq<seq<Record>>, m: Merge)
    requires Fits(rings, m)
  {
    forall i, j | 0 <= i < |rings| && 0 <= j < |m.out| && Active(rings, m, i) :: m.out[j].rec.time <= Front(rings, m, i).time
  }

  lemma {:induction false} OutputSorted(rings: seq<seq<Record>>, n: nat)
    requires SortedRings(rings)
    ensures SortedOut(Passes(rings, n).out) && FrontsLater(rings, Passes(rings, n))
  {
    if n > 0 {
      OutputSorted(rings, n - 1);
      PassKeepsOrder(rings, Passes(rings, n - 1));
    }
  }

  lemma PassKeepsOrder(rings: seq<seq<Record>>, m: Merge)
    requires Fits(rings, m) && SortedRings(rings) && SortedOut(m.out) && FrontsLater(rings, m)
    ensures SortedOut(Pass(rings, m).out) && FrontsLater(rings, Pass(rings, m))
  {
    var m' := Pass(rings, m);
    var sel := Selected(rings, m, |rings|);
    forall i, j | 0 <= i < |rings| && 0 <= j < |m'.out| && Active(rings, m', i)
      ensures m'.out[j].rec.time <= Front(rings, m', i).time {
      assert Active(rings, m, i) && m.done[i] <= m'.done[i];
      assert Front(rings, m, i).time <= Front(rings, m', i).time;
      if j == |m.out| { SelectedEarliest(rings, m, |rings|, i); }
    }
    if sel.Some? { assert Active(rings, m, sel.value); }
  }

  /** With one clock for all rings the converted times that go out never decrease. */
  lemma ConvertedTimesSorted(rings: seq<seq<Record>>, n: nat, c: PerfClock.Clock, j: nat, k: nat)
    requires SortedRings(rings) && PerfClock.ValidClock(c) && j <= k < |Passes(rings, n).out|
    requires forall i, l | 0 <= i < |rings| && 0 <= l < |rings[i]| :: PerfClock.Convertible(c, rings[i][l].time)
    ensures var out := Passes(rings, n).out;
      PerfClock.ConvertTimeToTsc(c, out[j].rec.time) <= PerfClock.ConvertTimeToTsc(c, out[k].rec.time)
  {
    hide Pass, PerfClock.Convertible, PerfClock.ConvertTimeToTsc;
    var out := Passes(rings, n).out;
    OutputSorted(rings, n);
    EmitsNothingElse(rings, n, j);
    EmitsNothingElse(rings, n, k);
    PerfClock.ConvertMonotone(c, out[j].rec.time, out[k].rec.time);
  }
}
