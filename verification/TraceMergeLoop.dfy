/**
 The merge loop itself: per-ring byte positions, ends and activity flags, and the number of rings still active.
 */
module TraceMergeLoop {

  import opened Int64
  import opened TraceMerge
  import opened Options

  const MAX_RINGS: nat := 512

  /** Every record takes up room, as its header says. */
  predicate Sized(rings: seq<seq<Record>>) {
    forall i, k | 0 <= i < |rings| && 0 <= k < |rings[i]| :: rings[i][k].size > 0
  }

  /** Byte position behind the first k records. */
  function Bytes(rs: seq<Record>, k: nat): nat
    requires k <= |rs|
  {
    if k == 0 then 0 else Bytes(rs, k - 1) + rs[k - 1].size
  }

  /** The record whose header is read at a byte position, counting from record k at position p. */
  function RecordAt(rs: seq<Record>, k: nat, p: nat, pos: nat): Option<Record>
    requires k <= |rs|
    decreases |rs| - k
  {
    if k == |rs| || pos < p then None else if pos == p then Some(rs[k]) else RecordAt(rs, k + 1, p + rs[k].size, pos)
  }

  lemma {:induction false} RecordAtBytes(rs: seq<Record>, k: nat, l: nat)
    requires k <= l < |rs| && forall j | 0 <= j < |rs| :: rs[j].size > 0
    ensures Bytes(rs, k) <= Bytes(rs, l) && RecordAt(rs, k, Bytes(rs, k), Bytes(rs, l)) == Some(rs[l])
    decreases l - k
  {
    if k < l { RecordAtBytes(rs, k + 1, l); }
  }

  lemma {:induction false} BytesGrow(rs: seq<Record>, k: nat, l: nat)
    requires k < l <= |rs| && forall j | 0 <= j < |rs| :: rs[j].size > 0
    ensures Bytes(rs, k) < Bytes(rs, l)
    decreases l - k
  {
    if k + 1 < l { BytesGrow(rs, k + 1, l); }
  }

  function CountActive(rings: seq<seq<Record>>, m: Merge, n: nat): nat
    requires Fits(rings, m) && n <= |rings|
  {
    if n == 0 then 0 else CountActive(rings, m, n - 1) + (if Active(rings, m, n - 1) then 1 else 0)
  }

  lemma {:induction false} CountChange(rings: seq<seq<Record>>, m: Merge, m': Merge, i: nat, n: nat)
    requires Fits(rings, m) && Fits(rings, m') && i < |rings| && n <= |rings| && Active(rings, m, i)
    requires m'.done == m.done[i := m.done[i] + 1]
    ensures CountActive(rings, m', n) == CountActive(rings, m, n) - (if i < n && !Active(rings, m', i) then 1 else 0)
  {
    if n > 0 { CountChange(rings, m, m', i, n - 1); }
  }

  lemma {:induction false} CountZero(rings: seq<seq<Record>>, m: Merge, n: nat)
    requires Fits(rings, m) && n <= |rings|
    ensures CountActive(rings, m, n) == 0 <==> forall i | 0 <= i < n :: !Active(rings, m, i)
  {
    if n > 0 { CountZero(rings, m, n - 1); }
  }

  lemma {:induction false} CountSame(rings: seq<seq<Record>>, m: Merge, m': Merge, n: nat)
    requires Fits(rings, m) && Fits(rings, m') && n <= |rings| && m'.done == m.done
    ensures CountActive(rings, m', n) == CountActive(rings, m, n)
  {
    if n > 0 { CountSame(rings, m, m', n - 1); }
  }

  /** Rings before i have had their turn in the pass, the others not yet. */
  function PartlySkipped(rings: seq<seq<Record>>, m: Merge, i: nat): (m': Merge)
    requires Fits(rings, m) && i <= |rings|
    ensures Fits(rings, m')
  {
    Merge(Skipped(rings, m)[..i] + m.done[i..], m.out)
  }

  class Merger {
    const active: array<bool>
    const end: array<nat>
    const pos: array<nat>
    var activeNum: int

    ghost predicate Valid()
    {
      && active.Length == MAX_RINGS && end.Length == MAX_RINGS && pos.Length == MAX_RINGS && end != pos
    }

    /** The arrays describe the state m of the merge. */
    ghost predicate Tracks(rings: seq<seq<Record>>, m: Merge)
      reads this, active, end, pos
      requires Valid() && Fits(rings, m) && |rings| <= MAX_RINGS
    {
      && (forall i | 0 <= i < |rings| :: Ring(rings, m, i))
      && activeNum == CountActive(rings, m, |rings|)
    }

    ghost predicate Ring(rings: seq<seq<Record>>, m: Merge, i: nat)
      reads active, end, pos
      requires Valid() && Fits(rings, m) && |rings| <= MAX_RINGS && i < |rings|
    {
      && active[i] == Active(rings, m, i) && end[i] == Bytes(rings[i], |rings[i]|)
      && (active[i] ==> pos[i] == Bytes(rings[i], m.done[i]))
    }

    constructor ()
      ensures Valid() && fresh(active) && fresh(end) && fresh(pos)
    {
      active := new bool[MAX_RINGS];
      end := new nat[MAX_RINGS];
      pos := new nat[MAX_RINGS];
      activeNum := 0;
    }

    /** Takes stock of the rings: those with anything in them are active. */
    method Open(rings: seq<seq<Record>>)
      requires Valid() && |rings| <= MAX_RINGS && Sized(rings)
      modifies this, active, end, pos
      ensures Tracks(rings, Start(rings))
    {
      var m := Start(rings);
      activeNum := 0;
      for i := 0 to |rings|
        invariant forall j | 0 <= j < i :: Ring(rings, m, j)
        invariant activeNum == CountActive(rings, m, i)
      {
        label Turn:
        var size := Bytes(rings[i], |rings[i]|);
        if |rings[i]| > 0 { BytesGrow(rings[i], 0, |rings[i]|); }
        active[i] := size != 0;
        if size != 0 {
          activeNum := activeNum + 1;
          end[i] := size;
          pos[i] := 0;
        } else {
          end[i] := 0;
        }
        assert m.done[i] == 0 && Ring(rings, m, i);
        forall j | 0 <= j < i ensures Ring(rings, m, j) { assert old@Turn(Ring(rings, m, j)); }
      }
    }

    /** Moves ring i past the record in front of it. */
    method Advance(rings: seq<seq<Record>>, i: nat, size: nat, ghost m: Merge)
      requires Valid() && Fits(rings, m) && |rings| <= MAX_RINGS && Sized(rings) && Tracks(rings, m)
      requires i < |rings| && Active(rings, m, i) && size == Front(rings, m, i).size
      modifies this, active, pos
      ensures Tracks(rings, m.(done := m.done[i := m.done[i] + 1]))
    {
      hide CountActive, Active;
      ghost var m' := m.(done := m.done[i := m.done[i] + 1]);
      assert Ring(rings, m, i);
      ActiveNow(rings, m, m', i);
      CountChange(rings, m, m', i, |rings|);
      var rbPos := pos[i] + size;
      if rbPos == end[i] {
        active[i] := false;
        activeNum := activeNum - 1;
      } else {
        pos[i] := rbPos;
      }
      forall j | 0 <= j < |rings| ensures Ring(rings, m', j) {
        if j != i {
          assert old(Ring(rings, m, j));
          ActiveElsewhere(rings, m, m', i, j);
        }
      }
    }

    /** The output plays no part in what the arrays describe. */
    lemma SameDone(rings: seq<seq<Record>>, m: Merge, m': Merge)
      requires Valid() && Fits(rings, m) && Fits(rings, m') && |rings| <= MAX_RINGS && Tracks(rings, m) && m'.done == m.done
      ensures Tracks(rings, m')
    {
      CountSame(rings, m, m', |rings|);
      forall i | 0 <= i < |rings| ensures Ring(rings, m', i) { assert Ring(rings, m, i); }
    }

    /** The inner loop: skips what is not a sample, finds the earliest sample in front. */
    method Scan(rings: seq<seq<Record>>, ghost m: Merge) returns (sel: int)
      requires Valid() && Fits(rings, m) && |rings| <= MAX_RINGS && Sized(rings) && Tracks(rings, m)
      modifies this, active, pos
      ensures Tracks(rings, Merge(Skipped(rings, m), m.out))
      ensures sel == match Selected(rings, m, |rings|) case None => -1 case Some(i) => i
    {
      hide CountActive, Ring, Tracks, Selected, SelectedTime, PartlySkipped, Skipped;
      sel := -1;
      var t0: int64 := LATEST;
      PartStart(rings, m);
      for i := 0 to |rings|
        invariant Tracks(rings, PartlySkipped(rings, m, i))
        invariant t0 == SelectedTime(rings, m, i)
        invariant sel == match Selected(rings, m, i) case None => -1 case Some(j) => j
      {
        ghost var part := PartlySkipped(rings, m, i);
        PartNext(rings, m, i);
        SelectedStep(rings, m, i);
        RingNow(rings, part, i);
        if active[i] {
          RecordAtBytes(rings[i], 0, m.done[i]);
          var rec := RecordAt(rings[i], 0, 0, pos[i]).value;
          if rec.sample {
            if rec.time < t0 { t0, sel := rec.time, i; }
          } else {
            Advance(rings, i, rec.size, part);
          }
        }
      }
      PartEnd(rings, m);
    }

    lemma ActiveCount(rings: seq<seq<Record>>, m: Merge)
      requires Valid() && Fits(rings, m) && |rings| <= MAX_RINGS && Tracks(rings, m)
      ensures activeNum == CountActive(rings, m, |rings|)
    {
    }

    lemma RingNow(rings: seq<seq<Record>>, m: Merge, i: nat)
      requires Valid() && Fits(rings, m) && |rings| <= MAX_RINGS && Tracks(rings, m) && i < |rings|
      ensures active[i] == Active(rings, m, i) && (active[i] ==> pos[i] == Bytes(rings[i], m.done[i]))
    {
      assert Ring(rings, m, i);
    }
  }

  lemma PartStart(rings: seq<seq<Record>>, m: Merge)
    requires Fits(rings, m)
    ensures PartlySkipped(rings, m, 0) == m && Selected(rings, m, 0) == None && SelectedTime(rings, m, 0) == LATEST
  {
  }

  lemma PartEnd(rings: seq<seq<Record>>, m: Merge)
    requires Fits(rings, m)
    ensures PartlySkipped(rings, m, |rings|) == Merge(Skipped(rings, m), m.out)
  {
  }

  lemma PartNext(rings: seq<seq<Record>>, m: Merge, i: nat)
    requires Fits(rings, m) && i < |rings|
    ensures var p, p' := PartlySkipped(rings, m, i), PartlySkipped(rings, m, i + 1);
      && p.done[i] == m.done[i]
      && p' == if Active(rings, m, i) && !Front(rings, m, i).sample then p.(done := p.done[i := m.done[i] + 1]) else p
  {
    var p, p' := PartlySkipped(rings, m, i), PartlySkipped(rings, m, i + 1);
    assert p'.done == Skipped(rings, m)[..i] + [Skipped(rings, m)[i]] + m.done[i + 1..];
  }

  /** The merge of what the rings hold: afterwards all of it is used up, and the output is that of n passes. */
  method MergeRings(rings: seq<seq<Record>>) returns (out: seq<Emitted>, ghost n: nat)
    requires |rings| <= MAX_RINGS && Sized(rings) && NoneLast(rings)
    ensures Finished(rings, Passes(rings, n)) && out == Passes(rings, n).out
    ensures forall i | 0 <= i < |rings| :: OfRing(out, i) == SamplesOf(rings[i])
    ensures SortedRings(rings) ==> SortedOut(out)
  {
    hide Pass, Passes, CountActive, Merger.Ring, Merger.Tracks, Selected, Skipped, Left;
    var merger := new Merger();
    merger.Open(rings);
    out, n := [], 0;
    PassesStep(rings, 0);
    while merger.activeNum > 0
      invariant fresh(merger) && fresh(merger.active) && fresh(merger.pos) && merger.Valid()
      invariant merger.Tracks(rings, Passes(rings, n)) && out == Passes(rings, n).out
      decreases Left(rings, Passes(rings, n).done, |rings|)
    {
      ghost var m := Passes(rings, n);
      merger.ActiveCount(rings, m);
      CountZero(rings, m, |rings|);
      PassProgress(rings, m);
      PassesStep(rings, n);
      var sel := merger.Scan(rings, m);
      PassIs(rings, m);
      if sel >= 0 {
        ghost var skipped := Merge(Skipped(rings, m), m.out);
        merger.RingNow(rings, skipped, sel);
        RecordAtBytes(rings[sel], 0, m.done[sel]);
        var rec := RecordAt(rings[sel], 0, 0, merger.pos[sel]).value;
        out := out + [Emitted(sel, rec)];
        merger.Advance(rings, sel, rec.size, skipped);
        CountSame(rings, skipped.(done := skipped.done[sel := skipped.done[sel] + 1]), Pass(rings, m), |rings|);
        merger.SameDone(rings, skipped.(done := skipped.done[sel := skipped.done[sel] + 1]), Pass(rings, m));
      }
      n := n + 1;
    }
    merger.ActiveCount(rings, Passes(rings, n));
    CountZero(rings, Passes(rings, n), |rings|);
    forall i | 0 <= i < |rings| ensures OfRing(out, i) == SamplesOf(rings[i]) { EmitsEverySample(rings, n, i); }
    if SortedRings(rings) { OutputSorted(rings, n); }
  }

  lemma PassesStep(rings: seq<seq<Record>>, n: nat)
    ensures Passes(rings, 0) == Start(rings) && Passes(rings, n + 1) == Pass(rings, Passes(rings, n))
  {
  }

  lemma PassIs(rings: seq<seq<Record>>, m: Merge)
    requires Fits(rings, m)
    ensures var skipped := Merge(Skipped(rings, m), m.out); match Selected(rings, m, |rings|)
      case None => Pass(rings, m) == skipped
      case Some(i) => (
        && i < |rings| && Candidate(rings, m, i) && skipped.done[i] == m.done[i]
        && Pass(rings, m) == Merge(skipped.done[i := m.done[i] + 1], m.out + [Emitted(i, rings[i][m.done[i]])])
      )
  {
  }

  lemma ActiveNow(rings: seq<seq<Record>>, m: Merge, m': Merge, i: nat)
    requires Fits(rings, m) && i < |rings| && Active(rings, m, i) && Sized(rings) && m' == m.(done := m.done[i := m.done[i] + 1])
    ensures Fits(rings, m') && Bytes(rings[i], m'.done[i]) == Bytes(rings[i], m.done[i]) + rings[i][m.done[i]].size
    ensures Active(rings, m', i) <==> Bytes(rings[i], m'.done[i]) != Bytes(rings[i], |rings[i]|)
  {
    if Active(rings, m', i) { BytesGrow(rings[i], m'.done[i], |rings[i]|); }
  }

  lemma ActiveElsewhere(rings: seq<seq<Record>>, m: Merge, m': Merge, i: nat, j: nat)
    requires Fits(rings, m) && Fits(rings, m') && i < |rings| && j < |rings| && j != i && m'.done == m.done[i := m'.done[i]]
    ensures Active(rings, m', j) == Active(rings, m, j)
  {
  }
}
