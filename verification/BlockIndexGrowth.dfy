/** The loop of new_block_index that carries the live entries over to a larger circular index. */
module BlockIndexGrowth {
  import opened BlockRing
  import opened BlockArith

  /**
   Copies the used entries that end just before front into the start of grown, oldest first. The loop runs once
   before it looks at its condition, so a completely full index is copied whole rather than not at all.
   */
  method CopyEntries(filled: array<Entry>, front: nat, used: nat, grown: array<Entry>)
    requires front < filled.Length && 0 < used <= filled.Length && used <= grown.Length && filled != grown
    modifies grown
    ensures grown[..] == GrownEntries(old(filled[..]), front, used, old(grown[used..]))
  {
    var size := filled.Length;
    var i, j, more := (front - used) % size, 0, true;
    ghost var rest := grown[used..];
    assert i == Slot(0, front - used, size);
    while more
      invariant j <= used && filled[..] == old(filled[..])
      invariant i == Slot(j, front - used, size)
      invariant more <==> j < used
      invariant forall k | 0 <= k < j :: grown[k] == old(filled[..])[(front - used + k) % size]
      invariant grown[used..] == rest
      decreases used - j
    {
      grown[j] := filled[i];
      SlotMove(j, j + 1, front - used, size);
      FrontReached(front, used, j + 1, size);
      i, j := (i + 1) % size, j + 1;
      more := i != front;
    }
    assert grown[..] == grown[..used] + grown[used..];
  }

  /** Going round from used places before front, one meets front again after exactly used places. */
  lemma FrontReached(front: nat, used: nat, j: nat, size: nat)
    requires front < size && 0 < j <= used <= size
    ensures Slot(j, front - used, size) == front <==> j == used
  {
    ModUnique(front, 0, front, size);
    if j < used {
      SlotDistinct(j, used, front - used, size);
    }
  }
}
