/**
 Reallocating a block of any tier: in place where it still fits, else by allocating, copying and freeing.
 */
module Reallocation {

  import opened Bytes
  import opened SizeClasses
  import opened Options

  /** A pointer into a block. Behind an aligned allocation it need not be the block's start. */
  datatype Pointer = Pointer(block: nat, offset: nat)

  /** The test of the large tier, on the bits the program looks at: every bit but the lowest of the span count. */
  lemma MaskSeesAllButOne(total: bv64)
    ensures total & (0xffff_ffff_ffff_0000 - 1) != 0 <==> total != 0 && total != 0x1_0000
  {
  }

  /** How many spans the large tier takes a size to need. */
  function NumSpans(total: nat): nat { total / SPAN_SIZE + (if total != 0 && total != SPAN_SIZE then 1 else 0) }

  /** It is never too few, and one too many exactly for whole spans beyond the first. */
  lemma NumSpansCovers(total: nat)
    ensures NumSpans(total) * SPAN_SIZE >= total
    ensures NumSpans(total) == CeilDiv(total, SPAN_SIZE) + (if total % SPAN_SIZE == 0 && total > SPAN_SIZE then 1 else 0)
  {
  }

  function Min(a: nat, b: nat): nat { if a < b then a else b }

  /** Growing by less than 37% asks for 37% more. */
  function NewSize(oldsize: nat, size: nat): (r: nat)
    ensures r >= size && (size <= oldsize ==> r == size)
    ensures size > oldsize ==> 8 * r > 11 * oldsize - 16 && (r > size ==> 8 * r <= 11 * oldsize)
  {
    var lower_bound := oldsize + oldsize / 4 + oldsize / 8;
    if size > lower_bound then size else if size > oldsize then lower_bound else size
  }

  /** The block keeps its place. */
  function Fits(t: Tier, page_size: nat, size: nat): bool
    requires page_size > 0
  {
    match t
    case Blocks(_, block_size) => block_size >= size
    case Spans(count) => count >= NumSpans(size + SPAN_HEADER_SIZE) && NumSpans(size + SPAN_HEADER_SIZE) >= count / 2
    case Pages(count) =>
      count >= CeilDiv(size + SPAN_HEADER_SIZE, page_size) && CeilDiv(size + SPAN_HEADER_SIZE, page_size) >= count / 2
  }

  lemma FitsCovers(t: Tier, page_size: nat, size: nat)
    requires page_size > 0 && Fits(t, page_size, size)
    ensures Usable(t, page_size) >= size
  {
    match t
    case Blocks(_, block_size) =>
    case Spans(count) =>
      NumSpansCovers(size + SPAN_HEADER_SIZE);
    case Pages(count) =>
      var need := CeilDiv(size + SPAN_HEADER_SIZE, page_size);
      CeilCovers(size + SPAN_HEADER_SIZE, page_size);
      Product(need, count, page_size);
  }

  /**
   When a block keeps its place: always where it covers the request, in the two upper tiers only if the request needs at
   least half of it, and in the large tier not if the request fills two or more spans to the last byte.
   */
  lemma FitsExactly(t: Tier, page_size: nat, size: nat)
    requires page_size > 0
    ensures Fits(t, page_size, size) <==>
      Usable(t, page_size) >= size &&
      match t
      case Blocks(_, _) => true
      case Spans(count) =>
        !(count > 1 && size + SPAN_HEADER_SIZE == count * SPAN_SIZE) && NumSpans(size + SPAN_HEADER_SIZE) >= count / 2
      case Pages(count) => CeilDiv(size + SPAN_HEADER_SIZE, page_size) >= count / 2
  {
    match t
    case Blocks(_, _) =>
    case Spans(count) => NumSpansCovers(size + SPAN_HEADER_SIZE);
    case Pages(count) =>
      hide CeilDiv;
      var total := size + SPAN_HEADER_SIZE;
      CeilIsLeast(total, page_size);
      var need := CeilDiv(total, page_size);
      if need <= count { Product(need, count, page_size); } else { Product(count, need - 1, page_size); }
  }

  lemma Product(a: nat, b: nat, c: nat)
    requires a <= b
    ensures a * c <= b * c
  {
  }

  /** The allocated blocks: how each was allocated, and its usable bytes. */
  class Allocations {
    const table: seq<SizeClass>
    const page_size: nat
    var tier: map<nat, Tier>
    var bytes: map<nat, seq<byte>>

    ghost predicate Valid()
      reads this
    {
      && |table| == SIZE_CLASS_COUNT && SetUp(table, SIZE_CLASS_COUNT) && page_size > 0
      && tier.Keys == bytes.Keys && forall b <- tier :: |bytes[b]| == Usable(tier[b], page_size)
    }

    /** What can be used from a pointer on. */
    function UsableSize(p: Pointer): int
      reads this
      requires p.block in tier
    {
      Usable(tier[p.block], page_size) - p.offset
    }

    /** Allocates a block; memory is the address and the stale content the system supplies. */
    method Allocate(size: nat, address: nat, stale: byte) returns (p: Pointer)
      requires Valid() && address !in tier
      modifies this
      ensures Valid() && p == Pointer(address, 0) && address in tier && UsableSize(p) >= size
      ensures tier.Keys == old(tier.Keys) + {address} && tier[address] == SizeClasses.Allocate(table, page_size, size)
      ensures forall b <- old(tier) :: tier[b] == old(tier)[b] && bytes[b] == old(bytes)[b]
    {
      hide SetUp;
      UsableCoversRequest(table, page_size, size);
      var t := SizeClasses.Allocate(table, page_size, size);
      tier := tier[address := t];
      bytes := bytes[address := seq(Usable(t, page_size), _ => stale)];
      return Pointer(address, 0);
    }

    /** Copies the first bytes of one place over those of another. */
    method Copy(from: Pointer, to: nat, n: nat)
      requires Valid() && from.block in tier && to in tier
      requires from.offset + n <= |bytes[from.block]| && n <= |bytes[to]|
      modifies this`bytes
      ensures Valid() && bytes[to] == old(bytes)[from.block][from.offset..from.offset + n] + old(bytes)[to][n..]
      ensures forall b <- tier | b != to :: bytes[b] == old(bytes)[b]
    {
      hide SetUp;
      bytes := bytes[to := bytes[from.block][from.offset..from.offset + n] + bytes[to][n..]];
    }

    /** What is kept of the old block: its first bytes, up to the smaller of the two sizes. */
    twostate predicate Preserved(p: Pointer, q: Pointer, n: nat)
      reads this
    {
      && p.block in old(bytes) && p.offset + n <= |old(bytes)[p.block]|
      && q.block in bytes && q.offset == 0 && n <= |bytes[q.block]|
      && bytes[q.block][..n] == old(bytes)[p.block][p.offset..p.offset + n]
    }

    /** oldsize 0 stands for all that can be used; available is whether the system still has memory. */
    method Reallocate(p: Option<Pointer>, size: nat, oldsize: nat, preserve: bool, address: nat, stale: byte, available: bool)
      returns (q: Option<Pointer>)
      requires Valid() && address !in tier
      requires p.Some? ==> p.value.block in tier && oldsize <= UsableSize(p.value)
      modifies this
      ensures Valid() && (q.Some? ==> q.value.block in tier && UsableSize(q.value) >= size && q.value.offset == 0)
      ensures q.Some? && p.Some? && preserve ==>
        Preserved(p.value, q.value, Min(if oldsize == 0 then old(UsableSize(p.value)) else oldsize, size))
      ensures q.None? ==> unchanged(this) && !available
      ensures p.Some? && Fits(old(tier)[p.value.block], page_size, size) ==>
        q == Some(Pointer(p.value.block, 0)) && tier == old(tier)
      ensures !(p.Some? && Fits(old(tier)[p.value.block], page_size, size)) ==>
        && (q.None? <==> !available)
        && (q.Some? ==>
             var old_size := if p.None? then 0 else if oldsize == 0 then old(UsableSize(p.value)) else oldsize;
             && q.value == Pointer(address, 0) && address in tier
             && tier[address] == SizeClasses.Allocate(table, page_size, NewSize(old_size, size)))
      ensures q.Some? ==> tier.Keys == old(tier.Keys) + {q.value.block} - (if p.Some? && p.value.block != q.value.block then {p.value.block} else {})
      ensures forall b <- tier | b in old(tier) && (p.None? || b != p.value.block) :: tier[b] == old(tier)[b] && bytes[b] == old(bytes)[b]
    {
      hide SetUp, Usable, Fits, NewSize;
      var old_size := 0;
      if p.Some? {
        var block := p.value.block;
        old_size := if oldsize == 0 then UsableSize(p.value) else oldsize;
        if Fits(tier[block], page_size, size) {
          FitsCovers(tier[block], page_size, size);
          if p.value.offset != 0 && preserve { Copy(p.value, block, old_size); }
          return Some(Pointer(block, 0));
        }
      }
      if !available { return None; }
      var moved := Move(p, old_size, size, preserve, address, stale);
      return Some(moved);
    }

    /** Allocates the new block, copies what is to be kept, and frees the old one. */
    method Move(p: Option<Pointer>, oldsize: nat, size: nat, preserve: bool, address: nat, stale: byte) returns (q: Pointer)
      requires Valid() && address !in tier && (p.Some? ==> p.value.block in tier && oldsize <= UsableSize(p.value))
      modifies this
      ensures Valid() && q == Pointer(address, 0) && address in tier && UsableSize(q) >= size
      ensures p.Some? && preserve ==> Preserved(p.value, q, Min(oldsize, size))
      ensures tier[address] == SizeClasses.Allocate(table, page_size, NewSize(oldsize, size))
      ensures tier.Keys == old(tier.Keys) + {address} - (if p.Some? then {p.value.block} else {})
      ensures forall b <- tier | b in old(tier) && (p.None? || b != p.value.block) :: tier[b] == old(tier)[b] && bytes[b] == old(bytes)[b]
    {
      hide SetUp, Usable, NewSize;
      var new_size := NewSize(oldsize, size);
      q := Allocate(new_size, address, stale);
      if p.Some? {
        if preserve { Copy(p.value, address, Min(oldsize, new_size)); }
        Deallocate(p.value.block);
      }
    }

    method Deallocate(block: nat)
      requires Valid() && block in tier
      modifies this
      ensures Valid() && tier == old(tier) - {block} && bytes == old(bytes) - {block}
    {
      hide SetUp, Usable;
      tier, bytes := tier - {block}, bytes - {block};
    }
  }
}
