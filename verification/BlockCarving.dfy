/**
 Lazily carved free lists: a span's blocks are linked up about a page at a time, through the blocks' own memory.
 */
module BlockCarving {

  import opened SizeClasses
  import BlockArith

  /** Address of block k behind a first block. */
  function Address(start: nat, size: nat, k: nat): nat { start + k * size }

  lemma AddressNext(start: nat, size: nat, k: nat)
    ensures Address(start, size, k + 1) == Address(start, size, k) + size && Address(start, size, 0) == start
  {
  }

  lemma AddressAdd(start: nat, size: nat, j: nat, k: nat)
    ensures Address(Address(start, size, j), size, k) == Address(start, size, j + k)
  {
  }

  lemma {:induction false} AddressGrows(start: nat, size: nat, j: nat, k: nat)
    requires j <= k
    ensures Address(start, size, j) <= Address(start, size, k)
    ensures j < k ==> Address(start, size, j) + size <= Address(start, size, k)
    decreases k
  {
    hide Address;
    if j < k {
      AddressGrows(start, size, j, k - 1);
      AddressNext(start, size, k - 1);
    }
  }

  function Min(a: nat, b: nat): nat { if a < b then a else b }

  /** Where linking stops: at the end of the blocks, and for small blocks at the end of the page. */
  function BlockEnd(page_start: nat, block_start: nat, count: nat, size: nat, page_size: nat): nat {
    if size < page_size / 2 then Min(page_start + page_size, Address(block_start, size, count))
    else Address(block_start, size, count)
  }

  /** The first block from k on that starts at or behind the end. */
  function FirstBehind(start: nat, size: nat, k: nat, count: nat, end: nat): (n: nat)
    requires k <= count && end <= Address(start, size, count)
    ensures k <= n <= count && Address(start, size, n) >= end
    ensures forall i | k <= i < n :: Address(start, size, i) < end
    decreases count - k
  {
    if Address(start, size, k) < end then FirstBehind(start, size, k + 1, count, end) else k
  }

  /** How many blocks one call links up, the one it hands out included. */
  function CarveCount(page_start: nat, block_start: nat, count: nat, size: nat, page_size: nat): (n: nat)
    requires count > 0
    ensures 1 <= n <= count && (count > 1 ==> n >= 2)
  {
    if count == 1 then 1 else FirstBehind(block_start, size, 2, count, BlockEnd(page_start, block_start, count, size, page_size))
  }

  /** A call stops before the last block only for small blocks, and then the next block starts on a later page. */
  lemma StopsAtPage(page_start: nat, block_start: nat, count: nat, size: nat, page_size: nat)
    requires count > 0 && size > 0
    ensures var n := CarveCount(page_start, block_start, count, size, page_size);
      && (n < count ==> size < page_size / 2 && Address(block_start, size, n) >= page_start + page_size)
      && (size < page_size / 2 ==> forall k | 2 <= k < n :: Address(block_start, size, k) < page_start + page_size)
  {
    var n := CarveCount(page_start, block_start, count, size, page_size);
    hide Address;
    AddressGrows(block_start, size, n, count);
  }

  /** The words at which free blocks hold the address of the next one. */
  class Memory {
    var words: map<nat, nat>

    constructor ()
      ensures words == map[]
    {
      words := map[];
    }
  }

  function NextOf(list: seq<nat>, i: nat): nat { if i + 1 < |list| then list[i + 1] else 0 }

  /** A free list in memory: its head, and in each block the address of the next, 0 at the end. */
  predicate FreeList(words: map<nat, nat>, head: nat, list: seq<nat>) {
    && head == (if list == [] then 0 else list[0])
    && forall i | 0 <= i < |list| :: list[i] != 0 && list[i] in words && words[list[i]] == NextOf(list, i)
  }

  /** The addresses of blocks j to k - 1. */
  function Addresses(start: nat, size: nat, j: nat, k: nat): (r: seq<nat>)
    requires j <= k
    ensures |r| == k - j && forall i | 0 <= i < |r| :: r[i] == Address(start, size, j + i)
  {
    seq<nat>(k - j, i requires 0 <= i < k - j => Address(start, size, j + i))
  }

  /** Blocks 1 to n - 2 are linked to the next one, and no word but theirs was written. */
  predicate LinkedUpTo(words: map<nat, nat>, was: map<nat, nat>, start: nat, size: nat, n: nat) {
    && (forall k | 1 <= k < n - 1 :: Address(start, size, k) in words && words[Address(start, size, k)] == Address(start, size, k + 1))
    && (forall a | a in was && a !in Addresses(start, size, 1, if n < 1 then 1 else n) :: a in words && words[a] == was[a])
  }

  lemma LinkNext(words: map<nat, nat>, was: map<nat, nat>, start: nat, size: nat, n: nat)
    requires n >= 2 && size > 0 && LinkedUpTo(words, was, start, size, n)
    ensures LinkedUpTo(words[Address(start, size, n - 1) := Address(start, size, n)], was, start, size, n + 1)
  {
    hide Address;
    var last := Address(start, size, n - 1);
    forall k | 1 <= k < n - 1 ensures Address(start, size, k) != last { AddressGrows(start, size, k, n - 1); }
    assert Addresses(start, size, 1, n + 1)[n - 2] == last;
    assert Addresses(start, size, 1, n + 1)[..n - 1] == Addresses(start, size, 1, n);
  }

  lemma LinkLast(words: map<nat, nat>, was: map<nat, nat>, start: nat, size: nat, n: nat)
    requires n >= 2 && size > 0 && start > 0 && LinkedUpTo(words, was, start, size, n)
    ensures var words', list := words[Address(start, size, n - 1) := 0], Addresses(start, size, 1, n);
      && FreeList(words', list[0], list)
      && forall a | a in was && a !in list :: a in words' && words'[a] == was[a]
  {
    hide Address;
    var last, list := Address(start, size, n - 1), Addresses(start, size, 1, n);
    assert list[n - 2] == last;
    forall k | 1 <= k < n ensures Address(start, size, k) >= start && (k < n - 1 ==> Address(start, size, k) != last) {
      AddressGrows(start, size, 0, k);
      AddressGrows(start, size, k, n - 1);
      AddressNext(start, size, 0);
    }
  }

  /** Links up the next batch of a span's blocks: the first is handed out, the others become the free list. */
  method FreeListPartialInit(memory: Memory, page_start: nat, block_start: nat, count: nat, size: nat, page_size: nat)
    returns (list: nat, first_block: nat, n: nat)
    requires count > 0 && size > 0 && block_start > 0
    modifies memory
    ensures n == CarveCount(page_start, block_start, count, size, page_size) && first_block == block_start
    ensures FreeList(memory.words, list, Addresses(block_start, size, 1, n))
    ensures forall a | a in old(memory.words) && a !in Addresses(block_start, size, 1, n) ::
      a in memory.words && memory.words[a] == old(memory.words[a])
  {
    hide Address, LinkedUpTo;
    first_block, n := block_start, count;
    if count == 1 { return 0, first_block, n; }
    AddressNext(block_start, size, 0);
    AddressNext(block_start, size, 1);
    var free_block := block_start + size;
    var block_end := BlockEnd(page_start, block_start, count, size, page_size);
    list := free_block;
    n := 2;
    var next_block := free_block + size;
    ghost var was := memory.words;
    NothingLinked(was, block_start, size);
    while next_block < block_end
      invariant 2 <= n <= count && free_block == Address(block_start, size, n - 1) && next_block == Address(block_start, size, n)
      invariant FirstBehind(block_start, size, 2, count, block_end) == FirstBehind(block_start, size, n, count, block_end)
      invariant LinkedUpTo(memory.words, was, block_start, size, n)
      decreases count - n
    {
      AddressNext(block_start, size, n);
      LinkNext(memory.words, was, block_start, size, n);
      memory.words := memory.words[free_block := next_block];
      free_block := next_block;
      n := n + 1;
      next_block := next_block + size;
    }
    LinkLast(memory.words, was, block_start, size, n);
    memory.words := memory.words[free_block := 0];
  }

  lemma NothingLinked(words: map<nat, nat>, start: nat, size: nat)
    ensures LinkedUpTo(words, words, start, size, 2)
  {
  }

  /** Takes the first block off a free list. */
  method FreeListPop(memory: Memory, list: nat, ghost blocks: seq<nat>) returns (block: nat, list': nat)
    requires blocks != [] && FreeList(memory.words, list, blocks)
    ensures block == blocks[0] && FreeList(memory.words, list', blocks[1..])
  {
    block := list;
    list' := memory.words[block];
    var rest := blocks[1..];
    forall i | 0 <= i < |rest| ensures memory.words[rest[i]] == NextOf(rest, i) {
      assert blocks[i + 1] == rest[i] && memory.words[blocks[i + 1]] == NextOf(blocks, i + 1);
    }
  }

  // ----- the batches of one span -----

  /** Address of a span's first block. */
  function FirstBlock(span: nat): nat { span + SPAN_HEADER_SIZE }

  /** Where the page of the batch that starts at block limit begins; the first batch counts from the span's header. */
  function PageStart(span: nat, size: nat, limit: nat, page_size: nat): (start: nat)
    requires page_size > 0
    ensures limit == 0 ==> start == span
    ensures limit > 0 ==>
      start % page_size == 0 && start <= Address(FirstBlock(span), size, limit) < start + page_size
  {
    PageOf(Address(FirstBlock(span), size, limit), page_size);
    if limit == 0 then span else Address(FirstBlock(span), size, limit) / page_size * page_size
  }

  lemma PageOf(address: nat, page_size: nat)
    requires page_size > 0
    ensures (address / page_size * page_size) % page_size == 0
    ensures address / page_size * page_size <= address < address / page_size * page_size + page_size
  {
    BlockArith.ModUnique(address / page_size * page_size, address / page_size, 0, page_size);
  }

  /** The limits reached batch by batch, up to the number of blocks. */
  function Limits(span: nat, size: nat, count: nat, page_size: nat, limit: nat): (r: seq<nat>)
    requires limit <= count && page_size > 0
    ensures |r| > 0 && r[0] == limit && r[|r| - 1] == count
    ensures forall i | 0 <= i < |r| - 1 :: r[i] < r[i + 1]
    decreases count - limit
  {
    if limit == count then [count]
    else
      var n := CarveCount(PageStart(span, size, limit, page_size), Address(FirstBlock(span), size, limit), count - limit, size, page_size);
      [limit] + Limits(span, size, count, page_size, limit + n)
  }

  /** The addresses of all batches, one batch after the other. */
  function Carved(span: nat, size: nat, limits: seq<nat>): seq<nat>
    requires |limits| > 0 && forall i | 0 <= i < |limits| - 1 :: limits[i] < limits[i + 1]
  {
    if |limits| == 1 then []
    else Addresses(FirstBlock(span), size, limits[0], limits[1]) + Carved(span, size, limits[1..])
  }

  /** The batches cover each block of the span once, in order. */
  lemma {:induction false} CarvedInOrder(span: nat, size: nat, limits: seq<nat>)
    requires |limits| > 0 && forall i | 0 <= i < |limits| - 1 :: limits[i] < limits[i + 1]
    ensures limits[0] <= limits[|limits| - 1]
    ensures Carved(span, size, limits) == Addresses(FirstBlock(span), size, limits[0], limits[|limits| - 1])
  {
    if |limits| > 1 {
      CarvedInOrder(span, size, limits[1..]);
      AddressesJoin(FirstBlock(span), size, limits[0], limits[1], limits[|limits| - 1]);
    }
  }

  lemma AddressesJoin(start: nat, size: nat, i: nat, j: nat, k: nat)
    requires i <= j <= k
    ensures Addresses(start, size, i, j) + Addresses(start, size, j, k) == Addresses(start, size, i, k)
  {
    hide Address;
  }

  /** The blocks of a span do not overlap, and lie behind its header and inside it. */
  lemma BlocksInsideSpan(table: seq<SizeClass>, c: nat, span: nat, i: nat, j: nat)
    requires |table| == SIZE_CLASS_COUNT && SetUp(table, SIZE_CLASS_COUNT) && c < SIZE_CLASS_COUNT
    requires i < j < table[c].block_count
    ensures var start, size := FirstBlock(span), table[c].block_size;
      && span + SPAN_HEADER_SIZE <= Address(start, size, i) && Address(start, size, i) + size <= Address(start, size, j)
      && Address(start, size, j) + size <= span + SPAN_SIZE
  {
    hide SetUp;
    BlocksFitSpan(table, c);
    AddressGrows(FirstBlock(span), table[c].block_size, i, j);
    AddressGrows(FirstBlock(span), table[c].block_size, j, table[c].block_count);
  }

  /**
   Each batch but the last ends on a page that the next one leaves alone; of blocks smaller than half a page, only the
   first two of a batch may start on a later page than the batch.
   */
  lemma BatchesOfPages(span: nat, size: nat, count: nat, page_size: nat, limit: nat)
    requires limit < count && page_size > 0 && size > 0
    ensures var start, r := FirstBlock(span), Limits(span, size, count, page_size, limit);
      |r| > 1 && (r[1] < count ==>
        size < page_size / 2 && Address(start, size, r[1]) >= PageStart(span, size, limit, page_size) + page_size)
      && (size < page_size / 2 ==>
        forall k | limit + 2 <= k < r[1] :: Address(start, size, k) < PageStart(span, size, limit, page_size) + page_size)
  {
    hide PageStart;
    var start := Address(FirstBlock(span), size, limit);
    var n := CarveCount(PageStart(span, size, limit, page_size), start, count - limit, size, page_size);
    StopsAtPage(PageStart(span, size, limit, page_size), start, count - limit, size, page_size);
    AddressAdd(FirstBlock(span), size, limit, n);
    forall k | limit + 2 <= k < limit + n && size < page_size / 2
      ensures Address(FirstBlock(span), size, k) < PageStart(span, size, limit, page_size) + page_size {
      AddressAdd(FirstBlock(span), size, limit, k - limit);
    }
  }
}
