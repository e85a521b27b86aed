/**
 The allocator's size classes with its built-in span of 64 KiB: their setup, and which block a request gets.
 */
module SizeClasses {

  const SPAN_SIZE: nat := 0x1_0000
  const SPAN_HEADER_SIZE: nat := 96
  const SMALL_GRANULARITY: nat := 16
  const SMALL_CLASS_COUNT: nat := 65
  const SMALL_SIZE_LIMIT: nat := SMALL_GRANULARITY * (SMALL_CLASS_COUNT - 1)
  const MEDIUM_GRANULARITY: nat := 512
  const MEDIUM_CLASS_COUNT: nat := 61
  const MEDIUM_SIZE_LIMIT: nat := SMALL_SIZE_LIMIT + MEDIUM_GRANULARITY * MEDIUM_CLASS_COUNT
  const SIZE_CLASS_COUNT: nat := SMALL_CLASS_COUNT + MEDIUM_CLASS_COUNT
  const LARGE_CLASS_COUNT: nat := 32
  const LARGE_SIZE_LIMIT: nat := LARGE_CLASS_COUNT * SPAN_SIZE - SPAN_HEADER_SIZE

  datatype SizeClass = SizeClass(block_size: nat, block_count: nat, class_idx: nat)

  /** The size a class is set up for. */
  function ClassSize(i: nat): (size: nat)
    ensures size > 0
  {
    if i == 0 then SMALL_GRANULARITY
    else if i < SMALL_CLASS_COUNT then i * SMALL_GRANULARITY
    else SMALL_SIZE_LIMIT + (i - SMALL_CLASS_COUNT + 1) * MEDIUM_GRANULARITY
  }

  /** How many blocks of a class fit a span behind its header. */
  function BlocksPerSpan(i: nat): nat { BlockCount(ClassSize(i)) }

  function BlockCount(block_size: nat): nat
    requires block_size > 0
  {
    (SPAN_SIZE - SPAN_HEADER_SIZE) / block_size
  }

  function Entry(i: nat): SizeClass { SizeClass(ClassSize(i), BlocksPerSpan(i), i) }

  /** Class k stands for the last class of its run of equal block counts. */
  predicate Merged(table: seq<SizeClass>, n: nat, k: nat)
    requires k < n <= |table|
  {
    var j := table[k].class_idx;
    && k <= j < n && table[k] == Entry(j)
    && (forall m | k <= m <= j :: table[m] == table[k] && BlocksPerSpan(m) == BlocksPerSpan(j))
    && (j + 1 < n ==> BlocksPerSpan(j + 1) != BlocksPerSpan(j))
  }

  predicate SetUp(table: seq<SizeClass>, n: nat)
    requires n <= |table|
  {
    forall k | 0 <= k < n :: Merged(table, n, k)
  }

  /** Completes class i and lets the classes before it with as many blocks use its larger size. */
  method AdjustSizeClass(table: array<SizeClass>, i: nat)
    requires i < table.Length && table[i].block_size == ClassSize(i) && SetUp(table[..], i)
    modifies table
    ensures SetUp(table[..], i + 1)
    ensures forall k | i < k < table.Length :: table[k] == old(table[k])
  {
    hide BlocksPerSpan, ClassSize, BlockCount;
    ghost var was := table[..];
    var block_size := table[i].block_size;
    var block_count := BlockCount(block_size);
    BlocksAre(i);
    table[i] := table[i].(block_count := block_count, class_idx := i);
    var prevclass := i;
    while prevclass > 0
      invariant prevclass <= i
      invariant forall k | 0 <= k < prevclass :: table[k] == was[k]
      invariant forall k | prevclass <= k <= i :: table[k] == Entry(i)
      invariant forall k | prevclass <= k < i :: was[k].block_count == BlocksPerSpan(i)
      invariant forall k | i < k < table.Length :: table[k] == was[k]
    {
      if table[prevclass - 1].block_count == table[i].block_count {
        prevclass := prevclass - 1;
        table[prevclass] := table[i];
      } else {
        break;
      }
    }
    RunReplaced(was, table[..], i, prevclass);
  }

  lemma BlocksAre(i: nat)
    ensures ClassSize(i) > 0 && BlockCount(ClassSize(i)) == BlocksPerSpan(i)
  {
  }

  /** The loop stopped at the start of a run, so no earlier class pointed into what was replaced. */
  lemma RunReplaced(was: seq<SizeClass>, table: seq<SizeClass>, i: nat, p: nat)
    requires p <= i < |was| == |table| && SetUp(was, i)
    requires (forall k | 0 <= k < p :: table[k] == was[k]) && forall k | p <= k <= i :: table[k] == Entry(i)
    requires forall k | p <= k < i :: was[k].block_count == BlocksPerSpan(i)
    requires p > 0 ==> was[p - 1].block_count != BlocksPerSpan(i)
    ensures SetUp(table, i + 1)
  {
    hide BlocksPerSpan, ClassSize;
    var n := i + 1;
    forall k | 0 <= k < n ensures Merged(table, n, k) {
      if k < p {
        assert Merged(was, i, k);
        var j := was[k].class_idx;
        if j >= p { assert false; }
        if j + 1 == i { assert was[j].block_count == BlocksPerSpan(j); }
        forall m | k <= m <= j ensures table[m] == table[k] { assert was[m] == was[k]; }
      } else {
        forall m | k <= m <= i ensures BlocksPerSpan(m) == BlocksPerSpan(i) {
          if m < i { CountKept(was, i, m); }
        }
      }
    }
  }

  lemma CountKept(table: seq<SizeClass>, n: nat, k: nat)
    requires k < n <= |table| && SetUp(table, n)
    ensures table[k].block_count == BlocksPerSpan(k)
  {
    hide BlocksPerSpan, ClassSize;
    assert Merged(table, n, k);
  }

  /** The setup of all classes. The medium limit is the last class's size, so the loop never breaks off. */
  method SetUpClasses() returns (table: array<SizeClass>)
    ensures fresh(table) && table.Length == SIZE_CLASS_COUNT && SetUp(table[..], SIZE_CLASS_COUNT)
  {
    hide Merged, SetUp;
    table := new SizeClass[SIZE_CLASS_COUNT](_ => SizeClass(0, 0, 0));
    NothingSetUp(table[..]);
    table[0] := table[0].(block_size := SMALL_GRANULARITY);
    NothingSetUp(table[..]);
    AdjustSizeClass(table, 0);
    for i := 1 to SMALL_CLASS_COUNT
      invariant SetUp(table[..], i)
    {
      ghost var was := table[..];
      table[i] := table[i].(block_size := i * SMALL_GRANULARITY);
      StillSetUp(was, table[..], i);
      AdjustSizeClass(table, i);
    }
    var limit := (SPAN_SIZE - SPAN_HEADER_SIZE) / 2;
    if limit > MEDIUM_SIZE_LIMIT { limit := MEDIUM_SIZE_LIMIT; }
    for i := 0 to MEDIUM_CLASS_COUNT
      invariant limit == MEDIUM_SIZE_LIMIT && SetUp(table[..], SMALL_CLASS_COUNT + i)
    {
      var size := SMALL_SIZE_LIMIT + (i + 1) * MEDIUM_GRANULARITY;
      if size > limit { assert false; break; }
      ghost var was := table[..];
      table[SMALL_CLASS_COUNT + i] := table[SMALL_CLASS_COUNT + i].(block_size := size);
      StillSetUp(was, table[..], SMALL_CLASS_COUNT + i);
      AdjustSizeClass(table, SMALL_CLASS_COUNT + i);
    }
  }

  lemma NothingSetUp(table: seq<SizeClass>)
    ensures SetUp(table, 0)
  {
  }

  lemma StillSetUp(was: seq<SizeClass>, table: seq<SizeClass>, n: nat)
    requires n <= |was| == |table| && SetUp(was, n) && forall k | 0 <= k < n :: table[k] == was[k]
    ensures SetUp(table, n)
  {
    forall k | 0 <= k < n ensures Merged(table, n, k) { assert Merged(was, n, k); }
  }

  // ----- what a request gets -----

  lemma {:induction false} SizesGrow(k: nat, j: nat)
    requires k <= j
    ensures ClassSize(k) <= ClassSize(j)
    decreases j
  {
    if k < j { SizesGrow(k, j - 1); }
  }

  /** In a completed table every entry is the entry of the class it names, which is no smaller. */
  lemma EntryOfClass(table: seq<SizeClass>, k: nat)
    requires |table| == SIZE_CLASS_COUNT && SetUp(table, SIZE_CLASS_COUNT) && k < SIZE_CLASS_COUNT
    ensures var j := table[k].class_idx; k <= j < SIZE_CLASS_COUNT && table[j] == table[k] == Entry(j) && ClassSize(k) <= ClassSize(j)
    ensures table[k].block_count == BlocksPerSpan(k)
  {
    hide BlocksPerSpan, ClassSize;
    assert Merged(table, SIZE_CLASS_COUNT, k);
    SizesGrow(k, table[k].class_idx);
  }

  /** The blocks of every class fit the span behind its header, and there are at least two. */
  lemma BlocksFitSpan(table: seq<SizeClass>, k: nat)
    requires |table| == SIZE_CLASS_COUNT && SetUp(table, SIZE_CLASS_COUNT) && k < SIZE_CLASS_COUNT
    ensures table[k].block_count >= 2 && table[k].block_count < 0x1_0000
    ensures SPAN_HEADER_SIZE + table[k].block_count * table[k].block_size <= SPAN_SIZE
    ensures SPAN_HEADER_SIZE + (table[k].block_count + 1) * table[k].block_size > SPAN_SIZE
  {
    hide SetUp, Merged, BlocksPerSpan;
    EntryOfClass(table, k);
    var j := table[k].class_idx;
    SizesGrow(0, j);
    SizesGrow(j, SIZE_CLASS_COUNT - 1);
    BlockCounts(j);
  }

  lemma BlockCounts(j: nat)
    requires 16 <= ClassSize(j) <= MEDIUM_SIZE_LIMIT
    ensures 2 <= BlocksPerSpan(j) < 0x1_0000
    ensures BlocksPerSpan(j) * ClassSize(j) <= SPAN_SIZE - SPAN_HEADER_SIZE < (BlocksPerSpan(j) + 1) * ClassSize(j)
  {
    hide ClassSize;
    Quotient(SPAN_SIZE - SPAN_HEADER_SIZE, ClassSize(j));
  }

  lemma Quotient(a: nat, d: nat)
    requires d > 0
    ensures a / d * d <= a < (a / d + 1) * d
    ensures a >= 2 * d ==> a / d >= 2
    ensures a / d <= a
  {
    var q, r := a / d, a % d;
    assert a == q * d + r;
    assert (q + 1) * d == q * d + d;
    if q == 0 { assert q * d == 0; }
    if q == 1 { assert q * d == d; }
    if q > 0 { MulAtLeast(q, d); }
  }

  lemma MulAtLeast(q: nat, d: nat)
    requires d > 0
    ensures q * d >= q
  {
  }

  datatype Tier =
    | Blocks(class_idx: nat, block_size: nat)
    | Spans(count: nat)
    | Pages(count: nat)

  function CeilDiv(a: nat, d: nat): nat
    requires d > 0
  {
    a / d + (if a % d != 0 then 1 else 0)
  }

  /** The choice of tier and class; class_idx comes from the table only for medium sizes. */
  function Allocate(table: seq<SizeClass>, page_size: nat, size: nat): Tier
    requires |table| == SIZE_CLASS_COUNT && SetUp(table, SIZE_CLASS_COUNT) && page_size > 0
  {
    if size <= SMALL_SIZE_LIMIT then
      var class_idx := (size + (SMALL_GRANULARITY - 1)) / SMALL_GRANULARITY;
      Blocks(class_idx, table[class_idx].block_size)
    else if size <= MEDIUM_SIZE_LIMIT then
      var base_idx := SMALL_CLASS_COUNT + (size - (SMALL_SIZE_LIMIT + 1)) / MEDIUM_GRANULARITY;
      EntryOfClass(table, base_idx);
      Blocks(table[base_idx].class_idx, table[table[base_idx].class_idx].block_size)
    else if size <= LARGE_SIZE_LIMIT then Spans(CeilDiv(size + SPAN_HEADER_SIZE, SPAN_SIZE))
    else Pages(CeilDiv(size + SPAN_HEADER_SIZE, page_size))
  }

  /** What can be used from the start of the block, behind the header where there is one. */
  function Usable(t: Tier, page_size: nat): int {
    match t
    case Blocks(_, block_size) => block_size
    case Spans(count) => count * SPAN_SIZE - SPAN_HEADER_SIZE
    case Pages(count) => count * page_size - SPAN_HEADER_SIZE
  }

  /** Every request gets at least what it asks for, in all four tiers. */
  lemma UsableCoversRequest(table: seq<SizeClass>, page_size: nat, size: nat)
    requires |table| == SIZE_CLASS_COUNT && SetUp(table, SIZE_CLASS_COUNT) && page_size > 0
    ensures Usable(Allocate(table, page_size, size), page_size) >= size
    ensures var t := Allocate(table, page_size, size);
      (t.Blocks? ==> t.class_idx < SIZE_CLASS_COUNT) && (t.Spans? ==> 1 <= t.count <= LARGE_CLASS_COUNT)
  {
    hide SetUp, BlocksPerSpan, Merged;
    if size <= SMALL_SIZE_LIMIT {
      EntryOfClass(table, (size + (SMALL_GRANULARITY - 1)) / SMALL_GRANULARITY);
    } else if size <= MEDIUM_SIZE_LIMIT {
      EntryOfClass(table, SMALL_CLASS_COUNT + (size - (SMALL_SIZE_LIMIT + 1)) / MEDIUM_GRANULARITY);
    } else if size > LARGE_SIZE_LIMIT {
      CeilCovers(size + SPAN_HEADER_SIZE, page_size);
    }
  }

  /**
   And no more than the tier's next smaller unit would give too little: the smallest class that covers the request, or
   the largest one with as many blocks in a span; or the least number of spans or pages.
   */
  lemma NothingSmallerCovers(table: seq<SizeClass>, page_size: nat, size: nat) returns (k: nat, j: nat)
    requires |table| == SIZE_CLASS_COUNT && SetUp(table, SIZE_CLASS_COUNT) && page_size > 0
    ensures match Allocate(table, page_size, size)
      case Blocks(c, block_size) =>
        && size <= MEDIUM_SIZE_LIMIT && k <= c <= j < SIZE_CLASS_COUNT && block_size == ClassSize(j)
        && size <= ClassSize(k) && (k >= 2 ==> ClassSize(k - 1) < size)
        && BlocksPerSpan(j) == BlocksPerSpan(k) && (j + 1 < SIZE_CLASS_COUNT ==> BlocksPerSpan(j + 1) != BlocksPerSpan(j))
      case Spans(count) =>
        && MEDIUM_SIZE_LIMIT < size <= LARGE_SIZE_LIMIT
        && (count - 1) * SPAN_SIZE < size + SPAN_HEADER_SIZE <= count * SPAN_SIZE
      case Pages(count) =>
        && LARGE_SIZE_LIMIT < size
        && (count - 1) * page_size < size + SPAN_HEADER_SIZE <= count * page_size
  {
    hide SetUp, BlocksPerSpan, Merged;
    k, j := 0, 0;
    if size <= SMALL_SIZE_LIMIT {
      k := (size + (SMALL_GRANULARITY - 1)) / SMALL_GRANULARITY;
      j := table[k].class_idx;
      LastOfRun(table, k);
    } else if size <= MEDIUM_SIZE_LIMIT {
      k := SMALL_CLASS_COUNT + (size - (SMALL_SIZE_LIMIT + 1)) / MEDIUM_GRANULARITY;
      j := table[k].class_idx;
      LastOfRun(table, k);
    } else if size <= LARGE_SIZE_LIMIT {
      CeilIsLeast(size + SPAN_HEADER_SIZE, SPAN_SIZE);
    } else {
      CeilIsLeast(size + SPAN_HEADER_SIZE, page_size);
    }
  }

  lemma LastOfRun(table: seq<SizeClass>, k: nat)
    requires |table| == SIZE_CLASS_COUNT && SetUp(table, SIZE_CLASS_COUNT) && k < SIZE_CLASS_COUNT
    ensures var c := table[k].class_idx;
      && k <= c < SIZE_CLASS_COUNT && table[k] == table[c] == Entry(c) && BlocksPerSpan(c) == BlocksPerSpan(k)
      && (c + 1 < SIZE_CLASS_COUNT ==> BlocksPerSpan(c + 1) != BlocksPerSpan(c))
  {
    hide BlocksPerSpan, ClassSize;
    assert Merged(table, SIZE_CLASS_COUNT, k);
  }

  lemma CeilIsLeast(a: nat, d: nat)
    requires d > 0 && a > 0
    ensures (CeilDiv(a, d) - 1) * d < a <= CeilDiv(a, d) * d
  {
    Quotient(a, d);
    var q := a / d;
    assert a == q * d + a % d;
    assert (q - 1) * d == q * d - d;
  }

  lemma CeilCovers(a: nat, d: nat)
    requires d > 0
    ensures CeilDiv(a, d) * d >= a
  {
    Quotient(a, d);
  }
}
