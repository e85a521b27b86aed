/**
 Superspans: regions of memory mapped in one call and cut into spans. The master span's header counts how many spans of
 the region are not unmapped yet.
 */
module SuperSpans {

  type Region = nat

  /** A span is addressed by its region and its distance, in spans, from the region's start. */
  datatype Span = Span(region: Region, start: nat)

  predicate Distinct(spans: seq<Span>) { forall i, j | 0 <= i < j < |spans| :: spans[i] != spans[j] }

  /** The flags and counters of a span's header. Both flags together mark a master that has been unmapped. */
  datatype Header = Header(master: bool, subspan: bool, total_spans_or_distance: nat, span_count: nat)

  /** pieces gives the size of every piece that a region is cut into and that is not unmapped. */
  datatype Memory = Memory(pieces: map<Span, nat>, total: map<Region, nat>, remaining: map<Region, int>, header: map<Span, Header>)

  function Interval(from: nat, n: nat): (r: set<nat>)
    ensures forall i :: i in r <==> from <= i < from + n
    ensures |r| == n
  {
    if n == 0 then {} else Interval(from, n - 1) + {from + n - 1}
  }

  /** The spans of a region that its pieces cover. */
  function Covered(pieces: map<Span, nat>, r: Region): set<nat> {
    set p, i | p in pieces && p.region == r && i in Interval(p.start, pieces[p]) :: i
  }

  predicate Apart(p: Span, n: nat, q: Span, m: nat) {
    p.region != q.region || p.start + n <= q.start || q.start + m <= p.start
  }

  predicate PiecesOk(m: Memory) {
    && (forall p <- m.pieces :: p.region in m.total && m.pieces[p] > 0 && p.start + m.pieces[p] <= m.total[p.region])
    && (forall p <- m.pieces, q <- m.pieces | p != q :: Apart(p, m.pieces[p], q, m.pieces[q]))
  }

  /** The count is what is left; the master's header stays until the end and says whether the master itself is left. */
  predicate RegionOk(m: Memory, r: Region)
    requires r in m.total
  {
    var master := Span(r, 0);
    && r in m.remaining && m.remaining[r] == |Covered(m.pieces, r)| > 0
    && master in m.header && m.header[master].master && m.header[master].total_spans_or_distance == m.total[r]
    && (m.header[master].subspan <==> master !in m.pieces)
  }

  predicate MemoryOk(m: Memory) {
    && PiecesOk(m) && m.remaining.Keys == m.total.Keys && forall r <- m.total :: RegionOk(m, r)
  }

  /** The header of a piece that is out of the reserve. */
  predicate Marked(m: Memory, p: Span) {
    && p in m.pieces && p in m.header && m.header[p].span_count == m.pieces[p]
    && (if p.start == 0 then m.header[p].master && !m.header[p].subspan
        else m.header[p].subspan && !m.header[p].master && m.header[p].total_spans_or_distance == p.start)
  }

  // ----- mapping a region -----

  /** A new region: the span asked for in front, the rest as one piece behind it. */
  function Mapped(m: Memory, r: Region, total: nat, n: nat): Memory
    requires 0 < n <= total
  {
    var pieces := m.pieces[Span(r, 0) := n];
    Memory(if n < total then pieces[Span(r, n) := total - n] else pieces,
           m.total[r := total], m.remaining[r := total], m.header[Span(r, 0) := Header(true, false, total, n)])
  }

  lemma MapOk(m: Memory, r: Region, total: nat, n: nat)
    requires MemoryOk(m) && r !in m.total && 0 < n <= total
    ensures MemoryOk(Mapped(m, r, total, n)) && Marked(Mapped(m, r, total, n), Span(r, 0))
    ensures forall p | Marked(m, p) :: Marked(Mapped(m, r, total, n), p)
  {
    hide Covered, PiecesOk, RegionOk, Marked;
    var m' := Mapped(m, r, total, n);
    RegionOfPiece(m);
    MapPieces(m, r, total, n);
    MapCovers(m, r, total, n);
    NewRegion(m', r, total);
    forall p | Marked(m, p) ensures Marked(m', p) {
      MarkedIsPiece(m, p);
      MarkKept(m, m', p);
    }
    forall r' | r' in m'.total ensures RegionOk(m', r') {
      if r' != r { OtherRegion(m, m', r'); }
    }
  }

  lemma MarkKept(m: Memory, m': Memory, p: Span)
    requires Marked(m, p) && (p in m.pieces ==> p in m'.pieces && m'.pieces[p] == m.pieces[p])
    requires p in m.header ==> p in m'.header && m'.header[p] == m.header[p]
    ensures Marked(m', p)
  {
  }

  lemma MarkedIsPiece(m: Memory, p: Span)
    requires Marked(m, p)
    ensures p in m.pieces && p in m.header
  {
  }

  lemma RegionOfPiece(m: Memory)
    requires PiecesOk(m)
    ensures forall p <- m.pieces :: p.region in m.total && m.pieces[p] > 0 && p.start + m.pieces[p] <= m.total[p.region]
  {
  }

  lemma MapPieces(m: Memory, r: Region, total: nat, n: nat)
    requires PiecesOk(m) && r !in m.total && 0 < n <= total
    ensures PiecesOk(Mapped(m, r, total, n))
  {
    var m' := Mapped(m, r, total, n);
    RegionOfPiece(m);
    forall a, b | a in m'.pieces && b in m'.pieces && a != b ensures Apart(a, m'.pieces[a], b, m'.pieces[b]) {
      if a in m.pieces && b in m.pieces { PairApart(m, a, b); }
    }
  }

  lemma NewRegion(m: Memory, r: Region, total: nat)
    requires r in m.total && m.total[r] == total > 0 && Span(r, 0) in m.pieces && r in m.remaining && m.remaining[r] == total
    requires Covered(m.pieces, r) == Interval(0, total)
    requires Span(r, 0) in m.header && m.header[Span(r, 0)].master && !m.header[Span(r, 0)].subspan
    requires m.header[Span(r, 0)].total_spans_or_distance == total
    ensures RegionOk(m, r)
    ensures m.pieces[Span(r, 0)] == m.header[Span(r, 0)].span_count ==> Marked(m, Span(r, 0))
  {
  }

  lemma MapCovers(m: Memory, r: Region, total: nat, n: nat)
    requires PiecesOk(m) && r !in m.total && 0 < n <= total
    ensures Covered(Mapped(m, r, total, n).pieces, r) == Interval(0, total)
  {
    hide PiecesOk;
    RegionOfPiece(m);
    var pieces := Mapped(m, r, total, n).pieces;
    forall i: nat ensures i in Covered(pieces, r) <==> i in Interval(0, total) {
      if i < n {
        CoveredBy(pieces, Span(r, 0), i);
      } else if i < total {
        CoveredBy(pieces, Span(r, n), i);
      } else if i in Covered(pieces, r) {
        var p := Coverer(pieces, r, i);
      }
    }
  }

  lemma CoveredBy(pieces: map<Span, nat>, p: Span, i: nat)
    requires p in pieces && p.start <= i < p.start + pieces[p]
    ensures i in Covered(pieces, p.region)
  {
    assert i in Interval(p.start, pieces[p]);
  }

  lemma Coverer(pieces: map<Span, nat>, r: Region, i: nat) returns (p: Span)
    requires i in Covered(pieces, r)
    ensures p in pieces && p.region == r && p.start <= i < p.start + pieces[p]
  {
    p :| p in pieces && p.region == r && i in Interval(p.start, pieces[p]);
  }

  lemma OtherRegion(m: Memory, m': Memory, r: Region)
    requires r in m.total && RegionOk(m, r) && r in m'.total && m'.total[r] == m.total[r]
    requires r in m'.remaining && m'.remaining[r] == m.remaining[r]
    requires Span(r, 0) in m.header ==> Span(r, 0) in m'.header && m'.header[Span(r, 0)] == m.header[Span(r, 0)]
    requires forall p: Span | p.region == r :: (p in m'.pieces <==> p in m.pieces) && (p in m.pieces ==> m'.pieces[p] == m.pieces[p])
    ensures RegionOk(m', r)
  {
    assert Covered(m'.pieces, r) == Covered(m.pieces, r);
  }

  // ----- cutting a piece -----

  /** The first n spans of a piece become a piece of their own, with a header; the rest stays behind them. */
  function Cut(m: Memory, p: Span, n: nat): Memory
    requires p in m.pieces && 0 < n <= m.pieces[p]
  {
    var pieces := m.pieces[p := n];
    m.(pieces := if n < m.pieces[p] then pieces[Span(p.region, p.start + n) := m.pieces[p] - n] else pieces,
       header := m.header[p := MarkedHeader(m, p, n)])
  }

  /** Marks a span as subspan unless it is the master. */
  function MarkedHeader(m: Memory, p: Span, n: nat): Header {
    if p.start != 0 then Header(false, true, p.start, n)
    else if p in m.header then m.header[p].(span_count := n) else Header(true, false, n, n)
  }

  lemma CutOk(m: Memory, p: Span, n: nat)
    requires MemoryOk(m) && p in m.pieces && 0 < n <= m.pieces[p]
    ensures MemoryOk(Cut(m, p, n)) && Marked(Cut(m, p, n), p)
    ensures forall q | q != p && Marked(m, q) :: Marked(Cut(m, p, n), q)
    ensures n < m.pieces[p] ==> Span(p.region, p.start + n) !in m.pieces
  {
    hide Covered, PiecesOk, RegionOk, Marked;
    var m' := Cut(m, p, n);
    RegionOfPiece(m);
    CutPieces(m, p, n);
    CutCovers(m, p, n);
    CutRegion(m, p, n);
    forall q | q != p && Marked(m, q) ensures Marked(m', q) {
      MarkedIsPiece(m, q);
      MarkKept(m, m', q);
    }
    forall r | r in m'.total ensures RegionOk(m', r) {
      if r != p.region { OtherRegion(m, m', r); }
    }
  }

  lemma CutPieces(m: Memory, p: Span, n: nat)
    requires PiecesOk(m) && p in m.pieces && 0 < n <= m.pieces[p]
    ensures PiecesOk(Cut(m, p, n)) && (n < m.pieces[p] ==> Span(p.region, p.start + n) !in m.pieces)
  {
    var m', rest := Cut(m, p, n), Span(p.region, p.start + n);
    if rest in m.pieces { assert Apart(p, m.pieces[p], rest, m.pieces[rest]); }
    forall a, b | a in m'.pieces && b in m'.pieces && a != b ensures Apart(a, m'.pieces[a], b, m'.pieces[b]) {
      CutApart(m, p, n, a, b);
    }
  }

  /** Both parts of the cut piece lie in it, one behind the other. */
  lemma CutApart(m: Memory, p: Span, n: nat, a: Span, b: Span)
    requires PiecesOk(m) && p in m.pieces && 0 < n <= m.pieces[p]
    requires a in Cut(m, p, n).pieces && b in Cut(m, p, n).pieces && a != b
    requires n < m.pieces[p] ==> Span(p.region, p.start + n) !in m.pieces
    ensures Apart(a, Cut(m, p, n).pieces[a], b, Cut(m, p, n).pieces[b])
  {
    var rest := Span(p.region, p.start + n);
    var c, d := if a == rest && n < m.pieces[p] then p else a, if b == rest && n < m.pieces[p] then p else b;
    hide PiecesOk;
    PairApart(m, c, d);
  }

  lemma PairApart(m: Memory, c: Span, d: Span)
    requires PiecesOk(m) && c in m.pieces && d in m.pieces
    ensures c != d ==> Apart(c, m.pieces[c], d, m.pieces[d])
  {
  }

  lemma CutRegion(m: Memory, p: Span, n: nat)
    requires p in m.pieces && 0 < n <= m.pieces[p] && p.region in m.total && RegionOk(m, p.region)
    requires Covered(Cut(m, p, n).pieces, p.region) == Covered(m.pieces, p.region)
    requires n < m.pieces[p] ==> Span(p.region, p.start + n) !in m.pieces
    ensures RegionOk(Cut(m, p, n), p.region) && Marked(Cut(m, p, n), p)
  {
    hide Covered;
  }

  lemma CutCovers(m: Memory, p: Span, n: nat)
    requires PiecesOk(m) && p in m.pieces && 0 < n <= m.pieces[p]
    ensures Covered(Cut(m, p, n).pieces, p.region) == Covered(m.pieces, p.region)
  {
    hide PiecesOk, Covered;
    CutPieces(m, p, n);
    var pieces, pieces', r, rest := m.pieces, Cut(m, p, n).pieces, p.region, Span(p.region, p.start + n);
    forall i: nat ensures i in Covered(pieces', r) <==> i in Covered(pieces, r) {
      if i in Covered(pieces, r) {
        var q := Coverer(pieces, r, i);
        CoveredBy(pieces', if q != p then q else if i < p.start + n then p else rest, i);
      }
      if i in Covered(pieces', r) {
        var q := Coverer(pieces', r, i);
        CoveredBy(pieces, if q == rest && n < pieces[p] then p else q, i);
      }
    }
  }

  // ----- unmapping a piece -----

  /** The sizes of a region's pieces, added up. */
  ghost function Total(pieces: map<Span, nat>, r: Region): nat
    decreases |pieces|
  {
    if exists p :: p in pieces && p.region == r then
      var p :| p in pieces && p.region == r;
      pieces[p] + Total(pieces - {p}, r)
    else 0
  }

  lemma {:induction false} TotalCovered(m: Memory, r: Region)
    requires PiecesOk(m)
    ensures Total(m.pieces, r) == |Covered(m.pieces, r)|
    decreases |m.pieces|
  {
    hide Covered;
    if exists p :: p in m.pieces && p.region == r {
      var p :| p in m.pieces && p.region == r && Total(m.pieces, r) == m.pieces[p] + Total(m.pieces - {p}, r);
      PiecesLess(m, p);
      UnmapCovers(m, p);
      TotalCovered(m.(pieces := m.pieces - {p}), r);
    } else {
      NothingCovered(m.pieces, r);
    }
  }

  lemma NothingCovered(pieces: map<Span, nat>, r: Region)
    requires forall p <- pieces :: p.region != r
    ensures Covered(pieces, r) == {}
  {
  }

  /** The master's count is the total size of the region's pieces that are not unmapped, whatever list they are in. */
  lemma RemainingIsTotal(m: Memory, r: Region)
    requires MemoryOk(m) && r in m.total
    ensures r in m.remaining && m.remaining[r] == Total(m.pieces, r) > 0
  {
    hide Covered, PiecesOk;
    assert RegionOk(m, r);
    TotalCovered(m, r);
  }

  /** Where the program finds the master's header of a span. */
  function MasterOf(m: Memory, p: Span): Span
    requires p in m.header
  {
    if m.header[p].master then p else Span(p.region, if m.header[p].total_spans_or_distance <= p.start then p.start - m.header[p].total_spans_or_distance else 0)
  }

  /** A span is unmapped; when nothing remains the whole region is released through its master. */
  function Unmapped(m: Memory, p: Span): Memory
    requires p in m.pieces && p.region in m.remaining && p in m.header
  {
    var left := m.remaining[p.region] - m.header[p].span_count;
    var header := if m.header[p].master then m.header[p := m.header[p].(subspan := true)] else m.header;
    if left <= 0 then Memory(m.pieces - {p}, m.total - {p.region}, m.remaining - {p.region}, header)
    else Memory(m.pieces - {p}, m.total, m.remaining[p.region := left], header)
  }

  lemma UnmapCovers(m: Memory, p: Span)
    requires PiecesOk(m) && p in m.pieces
    ensures Covered(m.pieces - {p}, p.region) == Covered(m.pieces, p.region) - Interval(p.start, m.pieces[p])
    ensures Interval(p.start, m.pieces[p]) <= Covered(m.pieces, p.region)
    ensures |Covered(m.pieces - {p}, p.region)| == |Covered(m.pieces, p.region)| - m.pieces[p]
  {
    hide Covered;
    var pieces, pieces', r, gone := m.pieces, m.pieces - {p}, p.region, Interval(p.start, m.pieces[p]);
    forall i: nat ensures i in Covered(pieces', r) <==> i in Covered(pieces, r) && i !in gone {
      if i in Covered(pieces, r) && i !in gone {
        var q := Coverer(pieces, r, i);
        CoveredBy(pieces', q, i);
      }
      if i in Covered(pieces', r) {
        var q := Coverer(pieces', r, i);
        CoveredBy(pieces, q, i);
        assert Apart(p, pieces[p], q, pieces[q]);
      }
    }
    forall i: nat | i in gone ensures i in Covered(pieces, r) { CoveredBy(pieces, p, i); }
    assert Covered(pieces', r) == Covered(pieces, r) - gone;
  }

  /** A region with nothing covered has no piece left. */
  lemma NothingLeft(m: Memory, r: Region)
    requires PiecesOk(m) && Covered(m.pieces, r) == {}
    ensures forall q <- m.pieces :: q.region != r
  {
    forall q | q in m.pieces ensures q.region != r {
      if q.region == r { CoveredBy(m.pieces, q, q.start); }
    }
  }

  /** The master is found, the count stays right, and a region goes exactly when its last piece does, its master unmapped before. */
  lemma UnmapOk(m: Memory, p: Span)
    requires MemoryOk(m) && Marked(m, p)
    ensures p.region in m.remaining && MasterOf(m, p) == Span(p.region, 0) && MasterOf(m, p) in m.header && m.header[MasterOf(m, p)].master
    ensures MemoryOk(Unmapped(m, p))
    ensures forall q | q != p && Marked(m, q) :: Marked(Unmapped(m, p), q)
    ensures p.region !in Unmapped(m, p).total <==> forall q <- m.pieces | q != p :: q.region != p.region
    ensures p.region !in Unmapped(m, p).total ==>
      Span(p.region, 0) in Unmapped(m, p).header && Unmapped(m, p).header[Span(p.region, 0)] == m.header[Span(p.region, 0)].(subspan := true)
  {
    hide Covered, PiecesOk, RegionOk;
    RegionOfPiece(m);
    assert RegionOk(m, p.region);
    MasterFound(m, p);
    UnmapCovers(m, p);
    var m', r := Unmapped(m, p), p.region;
    UnmapPieces(m, p);
    UnmapRegion(m, p);
    forall q | q != p && Marked(m, q) ensures Marked(m', q) { MarkKept(m, m', q); }
    forall r' | r' in m'.total ensures RegionOk(m', r') {
      if r' != r { OtherRegion(m, m', r'); }
    }
  }

  lemma MasterFound(m: Memory, p: Span)
    requires p.region in m.total && RegionOk(m, p.region) && Marked(m, p)
    ensures MasterOf(m, p) == Span(p.region, 0) && MasterOf(m, p) in m.header && m.header[MasterOf(m, p)].master
    ensures p.region in m.remaining
  {
    hide Covered;
  }

  lemma UnmapPieces(m: Memory, p: Span)
    requires MemoryOk(m) && Marked(m, p) && p.region in m.remaining
    ensures PiecesOk(Unmapped(m, p))
    ensures p.region !in Unmapped(m, p).total <==> forall q <- m.pieces | q != p :: q.region != p.region
  {
    hide Covered, RegionOk;
    UnmapLeft(m, p);
    if p.region !in Unmapped(m, p).total {
      PiecesLess(m, p);
      NothingLeft(m.(pieces := m.pieces - {p}), p.region);
    }
  }

  lemma PiecesLess(m: Memory, p: Span)
    requires PiecesOk(m)
    ensures PiecesOk(m.(pieces := m.pieces - {p}))
  {
  }

  lemma UnmapLeft(m: Memory, p: Span)
    requires MemoryOk(m) && Marked(m, p)
    ensures p.region in m.total && p.region in m.remaining
    ensures m.remaining[p.region] - m.header[p].span_count == |Covered(m.pieces - {p}, p.region)|
    ensures Covered(m.pieces - {p}, p.region) == {} <==> forall q <- m.pieces | q != p :: q.region != p.region
  {
    hide Covered;
    assert RegionOk(m, p.region);
    UnmapCovers(m, p);
    PiecesLess(m, p);
    var m' := m.(pieces := m.pieces - {p});
    if Covered(m'.pieces, p.region) == {} {
      NothingLeft(m', p.region);
    } else {
      var i :| i in Covered(m'.pieces, p.region);
      var q := Coverer(m'.pieces, p.region, i);
    }
  }

  lemma UnmapRegion(m: Memory, p: Span)
    requires MemoryOk(m) && Marked(m, p) && p.region in m.remaining
    ensures p.region in Unmapped(m, p).total ==> RegionOk(Unmapped(m, p), p.region)
    ensures p.region !in Unmapped(m, p).total ==>
      Span(p.region, 0) in Unmapped(m, p).header && Unmapped(m, p).header[Span(p.region, 0)] == m.header[Span(p.region, 0)].(subspan := true)
  {
    hide Covered, PiecesOk;
    UnmapLeft(m, p);
    assert RegionOk(m, p.region);
  }
}
