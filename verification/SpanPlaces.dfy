/**
 Where the pieces of all superspans are: in use, in a heap's cache, handed back to a heap, in a global cache, or in a
 heap's reserve. Every piece is in exactly one place.
 */
module SpanPlaces {

  import opened SuperSpans

  datatype Place =
    | InUse
    | ThreadCache(heap: nat, count: nat)
    | Deferred(heap: nat)
    | GlobalCache(count: nat)
    | Reserve(heap: nat)

  /** held is what the program's lists hold; place, the inverse, is read by no step. */
  datatype Sys = Sys(memory: Memory, held: map<Place, seq<Span>>, place: map<Span, Place>)

  /** Lists start out empty. */
  function Held(s: Sys, k: Place): seq<Span> { if k in s.held then s.held[k] else [] }

  predicate ListOk(s: Sys, k: Place) {
    var spans := Held(s, k);
    && Distinct(spans) && (k.InUse? ==> spans == []) && (k.Reserve? ==> |spans| <= 1)
    && forall i | 0 <= i < |spans| :: spans[i] in s.place && s.place[spans[i]] == k
  }

  /** A piece is where it belongs by its size, and outside the reserves its header is right. */
  predicate FitsPlace(s: Sys, p: Span, k: Place) {
    p in s.memory.pieces &&
    match k
    case InUse => Marked(s.memory, p)
    case ThreadCache(_, n) => Marked(s.memory, p) && s.memory.pieces[p] == n
    case Deferred(_) => Marked(s.memory, p) && s.memory.pieces[p] == 1
    case GlobalCache(n) => Marked(s.memory, p) && s.memory.pieces[p] == n
    case Reserve(_) => true
  }

  predicate PlaceOk(s: Sys, p: Span)
    requires p in s.place
  {
    FitsPlace(s, p, s.place[p]) && (s.place[p].InUse? || p in Held(s, s.place[p]))
  }

  ghost predicate Inv(s: Sys) {
    && MemoryOk(s.memory) && s.place.Keys == s.memory.pieces.Keys
    && (forall k: Place :: ListOk(s, k))
    && (forall p <- s.place :: PlaceOk(s, p))
  }

  /** The spans that blocks are allocated from. */
  function Used(s: Sys): set<Span> { set p | p in s.place && s.place[p].InUse? }

  lemma ListFacts(s: Sys, k: Place)
    requires Inv(s)
    ensures ListOk(s, k)
    ensures forall i | 0 <= i < |Held(s, k)| :: Held(s, k)[i] in s.place && s.place[Held(s, k)[i]] == k && FitsPlace(s, Held(s, k)[i], k)
  {
    hide MemoryOk, FitsPlace;
    forall i | 0 <= i < |Held(s, k)| ensures Held(s, k)[i] in s.place && s.place[Held(s, k)[i]] == k && FitsPlace(s, Held(s, k)[i], k) {
      assert ListOk(s, k);
      assert PlaceOk(s, Held(s, k)[i]);
    }
  }

  lemma PieceFacts(s: Sys, p: Span)
    requires Inv(s) && p in s.place
    ensures PlaceOk(s, p) && p in s.memory.pieces
  {
    hide MemoryOk, FitsPlace, ListOk;
  }

  // ----- taking from a list, putting into a list -----

  /** The first span of a list is taken into use. */
  function Pulled(s: Sys, k: Place): Sys
    requires Held(s, k) != []
  {
    s.(held := s.held[k := Held(s, k)[1..]], place := s.place[Held(s, k)[0] := InUse])
  }

  lemma PullOk(s: Sys, k: Place)
    requires Inv(s) && Held(s, k) != [] && !k.Reserve?
    ensures Inv(Pulled(s, k)) && Held(s, k)[0] !in Used(s) && Used(Pulled(s, k)) == Used(s) + {Held(s, k)[0]}
  {
    hide MemoryOk, ListOk, PlaceOk;
    ListFacts(s, k);
    var p, s' := Held(s, k)[0], Pulled(s, k);
    PullLists(s, k);
    forall q | q in s'.place ensures PlaceOk(s', q) {
      PieceFacts(s, q);
      if q == p { PulledFits(s, k); } else { StaysPlaced(s, s', q); }
    }
  }

  lemma PullLists(s: Sys, k: Place)
    requires Inv(s) && Held(s, k) != []
    ensures forall k': Place :: ListOk(Pulled(s, k), k')
    ensures Held(s, k)[0] in s.place && s.place[Held(s, k)[0]] == k && k != InUse
    ensures forall q | q in Held(s, k) && q != Held(s, k)[0] :: q in Held(Pulled(s, k), k)
  {
    hide MemoryOk, PlaceOk;
    var p, s' := Held(s, k)[0], Pulled(s, k);
    assert ListOk(s, k);
    forall k': Place ensures ListOk(s', k') {
      assert ListOk(s, k');
    }
    assert Held(s, k) == [p] + Held(s', k);
  }

  lemma PulledFits(s: Sys, k: Place)
    requires Held(s, k) != [] && FitsPlace(s, Held(s, k)[0], k) && !k.Reserve?
    ensures FitsPlace(Pulled(s, k), Held(s, k)[0], InUse) && PlaceOk(Pulled(s, k), Held(s, k)[0])
  {
    hide Marked;
  }

  /** A piece that keeps its place, its size and its header. */
  lemma StaysPlaced(s: Sys, s': Sys, q: Span)
    requires q in s.place && PlaceOk(s, q) && q in s'.place && s'.place[q] == s.place[q]
    requires q in Held(s, s.place[q]) ==> q in Held(s', s.place[q])
    requires q in s.memory.pieces ==> q in s'.memory.pieces && s'.memory.pieces[q] == s.memory.pieces[q]
    requires Marked(s.memory, q) ==> Marked(s'.memory, q)
    ensures PlaceOk(s', q)
  {
    hide Marked;
  }

  /** A span out of use goes to the front of a list. */
  function Pushed(s: Sys, k: Place, p: Span): Sys {
    s.(held := s.held[k := [p] + Held(s, k)], place := s.place[p := k])
  }

  lemma PushOk(s: Sys, k: Place, p: Span)
    requires Inv(s) && p in Used(s) && k != InUse && FitsPlace(s, p, k) && (k.Reserve? ==> Held(s, k) == [])
    ensures Inv(Pushed(s, k, p)) && Used(Pushed(s, k, p)) == Used(s) - {p}
  {
    hide MemoryOk, ListOk, PlaceOk, FitsPlace;
    var s' := Pushed(s, k, p);
    PushLists(s, k, p);
    forall q | q in s'.place ensures PlaceOk(s', q) {
      PieceFacts(s, q);
      if q == p { PushedPlace(s, k, p); } else { StaysPlaced(s, s', q); }
    }
  }

  lemma PushedPlace(s: Sys, k: Place, p: Span)
    requires FitsPlace(s, p, k)
    ensures PlaceOk(Pushed(s, k, p), p)
  {
    hide Marked;
  }

  lemma PushLists(s: Sys, k: Place, p: Span)
    requires Inv(s) && p in Used(s) && k != InUse && (k.Reserve? ==> Held(s, k) == [])
    ensures forall k': Place :: ListOk(Pushed(s, k, p), k')
  {
    hide MemoryOk, PlaceOk;
    var s' := Pushed(s, k, p);
    forall k': Place ensures ListOk(s', k') {
      assert ListOk(s, k');
    }
  }

  // ----- moving a whole list -----

  /** The first n spans of list k go, as they are, to the front of list k'. */
  function Shifted(s: Sys, k: Place, n: nat, k': Place): Sys
    requires n <= |Held(s, k)|
  {
    var moved := Held(s, k)[..n];
    Sys(s.memory, s.held[k := Held(s, k)[n..]][k' := moved + Held(s, k')],
        map p | p in s.place :: if p in moved then k' else s.place[p])
  }

  lemma ShiftOk(s: Sys, k: Place, n: nat, k': Place)
    requires Inv(s) && n <= |Held(s, k)| && k != k' && !k'.InUse? && !k'.Reserve?
    requires forall i | 0 <= i < n :: FitsPlace(s, Held(s, k)[i], k')
    ensures Inv(Shifted(s, k, n, k')) && Used(Shifted(s, k, n, k')) == Used(s)
  {
    hide MemoryOk, ListOk, PlaceOk, FitsPlace;
    var s', moved := Shifted(s, k, n, k'), Held(s, k)[..n];
    ShiftLists(s, k, n, k');
    ListFacts(s, k);
    forall q | q in s'.place ensures PlaceOk(s', q) {
      PieceFacts(s, q);
      if q in moved {
        var i :| 0 <= i < n && Held(s, k)[i] == q;
        ShiftedPlace(s, k, n, k', i);
      } else {
        ShiftStays(s, k, n, k', q);
        StaysPlaced(s, s', q);
      }
    }
  }

  lemma ShiftedPlace(s: Sys, k: Place, n: nat, k': Place, i: nat)
    requires n <= |Held(s, k)| && i < n && Held(s, k)[i] in s.place && FitsPlace(s, Held(s, k)[i], k')
    ensures PlaceOk(Shifted(s, k, n, k'), Held(s, k)[i])
  {
    hide Marked;
    assert Held(s, k)[..n][i] == Held(s, k)[i];
  }

  lemma ShiftStays(s: Sys, k: Place, n: nat, k': Place, q: Span)
    requires n <= |Held(s, k)| && q !in Held(s, k)[..n] && q in s.place && k != k'
    ensures q in Held(s, s.place[q]) ==> q in Held(Shifted(s, k, n, k'), s.place[q])
  {
    assert Held(s, k) == Held(s, k)[..n] + Held(s, k)[n..];
  }

  lemma ShiftLists(s: Sys, k: Place, n: nat, k': Place)
    requires Inv(s) && n <= |Held(s, k)| && k != k' && !k'.InUse? && !k'.Reserve?
    ensures forall l: Place :: ListOk(Shifted(s, k, n, k'), l)
    ensures forall i | 0 <= i < n :: Held(s, k)[i] in s.place && s.place[Held(s, k)[i]] == k && k != InUse
  {
    hide MemoryOk, PlaceOk;
    var s', moved := Shifted(s, k, n, k'), Held(s, k)[..n];
    ListFacts(s, k);
    ListFacts(s, k');
    forall l: Place ensures ListOk(s', l) {
      assert ListOk(s, l);
      if l == k {
        ShiftSource(s, k, n, k');
      } else if l == k' {
        ShiftTarget(s, k, n, k');
      }
    }
  }

  lemma ShiftSource(s: Sys, k: Place, n: nat, k': Place)
    requires ListOk(s, k) && n <= |Held(s, k)| && k != k'
    ensures ListOk(Shifted(s, k, n, k'), k)
  {
  }

  lemma ShiftTarget(s: Sys, k: Place, n: nat, k': Place)
    requires ListOk(s, k) && ListOk(s, k') && n <= |Held(s, k)| && k != k' && !k'.InUse? && !k'.Reserve?
    ensures ListOk(Shifted(s, k, n, k'), k')
  {
    var moved, spans := Held(s, k)[..n], Held(s, k)[..n] + Held(s, k');
    assert forall i | 0 <= i < n :: moved[i] in s.place && s.place[moved[i]] == k;
    forall i | 0 <= i < |spans|
      ensures spans[i] in s.place && Shifted(s, k, n, k').place[spans[i]] == k' {
      if i < n { assert spans[i] == moved[i]; }
    }
  }

  // ----- mapping, cutting the reserve, unmapping -----

  /** A new region: its first n spans are in use, the rest is the heap's reserve. */
  function MappedNew(s: Sys, heap: nat, r: Region, total: nat, n: nat): Sys
    requires 0 < n <= total
  {
    var place := s.place[Span(r, 0) := InUse];
    Sys(Mapped(s.memory, r, total, n),
        if n < total then s.held[Reserve(heap) := [Span(r, n)]] else s.held,
        if n < total then place[Span(r, n) := Reserve(heap)] else place)
  }

  lemma MapNewOk(s: Sys, heap: nat, r: Region, total: nat, n: nat)
    requires Inv(s) && r !in s.memory.total && 0 < n <= total && (n < total ==> Held(s, Reserve(heap)) == [])
    ensures Inv(MappedNew(s, heap, r, total, n)) && Span(r, 0) !in Used(s)
    ensures Used(MappedNew(s, heap, r, total, n)) == Used(s) + {Span(r, 0)}
  {
    hide MemoryOk, ListOk, PlaceOk, FitsPlace, Marked;
    var s' := MappedNew(s, heap, r, total, n);
    MapOk(s.memory, r, total, n);
    NoPieceYet(s, r);
    MapLists(s, heap, r, total, n);
    forall q | q in s'.place ensures PlaceOk(s', q) {
      if q in s.place {
        PieceFacts(s, q);
        StaysPlaced(s, s', q);
      } else {
        MappedPlace(s, heap, r, total, n, q);
      }
    }
  }

  lemma NoPieceYet(s: Sys, r: Region)
    requires Inv(s) && r !in s.memory.total
    ensures forall q <- s.place :: q.region != r
  {
    hide ListOk, PlaceOk;
    RegionOfPiece(s.memory);
  }

  lemma MappedPlace(s: Sys, heap: nat, r: Region, total: nat, n: nat, q: Span)
    requires 0 < n <= total && Marked(Mapped(s.memory, r, total, n), Span(r, 0))
    requires q == Span(r, 0) || (n < total && q == Span(r, n))
    ensures PlaceOk(MappedNew(s, heap, r, total, n), q)
  {
    hide Marked;
  }

  lemma MapLists(s: Sys, heap: nat, r: Region, total: nat, n: nat)
    requires Inv(s) && 0 < n <= total && (forall q <- s.place :: q.region != r) && (n < total ==> Held(s, Reserve(heap)) == [])
    ensures forall k: Place :: ListOk(MappedNew(s, heap, r, total, n), k)
  {
    hide MemoryOk, PlaceOk;
    var s' := MappedNew(s, heap, r, total, n);
    forall k: Place ensures ListOk(s', k) { assert ListOk(s, k); }
  }

  /** The first n spans of the reserve are marked and taken into use. */
  function CutReserve(s: Sys, heap: nat, n: nat): Sys
    requires Held(s, Reserve(heap)) != [] && Held(s, Reserve(heap))[0] in s.memory.pieces
    requires 0 < n <= s.memory.pieces[Held(s, Reserve(heap))[0]]
  {
    var p := Held(s, Reserve(heap))[0];
    var rest := Span(p.region, p.start + n);
    var place := s.place[p := InUse];
    if n < s.memory.pieces[p]
    then Sys(Cut(s.memory, p, n), s.held[Reserve(heap) := [rest]], place[rest := Reserve(heap)])
    else Sys(Cut(s.memory, p, n), s.held[Reserve(heap) := []], place)
  }

  lemma ReserveFacts(s: Sys, heap: nat)
    requires Inv(s) && Held(s, Reserve(heap)) != []
    ensures var p := Held(s, Reserve(heap))[0];
      && Held(s, Reserve(heap)) == [p] && p in s.place && s.place[p] == Reserve(heap) && p in s.memory.pieces
      && s.memory.pieces[p] > 0 && p.region in s.memory.total
  {
    hide PlaceOk, FitsPlace;
    assert ListOk(s, Reserve(heap));
    PieceFacts(s, Held(s, Reserve(heap))[0]);
    RegionOfPiece(s.memory);
  }

  lemma CutReserveOk(s: Sys, heap: nat, n: nat)
    requires Inv(s) && Held(s, Reserve(heap)) != [] && Held(s, Reserve(heap))[0] in s.memory.pieces
    requires 0 < n <= s.memory.pieces[Held(s, Reserve(heap))[0]]
    ensures Inv(CutReserve(s, heap, n)) && Held(s, Reserve(heap))[0] !in Used(s)
    ensures Used(CutReserve(s, heap, n)) == Used(s) + {Held(s, Reserve(heap))[0]}
  {
    hide MemoryOk, ListOk, PlaceOk, FitsPlace, Marked;
    ReserveFacts(s, heap);
    var p, s' := Held(s, Reserve(heap))[0], CutReserve(s, heap, n);
    var rest := Span(p.region, p.start + n);
    CutOk(s.memory, p, n);
    CutLists(s, heap, n);
    forall q | q in s'.place ensures PlaceOk(s', q) {
      if q == p || (q == rest && n < s.memory.pieces[p]) {
        CutPlace(s, heap, n, q);
      } else {
        PieceFacts(s, q);
        CutStays(s, heap, q);
        StaysPlaced(s, s', q);
      }
    }
  }

  lemma CutStays(s: Sys, heap: nat, q: Span)
    requires Inv(s) && Held(s, Reserve(heap)) != [] && q in s.place && q != Held(s, Reserve(heap))[0]
    ensures s.place[q] != Reserve(heap)
  {
    hide MemoryOk, FitsPlace;
    PieceFacts(s, q);
    assert ListOk(s, Reserve(heap));
  }

  lemma CutPlace(s: Sys, heap: nat, n: nat, q: Span)
    requires Held(s, Reserve(heap)) != [] && Held(s, Reserve(heap))[0] in s.memory.pieces
    requires 0 < n <= s.memory.pieces[Held(s, Reserve(heap))[0]]
    requires var p := Held(s, Reserve(heap))[0];
      && Marked(Cut(s.memory, p, n), p)
      && (q == p || (n < s.memory.pieces[p] && q == Span(p.region, p.start + n)))
    ensures q in CutReserve(s, heap, n).place && PlaceOk(CutReserve(s, heap, n), q)
  {
    hide Marked;
  }

  lemma CutLists(s: Sys, heap: nat, n: nat)
    requires Inv(s) && Held(s, Reserve(heap)) != [] && Held(s, Reserve(heap))[0] in s.memory.pieces
    requires 0 < n <= s.memory.pieces[Held(s, Reserve(heap))[0]]
    requires n < s.memory.pieces[Held(s, Reserve(heap))[0]] ==>
      Span(Held(s, Reserve(heap))[0].region, Held(s, Reserve(heap))[0].start + n) !in s.place
    ensures forall k: Place :: ListOk(CutReserve(s, heap, n), k)
  {
    hide MemoryOk, PlaceOk;
    var s' := CutReserve(s, heap, n);
    ListFacts(s, Reserve(heap));
    forall k: Place ensures ListOk(s', k) { assert ListOk(s, k); }
  }

  /** A span out of use is unmapped. */
  function UnmappedOne(s: Sys, p: Span): Sys
    requires p in s.memory.pieces && p.region in s.memory.remaining && p in s.memory.header
  {
    s.(memory := Unmapped(s.memory, p), place := s.place - {p})
  }

  lemma UnmapOneOk(s: Sys, p: Span)
    requires Inv(s) && p in Used(s)
    ensures p in s.memory.pieces && p.region in s.memory.remaining && p in s.memory.header && Marked(s.memory, p)
    ensures Inv(UnmappedOne(s, p)) && Used(UnmappedOne(s, p)) == Used(s) - {p}
  {
    hide MemoryOk, ListOk, PlaceOk, FitsPlace, Marked;
    UsedMarked(s, p);
    UnmapOk(s.memory, p);
    UnmapLists(s, p);
    var s' := UnmappedOne(s, p);
    forall q | q in s'.place ensures PlaceOk(s', q) {
      PieceFacts(s, q);
      StaysPlaced(s, s', q);
    }
  }

  lemma UsedMarked(s: Sys, p: Span)
    requires Inv(s) && p in Used(s)
    ensures Marked(s.memory, p) && p in s.memory.pieces && p in s.memory.header
  {
    hide MemoryOk, ListOk;
    PieceFacts(s, p);
  }

  lemma UnmapLists(s: Sys, p: Span)
    requires Inv(s) && p in Used(s) && p in s.memory.pieces && p.region in s.memory.remaining && p in s.memory.header
    ensures forall k: Place :: ListOk(UnmappedOne(s, p), k)
  {
    hide MemoryOk, PlaceOk;
    forall k: Place ensures ListOk(UnmappedOne(s, p), k) { assert ListOk(s, k); }
  }

  // ----- the end -----

  lemma UsedIfUnlisted(s: Sys)
    requires Inv(s) && forall k: Place :: Held(s, k) == []
    ensures forall p <- s.place :: p in Used(s)
  {
    hide FitsPlace;
    forall p | p in s.place ensures p in Used(s) { PieceFacts(s, p); }
  }

  lemma RegionHasPiece(m: Memory, r: Region)
    requires MemoryOk(m) && r in m.total
    ensures m.pieces != map[]
  {
    assert RegionOk(m, r);
    var i :| i in Covered(m.pieces, r);
    var p := Coverer(m.pieces, r, i);
  }

  lemma RegionsHavePieces(m: Memory)
    requires MemoryOk(m)
    ensures m.pieces == map[] ==> m.total == map[]
  {
    forall r | r in m.total ensures m.pieces != map[] { RegionHasPiece(m, r); }
  }

  /** When nothing is in use and every list is empty, every region has been released. */
  lemma AllReleased(s: Sys)
    requires Inv(s) && Used(s) == {} && forall k: Place :: Held(s, k) == []
    ensures s.place == map[] && s.memory.total == map[]
  {
    UsedIfUnlisted(s);
    RegionsHavePieces(s.memory);
    assert s.place == map[] && s.memory.pieces.Keys == {};
  }
}
