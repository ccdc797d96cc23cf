/** Steps that change what is mapped, or that overwrite whole ranges: heap
    growth, mmap and munmap, lazy bin initialisation, page reclaim and the
    client's own stores. */
module Growth {
  import opened Sizes
  import opened Heap
  import opened FreeList
  import opened Layout
  import opened Steps
  import opened Invariant

  // ---- lock_bin ----

  lemma {:induction false} LockBins(m: Memory, mal: int, arena: set<int>, ls: seq<seq<int>>, i: nat)
    requires Nodes(mal, arena, ls) && Regions(m, mal, arena) && BinsLinked(m, mal, ls)
    requires i < 64 && m[Sentinel(mal, i) + NEXT] == 0
    requires Sentinel(mal, i) > 0 && ls[i] == []
    ensures var s := Sentinel(mal, i);
            var m' := m[s + NEXT := s][s + PREV := s];
            BinsLinked(m', mal, ls) && Linked(m', s, ls[i])
  {
    var s := Sentinel(mal, i);
    var m1 := m[s + NEXT := s];
    var m' := m1[s + PREV := s];
    assert s + NEXT in m && s + PREV in m;
    assert Link(m', s, [], 0);
    forall j | 0 <= j < 64 ensures BinReady(m', Sentinel(mal, j), ls[j]) {
      if j != i {
        NodeOffBin(mal, arena, ls, i, j, s);
        OffBinStore(m, Sentinel(mal, j), ls[j], s + NEXT, s);
        OffBinStore(m1, Sentinel(mal, j), ls[j], s + PREV, s);
      }
    }
  }

  lemma {:induction false} HeadNonzero(m: Memory, s: int, L: seq<int>)
    requires BinReady(m, s, L) && s > 0 && (forall k :: 0 <= k < |L| ==> L[k] > 0)
    ensures m[s + NEXT] == 0 ==> L == []
    ensures m[s + NEXT] != 0 ==> Linked(m, s, L)
  {
    if Linked(m, s, L) { Head(m, s, L); }
  }

  lemma {:induction false} ListPositive(h: Chunks, ls: seq<seq<int>>, skip: int, i: nat)
    requires Shaped(h) && Binned(h, ls, skip) && i < 64
    ensures forall k :: 0 <= k < |ls[i]| ==> ls[i][k] > 0
  {
    forall k | 0 <= k < |ls[i]| ensures ls[i][k] > 0 {
      assert OnList(h, i, ls[i][k], skip);
    }
  }

  lemma {:induction false} BinHeadMapped(m: Memory, mal: int, ls: seq<seq<int>>, i: nat)
    requires BinsLinked(m, mal, ls) && i < 64
    ensures BinReady(m, Sentinel(mal, i), ls[i])
  {
  }

  lemma {:induction false} MalPositive(m: Memory, mal: int, arena: set<int>, i: nat)
    requires Regions(m, mal, arena)
    ensures Sentinel(mal, i) > 0
  {
  }

  /** lock_bin: an uninitialised bin becomes an empty circle, an initialised one
      stays as it is. */
  lemma {:induction false} LockStep(m: Memory, mal: int, v: View, skip: int, i: nat)
    requires Inv(m, mal, v, skip) && i < 64
    ensures BinReady(m, Sentinel(mal, i), v.ls[i])
    ensures var s := Sentinel(mal, i);
            var m' := if m[s + NEXT] == 0 then m[s + NEXT := s][s + PREV := s] else m;
            Inv(m', mal, v, skip) && Linked(m', s, v.ls[i]) && Untouched(m, m', v.h, v.mm)
  {
    var s := Sentinel(mal, i);
    hide Shaped, Chained, Apart, Headers, Binned, BinsLinked, Covered, Regions, Mmaps, Untouched, Nodes, Linked;
    BinHeadMapped(m, mal, v.ls, i);
    MalPositive(m, mal, v.arena, i);
    ListPositive(v.h, v.ls, skip, i);
    HeadNonzero(m, s, v.ls[i]);
    if m[s + NEXT] == 0 {
      BinnedNodes(m, mal, v.h, v.arena, v.ls, skip);
      LockBins(m, mal, v.arena, v.ls, i);
      var m1 := m[s + NEXT := s];
      SentinelApart(mal, i, i);
      LinkStore(m, mal, v, s, s + NEXT, s);
      LinkStore(m1, mal, v, s, s + PREV, s);
      UntouchedSame(m, m1, m1[s + PREV := s], v.h, v.mm);
    } else {
      SelfUntouched(m, mal, v, skip);
    }
  }

  lemma {:induction false} SelfUntouched(m: Memory, mal: int, v: View, skip: int)
    requires Covered(v.arena, v.h) && Ground(m, mal, v)
    ensures Untouched(m, m, v.h, v.mm)
  {
    forall x, a | x in v.h && v.h[x].used && x + OVERHEAD <= a < x + v.h[x].size ensures a in m {
      assert x <= a < x + Span(v.h[x]);
    }
  }

  // ---- newly mapped memory ----

  ghost predicate Fresh(m: Memory, p: int, n: nat) {
    forall a :: Between(p, a, p + n) ==> a !in m
  }

  predicate Between(p: int, a: int, q: int) {
    p <= a < q
  }

  function Range(p: int, q: int): set<int> {
    set a | p <= a < q && Between(p, a, q)
  }

  /** What the kernel hands over for [p, p + n): pages of any content. */
  ghost predicate Pages(m: Memory, pages: Memory, p: int, n: nat) {
    Fresh(m, p, n) && pages.Keys == Range(p, p + n)
  }

  ghost predicate Extends(m: Memory, m': Memory) {
    forall a :: a in m ==> a in m' && m'[a] == m[a]
  }

  lemma {:induction false} ExtendsBin(m: Memory, m': Memory, s: int, L: seq<int>)
    requires Extends(m, m') && BinReady(m, s, L)
    ensures BinReady(m', s, L)
  {
    if Linked(m, s, L) {
      forall k | 0 <= k <= |L| ensures Link(m', s, L, k) {
        assert Link(m, s, L, k);
      }
    }
  }

  lemma {:induction false} ExtendsBins(m: Memory, m': Memory, mal: int, ls: seq<seq<int>>)
    requires Extends(m, m') && BinsLinked(m, mal, ls)
    ensures BinsLinked(m', mal, ls)
  {
    forall i | 0 <= i < 64 ensures BinReady(m', Sentinel(mal, i), ls[i]) {
      ExtendsBin(m, m', Sentinel(mal, i), ls[i]);
    }
  }

  lemma {:induction false} ExtendsHeaders(m: Memory, m': Memory, h: Chunks)
    requires Extends(m, m') && Headers(m, h)
    ensures Headers(m', h)
  {
    forall c | c in h ensures HeaderOk(m', h, c) {
      assert HeaderOk(m, h, c);
    }
  }

  /** Fresh memory, of which `more` joins the arena. */
  lemma {:induction false} ExtendsGround(m: Memory, m': Memory, mal: int, v: View, more: set<int>)
    requires Extends(m, m') && Ground(m, mal, v)
    requires forall a :: a in more ==> a in m' && a !in m
    ensures Ground(m', mal, v.(arena := v.arena + more))
  {
  }

  lemma {:induction false} ExtendsUntouched(m: Memory, m': Memory, mal: int, v: View)
    requires Extends(m, m') && Ground(m, mal, v) && Covered(v.arena, v.h)
    ensures Untouched(m, m', v.h, v.mm)
  {
    forall x, a | x in v.h && v.h[x].used && x + OVERHEAD <= a < x + v.h[x].size ensures a in m {
      assert x <= a < x + Span(v.h[x]);
    }
  }

  lemma {:induction false} PagesExtend(m: Memory, pages: Memory, p: int, n: nat)
    requires Pages(m, pages, p, n)
    ensures Extends(m, m + pages)
    ensures forall a :: a in Range(p, p + n) ==> a in m + pages && a !in m
  {
    forall a | a in m ensures a !in pages {
      assert p <= a < p + n ==> Between(p, a, p + n);
    }
  }

  lemma {:induction false} CoveredMore(arena: set<int>, more: set<int>, h: Chunks)
    requires Covered(arena, h)
    ensures Covered(arena + more, h)
  {
    forall c, a | c in h && c <= a < c + Span(h[c]) ensures a in arena + more {
      assert a in arena;
    }
  }

  lemma {:induction false} InRange(arena: set<int>, lo: int, hi: int, a: int)
    requires Range(lo, hi) <= arena && lo <= a < hi
    ensures a in arena
  {
    assert a in Range(lo, hi);
  }

  lemma {:induction false} GrowStep(m: Memory, mal: int, v: View, pages: Memory, p: int, n: nat, more: set<int>)
    requires Inv(m, mal, v, 0) && Pages(m, pages, p, n) && more <= Range(p, p + n)
    ensures Inv(m + pages, mal, v.(arena := v.arena + more), 0) && Untouched(m, m + pages, v.h, v.mm)
  {
    var m' := m + pages;
    PagesExtend(m, pages, p, n);
    hide Shaped, Chained, Apart, Headers, Binned, BinsLinked, Covered, Regions, Mmaps, Untouched, Extends, Range;
    ExtendsBins(m, m', mal, v.ls);
    ExtendsHeaders(m, m', v.h);
    assert Ground(m, mal, v);
    ExtendsGround(m, m', mal, v, more);
    ExtendsUntouched(m, m', mal, v);
    CoveredMore(v.arena, more, v.h);
  }

  // ---- expand_heap ----

  /** No chunk reaches into [lo, hi). */
  ghost predicate Clear(h: Chunks, lo: int, hi: int) {
    forall d :: d in h ==> (d + OVERHEAD <= lo && d + h[d].size <= lo) || hi <= d
  }

  lemma {:induction false} FreshIsClear(m: Memory, mal: int, v: View, p: int, n: nat)
    requires Shaped(v.h) && Covered(v.arena, v.h) && Regions(m, mal, v.arena) && Fresh(m, p, n) && n > 0
    ensures Clear(v.h, p, p + n)
  {
    forall d | d in v.h ensures (d + OVERHEAD <= p && d + v.h[d].size <= p) || p + n <= d {
      SpanInMemory(m, mal, v, d);
      assert Between(p, p, p + n) && (p <= d < p + n ==> Between(p, d, p + n));
      assert d in m && p !in m;
    }
  }

  lemma {:induction false} SpanInMemory(m: Memory, mal: int, v: View, d: int)
    requires Shaped(v.h) && Covered(v.arena, v.h) && Regions(m, mal, v.arena) && d in v.h
    ensures forall a :: d <= a < d + v.h[d].size || d <= a < d + OVERHEAD ==> a in m
  {
    forall a | d <= a < d + v.h[d].size || d <= a < d + OVERHEAD ensures a in m {
      assert d <= a < d + Span(v.h[d]);
    }
  }

  lemma {:induction false} ClearOffPayload(h: Chunks, lo: int, hi: int, a: int)
    requires Clear(h, lo, hi) && lo <= a < hi
    ensures forall x :: x in h && h[x].used ==> !(x + OVERHEAD <= a < x + h[x].size)
  {
  }

  /** The footer and header stores shared by both kinds of growth: the body
      [lo, e + n + 16) is already in the arena. */
  lemma {:induction false} GrowGround(m: Memory, mal: int, v: View, e: int, n: nat, lo: int)
    requires Nodes(mal, v.arena, v.ls) && Ground(m, mal, v) && BinsLinked(m, mal, v.ls)
    requires Covered(v.arena, v.h) && Clear(v.h, lo, e + n + 16) && lo <= e + 16 && n >= 32
    requires e % SIZE_ALIGN == 16 && n % SIZE_ALIGN == 0
    requires e + 8 in v.arena && e + n in v.arena && e + n + 8 in v.arena
    requires forall x :: x in v.h && v.h[x].used ==> !(x + OVERHEAD <= e + 8 < x + v.h[x].size)
    ensures var m' := ExtendStores(m, e, n);
            Ground(m', mal, v) && BinsLinked(m', mal, v.ls) && Untouched(m, m', v.h, v.mm)
  {
    hide BinsLinked, Ground, Untouched, Nodes, Covered;
    ClearOffPayload(v.h, lo, e + n + 16, e + n);
    ClearOffPayload(v.h, lo, e + n + 16, e + n + 8);
    hide Clear;
    AddUnits(n, 32, 0, 0);
    SplitResidues(e, n, n + 32);
    var m1 := m[e + n := Word(n, true)];
    var m2 := m1[e + n + 8 := Word(0, true)];
    HeaderStore(m, mal, v, v.h, e + n, Word(n, true));
    HeaderStore(m1, mal, v, v.h, e + n + 8, Word(0, true));
    HeaderStore(m2, mal, v, v.h, e + 8, Word(n, true));
    UntouchedSame(m, m1, m2, v.h, v.mm);
    UntouchedSame(m, m2, ExtendStores(m, e, n), v.h, v.mm);
  }

  lemma {:induction false} UsedBinned(h: Chunks, g: Chunks, ls: seq<seq<int>>)
    requires Binned(h, ls, 0)
    requires forall d :: d in h && !h[d].used ==> d in g && g[d] == h[d]
    requires forall d :: d in g && !g[d].used ==> d in h && g[d] == h[d]
    ensures Binned(g, ls, 0)
  {
    hide BinOf;
    forall i, k | 0 <= i < 64 && 0 <= k < |ls[i]| ensures OnList(g, i, ls[i][k], 0) {
      assert OnList(h, i, ls[i][k], 0);
    }
  }

  lemma {:induction false} ExtendBinned(h: Chunks, ls: seq<seq<int>>, e: int, n: nat)
    requires Binned(h, ls, 0) && e in h && h[e].used && e + n !in h && n > 0
    ensures Binned(Extend(h, e, n), ls, 0)
  {
    hide Binned;
    UsedBinned(h, Extend(h, e, n), ls);
  }

  lemma {:induction false} NewSegmentBinned(h: Chunks, ls: seq<seq<int>>, c: int, n: nat)
    requires Binned(h, ls, 0) && c !in h && c + n !in h && n > 0
    ensures Binned(NewSegment(h, c, n), ls, 0)
  {
    hide Binned;
    UsedBinned(h, NewSegment(h, c, n), ls);
  }

  lemma {:induction false} ExtendCovered(arena: set<int>, h: Chunks, e: int, n: nat)
    requires Covered(arena, h) && e in h && n > 0
    requires Range(e, e + n + 16) <= arena
    ensures Covered(arena, Extend(h, e, n))
  {
    var g := Extend(h, e, n);
    forall c, a | c in g && c <= a < c + Span(g[c]) ensures a in arena {
      assert e <= a < e + n + 16 ==> a in Range(e, e + n + 16);
      if c != e && c != e + n { assert c <= a < c + Span(h[c]); }
    }
  }

  lemma {:induction false} SentinelUsed(h: Chunks, e: int)
    requires Shaped(h) && e in h && h[e].size == 0
    ensures h[e].used && e % SIZE_ALIGN == 16 && NoClash(h, e)
  {
    ShapedNoClash(h, e);
  }

  lemma {:induction false} ClearAbove(h: Chunks, e: int, n: nat)
    requires Clear(h, e + 16, e + n + 16) && n > 0
    ensures forall d :: d in h ==> d <= e || e + n < d
  {
  }

  /** Growth in place: the sentinel e becomes the header of an n-byte chunk. */
  lemma {:induction false} ExtendStep(m: Memory, mal: int, v: View, e: int, n: nat)
    requires Inv(m, mal, v, 0) && e in v.h && v.h[e].size == 0
    requires n >= 32 && n % SIZE_ALIGN == 0 && Clear(v.h, e + 16, e + n + 16)
    requires Range(e, e + n + 16) <= v.arena
    ensures var m' := ExtendStores(m, e, n);
            Inv(m', mal, v.(h := Extend(v.h, e, n)), 0) && Untouched(m, m', v.h, v.mm)
  {
    hide Shaped, Chained, Apart, Headers, Binned, BinsLinked, Covered, Regions, Mmaps, Untouched, Nodes, NoClash, Clear;
    hide Extend, ExtendStores;
    ClearAbove(v.h, e, n);
    ChunkShape(v.h, e);
    AddUnits(n, 32, 0, 0);
    InRange(v.arena, e, e + n + 16, e + 8);
    InRange(v.arena, e, e + n + 16, e + n);
    InRange(v.arena, e, e + n + 16, e + n + 8);
    hide Range;
    SentinelUsed(v.h, e);
    SplitResidues(e, n, n + 32);
    ExtendKeepsTiling(v.h, e, n);
    ShapedNoClash(v.h, e + n);
    ExtendHeaders(m, v.h, e, n);
    ExtendBinned(v.h, v.ls, e, n);
    ExtendCovered(v.arena, v.h, e, n);
    BinnedNodes(m, mal, v.h, v.arena, v.ls, 0);
    HeaderOffPayload(v.h, e, e + 8);
    GrowGround(m, mal, v, e, n, e + 16);
  }

  lemma {:induction false} NewSegmentCovered(arena: set<int>, h: Chunks, c: int, n: nat)
    requires Covered(arena, h) && n > 0
    requires Range(c, c + n + 16) <= arena
    ensures Covered(arena, NewSegment(h, c, n))
  {
    var g := NewSegment(h, c, n);
    forall d, a | d in g && d <= a < d + Span(g[d]) ensures a in arena {
      assert c <= a < c + n + 16 ==> a in Range(c, c + n + 16);
      if d != c && d != c + n { assert d <= a < d + Span(h[d]); }
    }
  }

  lemma {:induction false} ClearAround(h: Chunks, c: int, n: nat)
    requires Clear(h, c - 16, c + n + 16) && n > 0
    ensures forall d :: d in h ==> d + h[d].size < c || c + n < d
    ensures c !in h && c + n !in h
  {
  }

  /** Growth elsewhere: a new segment whose only chunk is c, of n bytes. */
  lemma {:induction false} NewSegmentStep(m: Memory, mal: int, v: View, c: int, n: nat)
    requires Inv(m, mal, v, 0) && c > 0 && c % SIZE_ALIGN == 16
    requires n >= 32 && n % SIZE_ALIGN == 0 && Clear(v.h, c - 16, c + n + 16)
    requires Range(c, c + n + 16) <= v.arena
    ensures var m' := ExtendStores(m[c := Word(0, true)], c, n);
            Inv(m', mal, v.(h := NewSegment(v.h, c, n)), 0) && Untouched(m, m', v.h, v.mm)
  {
    ClearAround(v.h, c, n);
    hide Shaped, Chained, Apart, Headers, Binned, BinsLinked, Covered, Regions, Mmaps, Untouched, Nodes, NoClash, Clear;
    hide NewSegment, ExtendStores;
    InRange(v.arena, c, c + n + 16, c);
    InRange(v.arena, c, c + n + 16, c + 8);
    InRange(v.arena, c, c + n + 16, c + n);
    InRange(v.arena, c, c + n + 16, c + n + 8);
    hide Range;
    AddUnits(n, 32, 0, 0);
    SplitResidues(c, n, n + 32);
    NewSegmentKeepsTiling(v.h, c, n);
    ShapedNoClash(v.h, c);
    ShapedNoClash(v.h, c + n);
    NewSegmentHeaders(m, v.h, c, n);
    NewSegmentBinned(v.h, v.ls, c, n);
    NewSegmentCovered(v.arena, v.h, c, n);
    BinnedNodes(m, mal, v.h, v.arena, v.ls, 0);
    var m1 := m[c := Word(0, true)];
    ClearOffPayload(v.h, c - 16, c + n + 16, c);
    ClearOffPayload(v.h, c - 16, c + n + 16, c + 8);
    HeaderStore(m, mal, v, v.h, c, Word(0, true));
    GrowGround(m1, mal, v, c, n, c - 16);
    UntouchedSame(m, m1, ExtendStores(m1, c, n), v.h, v.mm);
  }

  // ---- mmapped chunks ----

  function MmapStores(m: Memory, pages: Memory, p: int, len: nat): Memory {
    (m + pages)[p + 24 := len - 16][p + 16 := 16]
  }

  lemma {:induction false} MmapExtends(m: Memory, pages: Memory, p: int, len: nat)
    requires Pages(m, pages, p, len) && len >= 64
    ensures var m' := MmapStores(m, pages, p, len);
            && Extends(m, m') && m'[p + 16] == 16 && m'[p + 24] == len - 16
            && forall a :: Between(p, a, p + len) ==> a in m' && a !in m
  {
    PagesExtend(m, pages, p, len);
    assert p + 24 in Range(p, p + len) && p + 16 in Range(p, p + len);
    forall a | Between(p, a, p + len) ensures a in m + pages && a !in m {
      assert a in Range(p, p + len);
    }
  }

  /** A mapping that lies in memory keeps clear of a fresh range. */
  lemma {:induction false} MappingApart(m: Memory, d: int, size: nat, p: int, len: nat)
    requires Fresh(m, p, len) && len > 0 && size > 0
    requires forall a :: d - 16 <= a < d + size ==> a in m
    ensures d + size <= p || p + len <= d - 16
  {
    assert p !in m by { assert Between(p, p, p + len); }
    assert d - 16 in m;
    assert Between(p, d - 16, p + len) ==> d - 16 !in m;
  }

  lemma {:induction false} MmapGround(m: Memory, mal: int, v: View, pages: Memory, p: int, len: nat)
    requires Ground(m, mal, v) && Pages(m, pages, p, len)
    requires p > 0 && p % SIZE_ALIGN == 0 && len >= 64 && len % SIZE_ALIGN == 0
    ensures Ground(MmapStores(m, pages, p, len), mal, v.(mm := v.mm[p + 16 := len - 16]))
  {
    var m' := MmapStores(m, pages, p, len);
    MmapExtends(m, pages, p, len);
    assert forall a :: Between(p, a, p + len) ==> a !in v.arena && !Static(mal, a);
    hide MmapStores, Fresh;
    forall d | d in v.mm ensures d + v.mm[d] <= p || p + len <= d - 16 {
      MappingApart(m, d, v.mm[d], p, len);
    }
    assert Regions(m', mal, v.arena);
    hide Regions;
    AddMapping(m, m', mal, v.arena, v.mm, p, len);
  }

  lemma {:induction false} AddMapping(m: Memory, m': Memory, mal: int, arena: set<int>, mm: map<int, int>,
                                      p: int, len: nat)
    requires Mmaps(m, mal, arena, mm) && Extends(m, m')
    requires p > 0 && p % SIZE_ALIGN == 0 && len >= 64 && len % SIZE_ALIGN == 0
    requires forall d :: d in mm ==> d + mm[d] <= p || p + len <= d - 16
    requires forall a :: Between(p, a, p + len) ==> a in m' && a !in arena && !Static(mal, a)
    requires p + 16 in m' && p + 24 in m' && m'[p + 16] == 16 && m'[p + 24] == len - 16
    ensures Mmaps(m', mal, arena, mm[p + 16 := len - 16])
  {
    hide MmapSizes, MmapWords, MmapRegions, MmapsApart, Extends, Between, Static;
    AddMappingShape(mm, p, len);
    AddMappingWords(m, m', mm, p, len);
    AddMappingRegion(m, m', mal, arena, mm, p, len);
    AddMappingApart(mm, p, len);
  }

  lemma {:induction false} AddMappingShape(mm: map<int, int>, p: int, len: nat)
    requires MmapSizes(mm) && p > 0 && p % SIZE_ALIGN == 0 && len >= 64 && len % SIZE_ALIGN == 0
    ensures MmapSizes(mm[p + 16 := len - 16])
  {
    AddUnits(p, 16, 0, 16);
    SubUnits(len, 32, 0, 0);
    AddUnits(len - 32, 16, 0, 16);
  }

  lemma {:induction false} AddMappingWords(m: Memory, m': Memory, mm: map<int, int>, p: int, len: nat)
    requires MmapWords(m, mm) && Extends(m, m') && len >= 64
    requires p + 16 in m' && p + 24 in m' && m'[p + 16] == 16 && m'[p + 24] == len - 16
    ensures MmapWords(m', mm[p + 16 := len - 16])
  {
    var mm' := mm[p + 16 := len - 16];
    forall d | d in mm' ensures d in m' && d + 8 in m' && m'[d] == 16 && m'[d + 8] == mm'[d] {
      assert d in mm ==> m[d] == 16 && m[d + 8] == mm[d];
    }
  }

  lemma {:induction false} AddMappingApart(mm: map<int, int>, p: int, len: nat)
    requires MmapsApart(mm) && MmapSizes(mm) && len >= 64
    requires forall d :: d in mm ==> d + mm[d] <= p || p + len <= d - 16
    ensures MmapsApart(mm[p + 16 := len - 16])
  {
    var mm' := mm[p + 16 := len - 16];
    forall d, e | d in mm' && e in mm' && d < e ensures d + mm'[d] <= e - 16 {
      assert d in mm && e in mm ==> d + mm[d] <= e - 16;
    }
  }

  lemma {:induction false} AddMappingRegion(m: Memory, m': Memory, mal: int, arena: set<int>, mm: map<int, int>,
                                            p: int, len: nat)
    requires MmapRegions(m, mal, arena, mm) && Extends(m, m') && len >= 64
    requires forall a :: Between(p, a, p + len) ==> a in m' && a !in arena && !Static(mal, a)
    ensures MmapRegions(m', mal, arena, mm[p + 16 := len - 16])
  {
    var mm' := mm[p + 16 := len - 16];
    forall d, a | d in mm' && d - 16 <= a < d + mm'[d] ensures a in m' && a !in arena && !Static(mal, a) {
      if d == p + 16 { assert Between(p, a, p + len); } else { assert a in m; }
    }
  }

  /** The mmap path of malloc. */
  lemma {:induction false} MmapStep(m: Memory, mal: int, v: View, pages: Memory, p: int, len: nat)
    requires Inv(m, mal, v, 0) && Pages(m, pages, p, len)
    requires p > 0 && p % SIZE_ALIGN == 0 && len >= 64 && len % SIZE_ALIGN == 0
    ensures var m' := MmapStores(m, pages, p, len);
            Inv(m', mal, v.(mm := v.mm[p + 16 := len - 16]), 0) && Untouched(m, m', v.h, v.mm)
  {
    MmapGround(m, mal, v, pages, p, len);
    MmapExtends(m, pages, p, len);
    hide Shaped, Chained, Apart, Headers, Binned, BinsLinked, Covered, Regions, Mmaps, Untouched, Extends, MmapStores;
    hide Pages;
    var m' := MmapStores(m, pages, p, len);
    ExtendsBins(m, m', mal, v.ls);
    ExtendsHeaders(m, m', v.h);
    assert Ground(m, mal, v);
    ExtendsUntouched(m, m', mal, v);
  }

  /** The new chunk is none of those already there. */
  lemma {:induction false} MmapIsNew(m: Memory, mal: int, v: View, pages: Memory, p: int, len: nat)
    requires Inv(m, mal, v, 0) && Pages(m, pages, p, len) && len >= 64
    ensures p + 16 !in v.h && p + 16 !in v.mm
  {
    assert p + 16 !in m by { assert Between(p, p + 16, p + len); }
    if p + 16 in v.h {
      HeaderInArena(v.h, v.arena, p + 16, p + 16);
    }
  }

  // ---- munmap ----

  lemma {:induction false} UnmapBin(m: Memory, mal: int, arena: set<int>, ls: seq<seq<int>>, gone: set<int>, i: int)
    requires Nodes(mal, arena, ls) && 0 <= i < 64 && BinReady(m, Sentinel(mal, i), ls[i])
    requires forall a :: a in gone ==> a !in arena && !Static(mal, a)
    ensures BinReady(m - gone, Sentinel(mal, i), ls[i])
  {
    var s, L := Sentinel(mal, i), ls[i];
    SentinelApart(mal, i, i);
    if Linked(m, s, L) {
      var m' := m - gone;
      forall k | 0 <= k <= |L| ensures Link(m', s, L, k) {
        assert Link(m, s, L, k);
        assert 0 < k <= |L| ==> NodeOk(arena, L[k - 1]);
        assert 0 <= k < |L| ==> NodeOk(arena, L[k]);
      }
    }
  }

  lemma {:induction false} UnmapHeaders(m: Memory, h: Chunks, arena: set<int>, gone: set<int>)
    requires Headers(m, h) && Shaped(h) && Covered(arena, h) && forall a :: a in gone ==> a !in arena
    ensures Headers(m - gone, h)
  {
    var m' := m - gone;
    forall c | c in h ensures HeaderOk(m', h, c) {
      assert HeaderOk(m, h, c);
      HeaderInArena(h, arena, c, c);
      HeaderInArena(h, arena, c, c + 8);
    }
  }

  lemma {:induction false} UnmapGround(m: Memory, mal: int, v: View, c: int)
    requires Ground(m, mal, v) && c in v.mm
    ensures Ground(m - Range(c - 16, c + v.mm[c]), mal, v.(mm := v.mm - {c}))
  {
    var gone := Range(c - 16, c + v.mm[c]);
    forall d, a | d in v.mm - {c} && d - 16 <= a < d + v.mm[d] ensures a !in gone {
    }
  }

  lemma {:induction false} UnmapUntouched(m: Memory, mal: int, v: View, c: int)
    requires Ground(m, mal, v) && Covered(v.arena, v.h) && c in v.mm
    ensures Untouched(m, m - Range(c - 16, c + v.mm[c]), v.h, v.mm - {c})
  {
    PayloadInArena(v.arena, v.h);
    hide Covered;
    var gone := Range(c - 16, c + v.mm[c]);
    assert forall a :: a in gone ==> a !in v.arena;
    assert forall x, a :: x in v.mm && x != c && x + OVERHEAD <= a < x + v.mm[x] ==> a in m && a !in gone;
  }

  /** munmap of exactly the region that was mapped for c. */
  lemma {:induction false} UnmapStep(m: Memory, mal: int, v: View, c: int)
    requires Inv(m, mal, v, 0) && c in v.mm
    ensures var m' := m - Range(c - 16, c + v.mm[c]);
            Inv(m', mal, v.(mm := v.mm - {c}), 0) && Untouched(m, m', v.h, v.mm - {c})
  {
    var gone := Range(c - 16, c + v.mm[c]);
    assert forall a :: a in gone ==> a !in v.arena && !Static(mal, a);
    assert Ground(m, mal, v);
    hide Shaped, Chained, Apart, Headers, Binned, Covered, Regions, Mmaps, Untouched, Nodes, Range, BinReady;
    BinnedNodes(m, mal, v.h, v.arena, v.ls, 0);
    forall i | 0 <= i < 64 ensures BinReady(m - gone, Sentinel(mal, i), v.ls[i]) {
      UnmapBin(m, mal, v.arena, v.ls, gone, i);
    }
    UnmapHeaders(m, v.h, v.arena, gone);
    UnmapGround(m, mal, v, c);
    UnmapUntouched(m, mal, v, c);
  }

  // ---- madvise and the client's stores: words inside one chunk body ----

  /** Overwrite words strictly inside the body of chunk c, past its header and,
      if it is free, past its links. */
  ghost predicate BodyWords(h: Chunks, c: int, words: Memory) {
    && c in h
    && forall a :: a in words ==> c + (if h[c].used then OVERHEAD else 32) <= a < c + h[c].size
  }

  lemma {:induction false} OffWordsBin(m: Memory, s: int, L: seq<int>, words: Memory)
    requires BinReady(m, s, L) && s + NEXT !in words && s + PREV !in words
    requires forall k :: 0 <= k < |L| ==> L[k] + NEXT !in words && L[k] + PREV !in words
    ensures BinReady(m + words, s, L)
  {
    if Linked(m, s, L) {
      var m' := m + words;
      forall k | 0 <= k <= |L| ensures Link(m', s, L, k) {
        assert Link(m, s, L, k);
      }
    }
  }

  lemma {:induction false} BodyBin(m: Memory, mal: int, v: View, c: int, words: Memory, i: int)
    requires Shaped(v.h) && Apart(v.h) && Covered(v.arena, v.h) && Regions(m, mal, v.arena) && Binned(v.h, v.ls, 0)
    requires BodyWords(v.h, c, words) && 0 <= i < 64 && BinReady(m, Sentinel(mal, i), v.ls[i])
    ensures BinReady(m + words, Sentinel(mal, i), v.ls[i])
  {
    hide Shaped, Apart, Covered, BodyWords, BinReady, BinOf;
    var s, L := Sentinel(mal, i), v.ls[i];
    BodyInArena(v.arena, v.h, c, words);
    SentinelApart(mal, i, i);
    forall k | 0 <= k < |L| ensures L[k] + NEXT !in words && L[k] + PREV !in words {
      Listed(v.h, v.ls, 0, i, k);
      LinksOffBody(v.h, c, words, L[k]);
    }
    OffWordsBin(m, s, L, words);
  }

  lemma {:induction false} BodyInArena(arena: set<int>, h: Chunks, c: int, words: Memory)
    requires Covered(arena, h) && BodyWords(h, c, words)
    ensures forall a :: a in words ==> a in arena
  {
  }

  lemma {:induction false} LinksOffBody(h: Chunks, c: int, words: Memory, x: int)
    requires Apart(h) && Shaped(h) && BodyWords(h, c, words) && x in h && !h[x].used
    ensures x + NEXT !in words && x + PREV !in words
  {
  }

  lemma {:induction false} BodyHeaders(m: Memory, h: Chunks, c: int, words: Memory)
    requires Headers(m, h) && Apart(h) && BodyWords(h, c, words)
    ensures Headers(m + words, h)
  {
    var m' := m + words;
    forall d | d in h ensures HeaderOk(m', h, d) {
      assert HeaderOk(m, h, d);
    }
  }

  lemma {:induction false} BodyGround(m: Memory, mal: int, v: View, words: Memory)
    requires Ground(m, mal, v) && forall a :: a in words ==> a in v.arena
    ensures Ground(m + words, mal, v)
  {
    forall d | d in v.mm ensures d !in words && d + 8 !in words {
      assert d - 16 <= d < d + v.mm[d] && d - 16 <= d + 8 < d + v.mm[d];
    }
  }

  lemma {:induction false} BodyUntouched(m: Memory, mal: int, v: View, c: int, words: Memory)
    requires Ground(m, mal, v) && Covered(v.arena, v.h) && Apart(v.h) && BodyWords(v.h, c, words)
    ensures Untouched(m, m + words, v.h - {c}, v.mm)
  {
    BodyInArena(v.arena, v.h, c, words);
    forall x, a | x in v.h - {c} && v.h[x].used && x + OVERHEAD <= a < x + v.h[x].size
      ensures a in m && a !in words
    {
      assert x <= a < x + Span(v.h[x]);
    }
  }

  lemma {:induction false} BodyStep(m: Memory, mal: int, v: View, c: int, words: Memory)
    requires Inv(m, mal, v, 0) && BodyWords(v.h, c, words)
    ensures Inv(m + words, mal, v, 0) && Untouched(m, m + words, v.h - {c}, v.mm)
  {
    assert Ground(m, mal, v);
    hide Shaped, Chained, Apart, Headers, Binned, Covered, Regions, Mmaps, Untouched, BinReady, BodyWords;
    forall i | 0 <= i < 64 ensures BinReady(m + words, Sentinel(mal, i), v.ls[i]) {
      BodyBin(m, mal, v, c, words, i);
    }
    BodyHeaders(m, v.h, c, words);
    BodyInArena(v.arena, v.h, c, words);
    BodyGround(m, mal, v, words);
    BodyUntouched(m, mal, v, c, words);
  }

  /** The client's stores into an mmapped chunk. */
  lemma {:induction false} MmapWriteStep(m: Memory, mal: int, v: View, c: int, words: Memory)
    requires Inv(m, mal, v, 0) && c in v.mm
    requires forall a :: a in words ==> c + OVERHEAD <= a < c + v.mm[c]
    ensures Inv(m + words, mal, v, 0) && Untouched(m, m + words, v.h, v.mm - {c})
  {
    assert forall a :: a in words ==> a !in v.arena && !Static(mal, a) && a in m;
    assert Ground(m, mal, v);
    assert Ground(m + words, mal, v) by { MmapWriteGround(m, mal, v, c, words); }
    BinnedNodes(m, mal, v.h, v.arena, v.ls, 0);
    hide Shaped, Chained, Apart, Headers, Binned, Covered, Regions, Mmaps, Untouched, BinReady, Nodes;
    forall i | 0 <= i < 64 ensures BinReady(m + words, Sentinel(mal, i), v.ls[i]) {
      MmapWriteBin(m, mal, v.arena, v.ls, words, i);
    }
    MmapWriteHeaders(m, v.h, v.arena, words);
    MmapWriteUntouched(m, mal, v, c, words);
  }

  lemma {:induction false} MmapWriteGround(m: Memory, mal: int, v: View, c: int, words: Memory)
    requires Ground(m, mal, v) && c in v.mm
    requires forall a :: a in words ==> c + OVERHEAD <= a < c + v.mm[c]
    ensures Ground(m + words, mal, v)
  {
    forall d | d in v.mm ensures d !in words && d + 8 !in words {
    }
  }

  lemma {:induction false} MmapWriteBin(m: Memory, mal: int, arena: set<int>, ls: seq<seq<int>>, words: Memory, i: int)
    requires Nodes(mal, arena, ls) && 0 <= i < 64 && BinReady(m, Sentinel(mal, i), ls[i])
    requires forall a :: a in words ==> a !in arena && !Static(mal, a)
    ensures BinReady(m + words, Sentinel(mal, i), ls[i])
  {
    var s, L := Sentinel(mal, i), ls[i];
    SentinelApart(mal, i, i);
    if Linked(m, s, L) {
      var m' := m + words;
      forall k | 0 <= k <= |L| ensures Link(m', s, L, k) {
        assert Link(m, s, L, k);
        assert 0 < k <= |L| ==> NodeOk(arena, L[k - 1]);
        assert 0 <= k < |L| ==> NodeOk(arena, L[k]);
      }
    }
  }

  lemma {:induction false} MmapWriteHeaders(m: Memory, h: Chunks, arena: set<int>, words: Memory)
    requires Headers(m, h) && Shaped(h) && Covered(arena, h) && forall a :: a in words ==> a !in arena
    ensures Headers(m + words, h)
  {
    var m' := m + words;
    forall c | c in h ensures HeaderOk(m', h, c) {
      assert HeaderOk(m, h, c);
      HeaderInArena(h, arena, c, c);
      HeaderInArena(h, arena, c, c + 8);
    }
  }

  lemma {:induction false} MmapWriteUntouched(m: Memory, mal: int, v: View, c: int, words: Memory)
    requires Ground(m, mal, v) && Covered(v.arena, v.h) && c in v.mm
    requires forall a :: a in words ==> c + OVERHEAD <= a < c + v.mm[c]
    ensures Untouched(m, m + words, v.h, v.mm - {c})
  {
    assert forall a :: a in words ==> a !in v.arena;
    PayloadInArena(v.arena, v.h);
    hide Covered;
    assert forall x, a :: x in v.mm && x != c && x + OVERHEAD <= a < x + v.mm[x] ==> a in m && a !in words;
  }

  lemma {:induction false} PayloadInArena(arena: set<int>, h: Chunks)
    requires Covered(arena, h)
    ensures forall x, a :: x in h && h[x].used && x + OVERHEAD <= a < x + h[x].size ==> a in arena
  {
    forall x, a | x in h && h[x].used && x + OVERHEAD <= a < x + h[x].size ensures a in arena {
      assert x <= a < x + Span(h[x]);
    }
  }
}
