/** The invariant of the allocator between and inside its operations, and the
    proof that each group of stores keeps it. */
module Invariant {
  import opened Sizes
  import opened Heap
  import opened FreeList
  import opened Layout
  import opened Steps

  /** The abstract state: chunks, bin contents, heap bytes, mmapped chunks. */
  datatype View = View(h: Chunks, ls: seq<seq<int>>, arena: set<int>, mm: map<int, int>)

  /** `skip` is a chunk that is marked free but not yet on its list (0: none). */
  ghost predicate Inv(m: Memory, mal: int, v: View, skip: int) {
    && |v.ls| == 64 && Tiled(v.h) && Headers(m, v.h)
    && Binned(v.h, v.ls, skip) && BinsLinked(m, mal, v.ls)
    && Covered(v.arena, v.h) && Regions(m, mal, v.arena)
    && Mmaps(m, mal, v.arena, v.mm)
  }

  // ---- unbin ----

  lemma {:induction false} UnbinBinned(h: Chunks, ls: seq<seq<int>>, skip: int, i: int, k: nat)
    requires Binned(h, ls, skip) && 0 <= i < 64 && k < |ls[i]| && ls[i][k] in h
    ensures Binned(SetUsed(h, ls[i][k], true), ls[i := Without(ls[i], k)], skip)
  {
    hide BinOf;
    var c, L' := ls[i][k], Without(ls[i], k);
    var g, ls' := SetUsed(h, c, true), ls[i := L'];
    forall j, l | 0 <= j < 64 && 0 <= l < |ls'[j]| ensures OnList(g, j, ls'[j][l], skip) {
      var l' := if j == i && l >= k then l + 1 else l;
      assert ls'[j][l] == ls[j][l'];
      assert OnList(h, j, ls[j][l'], skip);
      assert OnList(h, i, ls[i][k], skip);
    }
    forall d | d in g && !g[d].used && d != skip ensures BinOf(g[d].size) < 64 && d in ls'[BinOf(g[d].size)] {
      var j := BinOf(h[d].size);
      var l :| 0 <= l < |ls[j]| && ls[j][l] == d;
      if j == i { assert d == L'[if l < k then l else l - 1]; }
    }
    assert Distinct(L');
  }

  lemma {:induction false} NoZero(h: Chunks)
    requires Shaped(h)
    ensures 0 !in h
  {
  }

  /** What is known around a chunk c with a body. */
  lemma {:induction false} Around(h: Chunks, c: int)
    requires Tiled(h) && c in h && h[c].size > 0
    ensures Neighbours(h, c) && c % SIZE_ALIGN == 16 && (c + h[c].size) % SIZE_ALIGN == 16
    ensures h[c].size >= 32 && h[c].size % SIZE_ALIGN == 0
    ensures NoClash(h, c) && NoClash(h, c + h[c].size)
  {
    assert Neighbours(h, c);
    AddUnits(c, h[c].size, 16, 0);
    PositiveUnits(h[c].size);
    ShapedNoClash(h, c);
    ShapedNoClash(h, c + h[c].size);
  }

  lemma {:induction false} AllocateCovered(arena: set<int>, h: Chunks, c: int)
    requires Covered(arena, h) && c in h
    ensures Covered(arena, SetUsed(h, c, true))
  {
  }

  lemma {:induction false} Listed(h: Chunks, ls: seq<seq<int>>, skip: int, i: int, k: int)
    requires Binned(h, ls, skip) && 0 <= i < 64 && 0 <= k < |ls[i]|
    ensures OnList(h, i, ls[i][k], skip)
  {
  }

  lemma {:induction false} FreeHasBody(h: Chunks, c: int)
    requires Shaped(h) && c in h && !h[c].used
    ensures h[c].size > 0
  {
  }

  // ---- single stores ----

  ghost predicate Ground(m: Memory, mal: int, v: View) {
    Regions(m, mal, v.arena) && Mmaps(m, mal, v.arena, v.mm)
  }

  lemma {:induction false} UntouchedSame(m: Memory, m1: Memory, m2: Memory, h: Chunks, mm: map<int, int>)
    requires Untouched(m, m1, h, mm) && Untouched(m1, m2, h, mm)
    ensures Untouched(m, m2, h, mm)
  {
  }

  /** Store to a link field. */
  lemma {:induction false} LinkStore(m: Memory, mal: int, v: View, x: int, a: int, w: int)
    requires Shaped(v.h) && Apart(v.h) && Covered(v.arena, v.h) && Headers(m, v.h)
    requires Ground(m, mal, v) && LinkField(mal, v.h, x, a)
    ensures a in m && Headers(m[a := w], v.h) && Ground(m[a := w], mal, v)
    ensures Untouched(m, m[a := w], v.h, v.mm)
  {
    LinkOffPayload(mal, v.h, v.arena, x, a);
    LinkStoreHeaders(m, mal, v.h, v.arena, x, a, w);
    StoreRegions(m, mal, v.arena, v.mm, a, w);
    StoreUntouched(m, mal, v.h, v.arena, v.mm, a, w);
  }

  /** Store to a header word inside the arena that is in no payload of r. */
  lemma {:induction false} HeaderStore(m: Memory, mal: int, v: View, r: Chunks, a: int, w: int)
    requires Nodes(mal, v.arena, v.ls) && Ground(m, mal, v) && BinsLinked(m, mal, v.ls)
    requires Covered(v.arena, r) && a in v.arena && a % SIZE_ALIGN >= 16
    requires forall x :: x in r && r[x].used ==> !(x + OVERHEAD <= a < x + r[x].size)
    ensures a in m && Ground(m[a := w], mal, v) && BinsLinked(m[a := w], mal, v.ls)
    ensures Untouched(m, m[a := w], r, v.mm)
  {
    HeaderStoreBins(m, mal, v.arena, v.ls, a, w);
    StoreRegions(m, mal, v.arena, v.mm, a, w);
    StoreUntouched(m, mal, r, v.arena, v.mm, a, w);
  }

  /** The two link stores of `unbin`. */
  lemma {:induction false} UnlinkGround(m: Memory, mal: int, v: View, p: int, q: int)
    requires Shaped(v.h) && Apart(v.h) && Covered(v.arena, v.h) && Headers(m, v.h) && Ground(m, mal, v)
    requires LinkField(mal, v.h, p, p + NEXT) && LinkField(mal, v.h, q, q + PREV)
    ensures Headers(Unlinked(m, p, q), v.h) && Ground(Unlinked(m, p, q), mal, v)
    ensures Untouched(m, Unlinked(m, p, q), v.h, v.mm)
  {
    var m1 := m[p + NEXT := q];
    LinkStore(m, mal, v, p, p + NEXT, q);
    LinkStore(m1, mal, v, q, q + PREV, p);
    UntouchedSame(m, m1, Unlinked(m, p, q), v.h, v.mm);
  }

  lemma {:induction false} NodeLinkField(mal: int, v: View, skip: int, i: int, x: int)
    requires Binned(v.h, v.ls, skip) && 0 <= i < 64 && NodeOf(mal, v.ls, i, x)
    ensures LinkField(mal, v.h, x, x + NEXT) && LinkField(mal, v.h, x, x + PREV)
  {
    if x == Sentinel(mal, i) {
      SentinelApart(mal, i, i);
    } else {
      var k :| 0 <= k < |v.ls[i]| && v.ls[i][k] == x;
      assert OnList(v.h, i, v.ls[i][k], skip);
    }
  }

  /** The two header stores of `unbin`. */
  lemma {:induction false} MarkGround(m: Memory, mal: int, v: View, c: int)
    requires Nodes(mal, v.arena, v.ls) && Ground(m, mal, v) && BinsLinked(m, mal, v.ls)
    requires Shaped(v.h) && Apart(v.h) && Covered(v.arena, v.h)
    requires c in v.h && c + v.h[c].size in v.h
    ensures var m' := Marked(m, c, v.h[c].size);
            && Ground(m', mal, v) && BinsLinked(m', mal, v.ls) && Untouched(m, m', v.h, v.mm)
  {
    hide Shaped, Apart, Ground, BinsLinked, Covered, Untouched, Nodes, Word, NoClash;
    var z, size := c + v.h[c].size, v.h[c].size;
    var m1 := m[c + 8 := Word(size, true)];
    ChunkShape(v.h, c);
    ChunkShape(v.h, z);
    AddUnits(c, 8, 16, 8);
    HeaderInArena(v.h, v.arena, c, c + 8);
    HeaderInArena(v.h, v.arena, z, z);
    HeaderOffPayload(v.h, c, c + 8);
    HeaderOffPayload(v.h, z, z);
    HeaderStore(m, mal, v, v.h, c + 8, Word(size, true));
    HeaderStore(m1, mal, v, v.h, z, Word(size, true));
    UntouchedSame(m, m1, Marked(m, c, size), v.h, v.mm);
  }

  function UnbinStores(m: Memory, c: int, p: int, q: int, size: nat): Memory {
    Marked(Unlinked(m, p, q), c, size)
  }

  function UnbinView(v: View, i: nat, k: nat): View
    requires i < |v.ls| && k < |v.ls[i]| && v.ls[i][k] in v.h
  {
    v.(h := SetUsed(v.h, v.ls[i][k], true), ls := v.ls[i := Without(v.ls[i], k)])
  }

  lemma {:induction false} UnbinStep(m: Memory, mal: int, v: View, i: nat, k: nat)
    requires Inv(m, mal, v, 0) && i < 64 && k < |v.ls[i]| && v.ls[i][k] in v.h
    ensures var s, c := Sentinel(mal, i), v.ls[i][k];
            var m' := UnbinStores(m, c, Node(s, v.ls[i], k), Node(s, v.ls[i], k + 2), v.h[c].size);
            Inv(m', mal, UnbinView(v, i, k), 0) && Untouched(m, m', v.h, v.mm)
  {
    hide Shaped, Chained, Apart, Headers, Binned, BinsLinked, Covered, Regions, Mmaps, Untouched, Nodes, NoClash;
    var s, c := Sentinel(mal, i), v.ls[i][k];
    var p, q, size := Node(s, v.ls[i], k), Node(s, v.ls[i], k + 2), v.h[c].size;
    var m1 := Unlinked(m, p, q);
    var v1 := v.(ls := v.ls[i := Without(v.ls[i], k)]);
    Listed(v.h, v.ls, 0, i, k);
    FreeHasBody(v.h, c);
    Around(v.h, c);
    BinnedNodes(m, mal, v.h, v.arena, v.ls, 0);
    CircleNode(mal, v.ls, i, k);
    CircleNode(mal, v.ls, i, k + 2);
    NodeLinkField(mal, v, 0, i, p);
    NodeLinkField(mal, v, 0, i, q);
    UnlinkGround(m, mal, v, p, q);
    UnlinkBins(m, mal, v.arena, v.ls, i, k);
    UnbinBinned(v.h, v.ls, 0, i, k);
    AllocateKeepsTiling(v.h, c);
    AllocateCovered(v.arena, v.h, c);
    BinnedNodes(m1, mal, SetUsed(v.h, c, true), v.arena, v1.ls, 0);
    MarkGround(m1, mal, v1, c);
    MarkHeaders(m1, v.h, c);
    UntouchedSame(m, m1, Marked(m1, c, size), v.h, v.mm);
  }

  // ---- bin_chunk ----

  lemma {:induction false} AppendBinned(h: Chunks, ls: seq<seq<int>>, c: int, i: int)
    requires Binned(h, ls, c) && c in h && !h[c].used && 0 !in h && i == BinOf(h[c].size) && 0 <= i < 64
    ensures Binned(h, ls[i := ls[i] + [c]], 0)
  {
    hide BinOf;
    var lc := ls[i := ls[i] + [c]];
    forall j, k | 0 <= j < 64 && 0 <= k < |lc[j]| ensures OnList(h, j, lc[j][k], 0) {
      if j != i || k < |ls[i]| {
        assert lc[j][k] == ls[j][k];
        assert OnList(h, j, ls[j][k], c);
      }
    }
    forall j | 0 <= j < 64 ensures Distinct(lc[j]) {
      assert Distinct(ls[j]);
      forall k | 0 <= k < |ls[i]| ensures ls[i][k] != c {
        assert OnList(h, i, ls[i][k], c);
      }
    }
    assert c == lc[i][|ls[i]|];
    forall d | d in h && !h[d].used && d != 0 ensures BinOf(h[d].size) < 64 && d in lc[BinOf(h[d].size)] {
      var j := BinOf(h[d].size);
      if d != c {
        assert d in ls[j];
        var k :| 0 <= k < |ls[j]| && ls[j][k] == d;
        assert lc[j][k] == d;
      }
    }
  }

  lemma {:induction false} AppendGround(m: Memory, mal: int, v: View, s: int, p: int, c: int)
    requires Shaped(v.h) && Apart(v.h) && Covered(v.arena, v.h) && Headers(m, v.h) && Ground(m, mal, v)
    requires LinkField(mal, v.h, c, c + NEXT) && LinkField(mal, v.h, c, c + PREV)
    requires LinkField(mal, v.h, s, s + PREV) && LinkField(mal, v.h, p, p + NEXT)
    ensures var m' := Appended(m, s, p, c);
            Headers(m', v.h) && Ground(m', mal, v) && Untouched(m, m', v.h, v.mm)
  {
    hide Shaped, Apart, Headers, Covered, Ground, Untouched, LinkField;
    var m1 := m[c + NEXT := s];
    var m2 := m1[c + PREV := p];
    var m3 := m2[s + PREV := c];
    var m4 := m3[p + NEXT := c];
    LinkStore(m, mal, v, c, c + NEXT, s);
    LinkStore(m1, mal, v, c, c + PREV, p);
    LinkStore(m2, mal, v, s, s + PREV, c);
    LinkStore(m3, mal, v, p, p + NEXT, c);
    UntouchedSame(m, m1, m2, v.h, v.mm);
    UntouchedSame(m, m2, m3, v.h, v.mm);
    UntouchedSame(m, m3, m4, v.h, v.mm);
  }

  lemma {:induction false} AppendStep(m: Memory, mal: int, v: View, i: nat, c: int)
    requires Inv(m, mal, v, c) && c in v.h && !v.h[c].used
    requires i == BinOf(v.h[c].size) < 64 && Linked(m, Sentinel(mal, i), v.ls[i])
    ensures var s := Sentinel(mal, i);
            var m' := Appended(m, s, Node(s, v.ls[i], |v.ls[i]|), c);
            && Inv(m', mal, v.(ls := v.ls[i := v.ls[i] + [c]]), 0)
            && Untouched(m, m', v.h, v.mm)
  {
    hide Shaped, Chained, Apart, Headers, Binned, BinsLinked, Covered, Regions, Mmaps, Untouched, Nodes, Linked;
    hide LinkField, NodeOf, BinOf;
    var s, L := Sentinel(mal, i), v.ls[i];
    var p := Node(s, L, |L|);
    var lc := v.ls[i := L + [c]];
    var vc := v.(ls := lc);
    NoZero(v.h);
    AppendBinned(v.h, v.ls, c, i);
    BinnedNodes(m, mal, v.h, v.arena, lc, 0);
    AppendBins(m, mal, v.arena, v.ls, lc, i, c);
    CircleNode(mal, lc, i, |L|);
    CircleNode(mal, lc, i, |L| + 1);
    CircleNode(mal, lc, i, 0);
    assert Node(s, lc[i], |L|) == p && Node(s, lc[i], |L| + 1) == c && Node(s, lc[i], 0) == s;
    NodeLinkField(mal, vc, 0, i, p);
    NodeLinkField(mal, vc, 0, i, c);
    NodeLinkField(mal, vc, 0, i, s);
    AppendGround(m, mal, v, s, p, c);
  }

  // ---- trim ----

  lemma {:induction false} SplitBinned(h: Chunks, ls: seq<seq<int>>, c: int, n: nat)
    requires Binned(h, ls, 0) && c in h && h[c].used && n < h[c].size && c + h[c].size in h
    requires h[c + h[c].size].used && c + n !in h && 0 !in h
    ensures Binned(Split(h, c, n), ls, c + n)
  {
    hide BinOf;
    var g := Split(h, c, n);
    forall j, k | 0 <= j < 64 && 0 <= k < |ls[j]| ensures OnList(g, j, ls[j][k], c + n) {
      assert OnList(h, j, ls[j][k], 0);
    }
  }

  lemma {:induction false} SplitCovered(arena: set<int>, h: Chunks, c: int, n: nat)
    requires Covered(arena, h) && c in h && 0 < n < h[c].size && c + h[c].size in h
    ensures Covered(arena, Split(h, c, n))
  {
    var g := Split(h, c, n);
    forall d, a | d in g && d <= a < d + Span(g[d]) ensures a in arena {
      if d == c || d == c + n {
        assert c <= a < c + Span(h[c]);
      } else {
        assert d <= a < d + Span(h[d]);
      }
    }
  }

  lemma {:induction false} InteriorOffPayload(h: Chunks, c: int, a: int)
    requires Apart(h) && c in h && c <= a < c + h[c].size
    ensures forall x :: x in h - {c} && h[x].used ==> !(x + OVERHEAD <= a < x + h[x].size)
  {
  }

  lemma {:induction false} CoveredBody(arena: set<int>, h: Chunks, c: int)
    requires Covered(arena, h) && c in h
    ensures Covered(arena, h - {c})
    ensures forall a :: c <= a < c + h[c].size ==> a in arena
  {
  }

  lemma {:induction false} SplitGround(m: Memory, mal: int, v: View, c: int, n: nat)
    requires Nodes(mal, v.arena, v.ls) && Ground(m, mal, v) && BinsLinked(m, mal, v.ls)
    requires Shaped(v.h) && Apart(v.h) && Covered(v.arena, v.h)
    requires c in v.h && 0 < n < v.h[c].size - 8 && c + v.h[c].size in v.h
    requires (c + 8) % SIZE_ALIGN >= 16 && (c + n) % SIZE_ALIGN >= 16 && (c + n + 8) % SIZE_ALIGN >= 16
    requires (c + v.h[c].size) % SIZE_ALIGN >= 16
    ensures var m' := SplitStores(m, c, n, v.h[c].size);
            Ground(m', mal, v) && BinsLinked(m', mal, v.ls) && Untouched(m, m', v.h - {c}, v.mm)
  {
    hide Shaped, BinsLinked, Ground, Untouched, Nodes, Covered, Apart;
    var size, r := v.h[c].size, v.h - {c};
    var z := c + size;
    CoveredBody(v.arena, v.h, c);
    HeaderInArena(v.h, v.arena, z, z);
    InteriorOffPayload(v.h, c, c + n);
    InteriorOffPayload(v.h, c, c + n + 8);
    InteriorOffPayload(v.h, c, c + 8);
    HeaderOffPayload(v.h, z, z);
    var m1 := m[c + n := Word(n, true)];
    var m2 := m1[c + n + 8 := size - n];
    var m3 := m2[z := size - n];
    HeaderStore(m, mal, v, r, c + n, Word(n, true));
    HeaderStore(m1, mal, v, r, c + n + 8, size - n);
    HeaderStore(m2, mal, v, r, z, size - n);
    HeaderStore(m3, mal, v, r, c + 8, Word(n, true));
    UntouchedSame(m, m1, m2, r, v.mm);
    UntouchedSame(m, m2, m3, r, v.mm);
    UntouchedSame(m, m3, m3[c + 8 := Word(n, true)], r, v.mm);
  }

  lemma {:induction false} SplitResidues(c: int, n: nat, size: nat)
    requires c % SIZE_ALIGN == 16 && n % SIZE_ALIGN == 0 && size % SIZE_ALIGN == 0 && 0 < n < size
    ensures (c + 8) % SIZE_ALIGN >= 16 && (c + n) % SIZE_ALIGN == 16 && (c + n + 8) % SIZE_ALIGN >= 16
    ensures n < size - 8 && 8 < n
  {
    AddUnits(c, 8, 16, 8);
    AddUnits(c, n, 16, 0);
    AddUnits(c + n, 8, 16, 8);
    SubUnits(size, n, 0, 0);
    PositiveUnits(size - n);
    PositiveUnits(n);
  }

  lemma {:induction false} SplitStep(m: Memory, mal: int, v: View, c: int, n: nat)
    requires Inv(m, mal, v, 0) && c in v.h && v.h[c].used
    requires 0 < n < v.h[c].size && n % SIZE_ALIGN == 0
    requires c + v.h[c].size in v.h && v.h[c + v.h[c].size].used
    ensures var m' := SplitStores(m, c, n, v.h[c].size);
            && Inv(m', mal, v.(h := Split(v.h, c, n)), c + n)
            && Untouched(m, m', v.h - {c}, v.mm)
  {
    hide Shaped, Chained, Apart, Headers, Binned, BinsLinked, Covered, Regions, Mmaps, Untouched, Nodes, NoClash;
    Around(v.h, c);
    SplitKeepsTiling(v.h, c, n);
    InteriorIsFresh(v.h, c, c + n);
    NoZero(v.h);
    SplitBinned(v.h, v.ls, c, n);
    SplitCovered(v.arena, v.h, c, n);
    BinnedNodes(m, mal, v.h, v.arena, v.ls, 0);
    SplitResidues(c, n, v.h[c].size);
    SplitGround(m, mal, v, c, n);
    ShapedNoClash(v.h, c + n);
    SplitHeaders(m, v.h, c, n);
  }

  // ---- coalescing in __bin_chunk ----

  lemma {:induction false} FuseBinned(h: Chunks, ls: seq<seq<int>>, a: int, gone: set<int>, z: int)
    requires Binned(h, ls, 0) && Gap(h, a, gone, z) && h[a].used && h[z].used && 0 !in h
    requires forall d :: d in gone && d in h ==> h[d].used
    ensures Binned(Fuse(h, a, gone, z), ls, a)
  {
    hide BinOf;
    var g := Fuse(h, a, gone, z);
    forall j, k | 0 <= j < 64 && 0 <= k < |ls[j]| ensures OnList(g, j, ls[j][k], a) {
      assert OnList(h, j, ls[j][k], 0);
    }
  }

  lemma {:induction false} FuseCovered(arena: set<int>, h: Chunks, a: int, gone: set<int>, z: int)
    requires Covered(arena, h) && Gap(h, a, gone, z)
    requires forall b :: a <= b < z ==> b in arena
    ensures Covered(arena, Fuse(h, a, gone, z))
  {
    var g := Fuse(h, a, gone, z);
    forall d, b | d in g && d <= b < d + Span(g[d]) ensures b in arena {
      if d != a { assert d <= b < d + Span(h[d]); }
    }
  }

  lemma {:induction false} FuseGround(m: Memory, mal: int, v: View, a: int, z: int)
    requires Nodes(mal, v.arena, v.ls) && Ground(m, mal, v) && BinsLinked(m, mal, v.ls)
    requires Shaped(v.h) && Apart(v.h) && Covered(v.arena, v.h)
    requires a in v.h && z in v.h && a % SIZE_ALIGN == 16 && z % SIZE_ALIGN == 16
    ensures var m' := FuseStores(m, a, z);
            Ground(m', mal, v) && BinsLinked(m', mal, v.ls) && Untouched(m, m', v.h, v.mm)
  {
    hide Shaped, Apart, BinsLinked, Ground, Untouched, Nodes, Covered;
    HeaderInArena(v.h, v.arena, a, a + 8);
    HeaderInArena(v.h, v.arena, z, z);
    HeaderOffPayload(v.h, a, a + 8);
    HeaderOffPayload(v.h, z, z);
    var m1 := m[a + 8 := z - a];
    HeaderStore(m, mal, v, v.h, a + 8, z - a);
    HeaderStore(m1, mal, v, v.h, z, z - a);
    UntouchedSame(m, m1, FuseStores(m, a, z), v.h, v.mm);
  }

  lemma {:induction false} ChunkShape(h: Chunks, c: int)
    requires Shaped(h) && c in h
    ensures c > 0 && c % SIZE_ALIGN == 16 && NoClash(h, c)
  {
    ShapedNoClash(h, c);
  }

  lemma {:induction false} FuseStep(m: Memory, mal: int, v: View, a: int, gone: set<int>, z: int)
    requires Inv(m, mal, v, 0) && Gap(v.h, a, gone, z) && v.h[a].used && v.h[z].used
    requires forall d :: d in gone && d in v.h ==> v.h[d].used
    requires forall b :: a <= b < z ==> b in v.arena
    requires Neighbours(v.h, a) && (v.h[a].psize > 0 ==> v.h[a - v.h[a].psize].used)
    ensures var m' := FuseStores(m, a, z);
            && Inv(m', mal, v.(h := Fuse(v.h, a, gone, z)), a)
            && Untouched(m, m', v.h, v.mm)
  {
    hide Shaped, Chained, Apart, Headers, Binned, BinsLinked, Covered, Regions, Mmaps, Untouched, Nodes, NoClash;
    ChunkShape(v.h, a);
    ChunkShape(v.h, z);
    FuseKeepsTiling(v.h, a, gone, z);
    NoZero(v.h);
    FuseBinned(v.h, v.ls, a, gone, z);
    FuseCovered(v.arena, v.h, a, gone, z);
    BinnedNodes(m, mal, v.h, v.arena, v.ls, 0);
    FuseGround(m, mal, v, a, z);
    FuseHeaders(m, v.h, a, gone, z);
  }
}
