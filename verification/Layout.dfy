/** How the abstract heap, the bins and the bitmap lie in memory, and which
    stores disturb which part. */
module Layout {
  import opened Sizes
  import opened Heap
  import opened FreeList
  import BinIndex

  /** sizeof(mal) up to the last bin: the bitmap and 64 bins of 24 bytes. */
  const MAL_SIZE: nat := 8 + 64 * 24

  /** BIN_TO_CHUNK(i): a chunk whose `next` and `prev` fields are the bin's
      `head` and `tail`. */
  function Sentinel(mal: int, i: int): int {
    mal + 24 * i
  }

  function BinOf(size: int): nat {
    if BinIndex.IsSize(size) then BinIndex.Index(size) else 0
  }

  // ---- the free lists ----

  ghost predicate OnList(h: Chunks, i: int, c: int, skip: int) {
    c in h && !h[c].used && BinOf(h[c].size) == i && c != skip
  }

  /** A chunk is on list i exactly when it is free and of that size class,
      except for the chunk `skip` that is free but not yet binned. */
  ghost predicate Binned(h: Chunks, ls: seq<seq<int>>, skip: int) {
    && |ls| == 64
    && (forall i, k :: 0 <= i < 64 && 0 <= k < |ls[i]| ==> OnList(h, i, ls[i][k], skip))
    && (forall i :: 0 <= i < 64 ==> Distinct(ls[i]))
    && (forall c :: c in h && !h[c].used && c != skip ==>
          BinOf(h[c].size) < 64 && c in ls[BinOf(h[c].size)])
  }

  ghost predicate BinReady(m: Memory, s: int, L: seq<int>) {
    && s + NEXT in m && s + PREV in m
    && (Linked(m, s, L) || (L == [] && m[s + NEXT] == 0 && m[s + PREV] == 0))
  }

  ghost predicate BinsLinked(m: Memory, mal: int, ls: seq<seq<int>>) {
    |ls| == 64 && forall i :: 0 <= i < 64 ==> BinReady(m, Sentinel(mal, i), ls[i])
  }

  ghost predicate Bitmap(binmap: nat, ls: seq<seq<int>>) {
    && |ls| == 64 && binmap < Bits.WORD
    && forall i :: 0 <= i < 64 ==> (Bits.Bit(binmap, i) <==> ls[i] != [])
  }

  // ---- regions of memory ----

  /** The arena holds every byte of every chunk and every sentinel header. */
  ghost predicate Covered(arena: set<int>, h: Chunks) {
    forall c, a :: c in h && c <= a < c + Span(h[c]) ==> a in arena
  }

  ghost predicate Static(mal: int, a: int) {
    mal <= a < mal + MAL_SIZE
  }

  ghost predicate Regions(m: Memory, mal: int, arena: set<int>) {
    && mal > 0
    && (forall a :: a in arena ==> a in m && !Static(mal, a))
    && (forall a :: Static(mal, a) ==> a in m)
  }

  /** Chunks mapped on their own: address -> size. */
  ghost predicate Mmaps(m: Memory, mal: int, arena: set<int>, mm: map<int, int>) {
    MmapSizes(mm) && MmapWords(m, mm) && MmapRegions(m, mal, arena, mm) && MmapsApart(mm)
  }

  ghost predicate MmapSizes(mm: map<int, int>) {
    forall d :: d in mm ==> d > 16 && d % SIZE_ALIGN == 16 && mm[d] >= 32 && mm[d] % SIZE_ALIGN == 16
  }

  ghost predicate MmapWords(m: Memory, mm: map<int, int>) {
    forall d :: d in mm ==> d in m && d + 8 in m && m[d] == 16 && m[d + 8] == mm[d]
  }

  ghost predicate MmapRegions(m: Memory, mal: int, arena: set<int>, mm: map<int, int>) {
    forall d, a :: d in mm && d - 16 <= a < d + mm[d] ==> a in m && a !in arena && !Static(mal, a)
  }

  ghost predicate MmapsApart(mm: map<int, int>) {
    forall d, e :: d in mm && e in mm && d < e ==> d + mm[d] <= e - 16
  }

  /** No word of a live payload differs between m and m'. */
  ghost predicate Untouched(m: Memory, m': Memory, h: Chunks, mm: map<int, int>) {
    && (forall x, a :: x in h && h[x].used && x + OVERHEAD <= a < x + h[x].size ==>
          a in m && a in m' && m'[a] == m[a])
    && (forall x, a :: x in mm && x + OVERHEAD <= a < x + mm[x] ==>
          a in m && a in m' && m'[a] == m[a])
  }

  // ---- what a store to a header word leaves alone ----

  ghost predicate HeaderField(h: Chunks, d: int, a: int) {
    d in h && (a == d || a == d + 8)
  }

  /** Address a is no link field of the bin. */
  ghost predicate OffBin(s: int, L: seq<int>, a: int) {
    && a != s + NEXT && a != s + PREV
    && forall k :: 0 <= k < |L| ==> L[k] != a - NEXT && L[k] != a - PREV
  }

  lemma {:induction false} OffBinStore(m: Memory, s: int, L: seq<int>, a: int, v: int)
    requires BinReady(m, s, L) && OffBin(s, L, a) && a in m
    ensures BinReady(m[a := v], s, L)
  {
    if Linked(m, s, L) {
      var m' := m[a := v];
      forall k | 0 <= k <= |L| ensures Link(m', s, L, k) {
        assert Link(m, s, L, k);
      }
    }
  }

  lemma {:induction false} OffBinAppended(m: Memory, s: int, p: int, c: int, t: int, L: seq<int>)
    requires BinReady(m, t, L)
    requires OffBin(t, L, c + NEXT) && OffBin(t, L, c + PREV) && OffBin(t, L, s + PREV) && OffBin(t, L, p + NEXT)
    requires c + NEXT in m && c + PREV in m && s + PREV in m && p + NEXT in m
    ensures BinReady(Appended(m, s, p, c), t, L)
  {
    var m1 := m[c + NEXT := s];
    var m2 := m1[c + PREV := p];
    var m3 := m2[s + PREV := c];
    OffBinStore(m, t, L, c + NEXT, s);
    OffBinStore(m1, t, L, c + PREV, p);
    OffBinStore(m2, t, L, s + PREV, c);
    OffBinStore(m3, t, L, p + NEXT, c);
  }

  lemma {:induction false} HeaderInArena(h: Chunks, arena: set<int>, d: int, a: int)
    requires Shaped(h) && Covered(arena, h) && HeaderField(h, d, a)
    ensures a in arena
  {
    assert d <= a < d + Span(h[d]);
  }

  /** Any store into the arena or the bins keeps the region structure. */
  lemma {:induction false} StoreRegions(m: Memory, mal: int, arena: set<int>, mm: map<int, int>, a: int, v: int)
    requires Regions(m, mal, arena) && Mmaps(m, mal, arena, mm)
    requires a in arena || Static(mal, a)
    ensures Regions(m[a := v], mal, arena) && Mmaps(m[a := v], mal, arena, mm)
    ensures forall x, b :: x in mm && x + OVERHEAD <= b < x + mm[x] ==>
              b in m && b in m[a := v] && m[a := v][b] == m[b]
  {
    forall d | d in mm ensures d != a && d + 8 != a {
      assert d - 16 <= d < d + mm[d] && d - 16 <= d + 8 < d + mm[d];
    }
  }

  /** A store that hits no in-use payload. */
  lemma {:induction false} StoreUntouched(m: Memory, mal: int, h: Chunks, arena: set<int>,
                                          mm: map<int, int>, a: int, v: int)
    requires Covered(arena, h) && Regions(m, mal, arena) && Mmaps(m, mal, arena, mm)
    requires a in arena || Static(mal, a)
    requires forall x :: x in h && h[x].used ==> !(x + OVERHEAD <= a < x + h[x].size)
    ensures Untouched(m, m[a := v], h, mm)
  {
    StoreRegions(m, mal, arena, mm, a, v);
    forall x, b | x in h && h[x].used && x + OVERHEAD <= b < x + h[x].size
      ensures b in m && b in m[a := v] && m[a := v][b] == m[b]
    {
      assert x <= b < x + Span(h[x]);
    }
  }

  lemma {:induction false} HeaderOffPayload(h: Chunks, d: int, a: int)
    requires Apart(h) && HeaderField(h, d, a)
    ensures forall x :: x in h && h[x].used ==> !(x + OVERHEAD <= a < x + h[x].size)
  {
  }

  /** A link field: in the bin array, or in the body of a free chunk x. */
  ghost predicate LinkField(mal: int, h: Chunks, x: int, a: int) {
    Static(mal, a) || (x in h && !h[x].used && (a == x + NEXT || a == x + PREV))
  }

  lemma {:induction false} LinkOffPayload(mal: int, h: Chunks, arena: set<int>, x: int, a: int)
    requires Shaped(h) && Apart(h) && Covered(arena, h) && LinkField(mal, h, x, a)
    requires forall b :: b in arena ==> !Static(mal, b)
    ensures a in arena || Static(mal, a)
    ensures forall y :: y in h && h[y].used ==> !(y + OVERHEAD <= a < y + h[y].size)
  {
    if Static(mal, a) {
      assert forall y :: y in h && y + OVERHEAD <= a < y + h[y].size ==> a in arena;
    } else {
      assert h[x].size >= 32;
      assert x <= a < x + Span(h[x]);
    }
  }

  lemma {:induction false} LinkStoreHeaders(m: Memory, mal: int, h: Chunks, arena: set<int>, x: int, a: int, v: int)
    requires Shaped(h) && Covered(arena, h) && Regions(m, mal, arena)
    requires LinkField(mal, h, x, a) && Headers(m, h)
    ensures Headers(m[a := v], h)
  {
    var m' := m[a := v];
    forall c | c in h ensures HeaderOk(m', h, c) {
      assert HeaderOk(m, h, c);
      HeaderInArena(h, arena, c, c);
      HeaderInArena(h, arena, c, c + 8);
    }
  }

  // ---- what a store to a link field of bin i does to the bins ----

  ghost predicate NodeOk(arena: set<int>, c: int) {
    && c % SIZE_ALIGN == 16
    && c in arena && c + 8 in arena && c + NEXT in arena && c + PREV in arena
  }

  /** All that list surgery needs to know about the addresses on the lists. */
  ghost predicate Nodes(mal: int, arena: set<int>, ls: seq<seq<int>>) {
    && |ls| == 64
    && (forall a :: a in arena ==> !Static(mal, a))
    && (forall i, k :: 0 <= i < 64 && 0 <= k < |ls[i]| ==> NodeOk(arena, ls[i][k]))
    && (forall i :: 0 <= i < 64 ==> Distinct(ls[i]))
    && (forall i, j, k, l :: 0 <= i < j < 64 && 0 <= k < |ls[i]| && 0 <= l < |ls[j]| ==> ls[i][k] != ls[j][l])
  }

  lemma {:induction false} ListedChunk(h: Chunks, arena: set<int>, i: int, x: int, skip: int)
    requires Shaped(h) && Covered(arena, h) && OnList(h, i, x, skip)
    ensures NodeOk(arena, x) && h[x].size >= 32
  {
    assert x <= x + NEXT < x + Span(h[x]) && x <= x + PREV < x + Span(h[x]);
    assert x <= x + 8 < x + Span(h[x]) && x <= x < x + Span(h[x]);
  }

  lemma {:induction false} BinnedNodes(m: Memory, mal: int, h: Chunks, arena: set<int>,
                                       ls: seq<seq<int>>, skip: int)
    requires Shaped(h) && Covered(arena, h) && Regions(m, mal, arena) && Binned(h, ls, skip)
    ensures Nodes(mal, arena, ls)
  {
    forall i, k | 0 <= i < 64 && 0 <= k < |ls[i]| ensures NodeOk(arena, ls[i][k]) {
      ListedChunk(h, arena, i, ls[i][k], skip);
    }
    forall i, j, k, l | 0 <= i < j < 64 && 0 <= k < |ls[i]| && 0 <= l < |ls[j]|
      ensures ls[i][k] != ls[j][l]
    {
      assert OnList(h, i, ls[i][k], skip) && OnList(h, j, ls[j][l], skip);
    }
  }

  ghost predicate NodeOf(mal: int, ls: seq<seq<int>>, i: int, x: int)
    requires 0 <= i < |ls|
  {
    x == Sentinel(mal, i) || exists k :: 0 <= k < |ls[i]| && ls[i][k] == x
  }

  lemma {:induction false} CircleNode(mal: int, ls: seq<seq<int>>, i: int, k: int)
    requires 0 <= i < |ls|
    ensures NodeOf(mal, ls, i, Node(Sentinel(mal, i), ls[i], k))
  {
  }

  lemma {:induction false} ResiduesApart(c: int, d: int)
    requires c % SIZE_ALIGN == 16 && d % SIZE_ALIGN == 16
    ensures c + 8 != d
  {
  }

  lemma {:induction false} SentinelApart(mal: int, i: int, j: int)
    requires 0 <= i < 64 && 0 <= j < 64
    ensures Static(mal, Sentinel(mal, i)) && Static(mal, Sentinel(mal, i) + 8)
    ensures Static(mal, Sentinel(mal, i) + NEXT) && Static(mal, Sentinel(mal, i) + PREV)
    ensures Sentinel(mal, i) + NEXT != Sentinel(mal, j) + PREV
    ensures i != j ==> Sentinel(mal, i) != Sentinel(mal, j)
  {
  }

  lemma {:induction false} BinSeparate(mal: int, arena: set<int>, ls: seq<seq<int>>, i: int)
    requires Nodes(mal, arena, ls) && 0 <= i < 64
    ensures Separate(Sentinel(mal, i), ls[i])
  {
    var s, L := Sentinel(mal, i), ls[i];
    SentinelApart(mal, i, i);
    forall k | 0 <= k < |L| ensures L[k] != s && L[k] != s + 8 && L[k] + 8 != s {
      assert NodeOk(arena, L[k]);
    }
    forall j, k | 0 <= j < |L| && 0 <= k < |L| ensures L[j] != L[k] + 8 {
      assert NodeOk(arena, L[j]) && NodeOk(arena, L[k]);
      ResiduesApart(L[k], L[j]);
    }
  }

  /** The link fields of a node of bin i are not those of bin j. */
  lemma {:induction false} NodeOffBin(mal: int, arena: set<int>, ls: seq<seq<int>>, i: int, j: int, x: int)
    requires Nodes(mal, arena, ls)
    requires 0 <= i < 64 && 0 <= j < 64 && i != j && NodeOf(mal, ls, i, x)
    ensures OffBin(Sentinel(mal, j), ls[j], x + NEXT) && OffBin(Sentinel(mal, j), ls[j], x + PREV)
  {
    SentinelApart(mal, i, j);
    SentinelApart(mal, j, i);
    if x == Sentinel(mal, i) {
      forall k | 0 <= k < |ls[j]| ensures ls[j][k] != x && ls[j][k] != x + 8 && ls[j][k] + 8 != x {
        assert NodeOk(arena, ls[j][k]);
      }
    } else {
      var l :| 0 <= l < |ls[i]| && ls[i][l] == x;
      assert NodeOk(arena, ls[i][l]);
      forall k | 0 <= k < |ls[j]| ensures ls[j][k] != x && ls[j][k] != x + 8 && ls[j][k] + 8 != x {
        assert NodeOk(arena, ls[j][k]);
        ResiduesApart(x, ls[j][k]);
        ResiduesApart(ls[j][k], x);
      }
    }
  }

  lemma {:induction false} NodeMapped(m: Memory, mal: int, arena: set<int>, ls: seq<seq<int>>, i: int, x: int)
    requires Nodes(mal, arena, ls) && Regions(m, mal, arena) && 0 <= i < 64 && NodeOf(mal, ls, i, x)
    ensures x + NEXT in m && x + PREV in m
  {
    if x == Sentinel(mal, i) { SentinelApart(mal, i, i); }
  }

  /** A header word, at 16 or 24 modulo 32, is no link field. */
  lemma {:induction false} HeaderOffBin(mal: int, arena: set<int>, ls: seq<seq<int>>, a: int, i: int)
    requires Nodes(mal, arena, ls) && a in arena && a % SIZE_ALIGN >= 16 && 0 <= i < 64
    ensures OffBin(Sentinel(mal, i), ls[i], a)
  {
    SentinelApart(mal, i, i);
    forall k | 0 <= k < |ls[i]| ensures ls[i][k] != a - NEXT && ls[i][k] != a - PREV {
      assert NodeOk(arena, ls[i][k]);
    }
  }

  lemma {:induction false} HeaderStoreBins(m: Memory, mal: int, arena: set<int>, ls: seq<seq<int>>, a: int, v: int)
    requires Nodes(mal, arena, ls) && Regions(m, mal, arena) && BinsLinked(m, mal, ls)
    requires a in arena && a % SIZE_ALIGN >= 16
    ensures BinsLinked(m[a := v], mal, ls)
  {
    forall i | 0 <= i < 64 ensures BinReady(m[a := v], Sentinel(mal, i), ls[i]) {
      HeaderOffBin(mal, arena, ls, a, i);
      OffBinStore(m, Sentinel(mal, i), ls[i], a, v);
    }
  }

  lemma {:induction false} UnlinkOther(m: Memory, mal: int, arena: set<int>, ls: seq<seq<int>>,
                                       i: int, j: int, p: int, q: int)
    requires Nodes(mal, arena, ls) && Regions(m, mal, arena)
    requires 0 <= i < 64 && 0 <= j < 64 && i != j && NodeOf(mal, ls, i, p) && NodeOf(mal, ls, i, q)
    requires BinReady(m, Sentinel(mal, j), ls[j])
    ensures BinReady(Unlinked(m, p, q), Sentinel(mal, j), ls[j])
  {
    NodeMapped(m, mal, arena, ls, i, p);
    NodeMapped(m, mal, arena, ls, i, q);
    NodeOffBin(mal, arena, ls, i, j, p);
    NodeOffBin(mal, arena, ls, i, j, q);
    OffBinStore(m, Sentinel(mal, j), ls[j], p + NEXT, q);
    OffBinStore(m[p + NEXT := q], Sentinel(mal, j), ls[j], q + PREV, p);
  }

  lemma {:induction false} UnlinkThis(m: Memory, mal: int, arena: set<int>, ls: seq<seq<int>>, i: int, k: nat)
    requires Nodes(mal, arena, ls)
    requires 0 <= i < 64 && k < |ls[i]| && BinReady(m, Sentinel(mal, i), ls[i])
    ensures var s := Sentinel(mal, i);
            BinReady(Unlinked(m, Node(s, ls[i], k), Node(s, ls[i], k + 2)), s, Without(ls[i], k))
  {
    BinSeparate(mal, arena, ls, i);
    UnlinkLemma(m, Sentinel(mal, i), ls[i], k);
  }

  /** `unbin`'s list surgery on element k of bin i. */
  lemma {:induction false} UnlinkBins(m: Memory, mal: int, arena: set<int>, ls: seq<seq<int>>, i: int, k: nat)
    requires Nodes(mal, arena, ls) && Regions(m, mal, arena)
    requires BinsLinked(m, mal, ls) && 0 <= i < 64 && k < |ls[i]|
    ensures var s := Sentinel(mal, i);
            BinsLinked(Unlinked(m, Node(s, ls[i], k), Node(s, ls[i], k + 2)), mal, ls[i := Without(ls[i], k)])
  {
    var s, L := Sentinel(mal, i), ls[i];
    var p, q := Node(s, L, k), Node(s, L, k + 2);
    CircleNode(mal, ls, i, k);
    CircleNode(mal, ls, i, k + 2);
    UnlinkThis(m, mal, arena, ls, i, k);
    forall j | 0 <= j < 64 ensures BinReady(Unlinked(m, p, q), Sentinel(mal, j), ls[i := Without(L, k)][j]) {
      if j != i { UnlinkOther(m, mal, arena, ls, i, j, p, q); }
    }
  }

  lemma {:induction false} AppendOther(m: Memory, mal: int, arena: set<int>, ls: seq<seq<int>>,
                                       i: int, j: int, p: int, c: int)
    requires Nodes(mal, arena, ls) && Regions(m, mal, arena)
    requires 0 <= i < 64 && 0 <= j < 64 && i != j && NodeOf(mal, ls, i, p) && NodeOf(mal, ls, i, c)
    requires BinReady(m, Sentinel(mal, j), ls[j])
    ensures BinReady(Appended(m, Sentinel(mal, i), p, c), Sentinel(mal, j), ls[j])
  {
    var s, t := Sentinel(mal, i), Sentinel(mal, j);
    NodeMapped(m, mal, arena, ls, i, p);
    NodeMapped(m, mal, arena, ls, i, c);
    NodeMapped(m, mal, arena, ls, i, s);
    NodeOffBin(mal, arena, ls, i, j, p);
    NodeOffBin(mal, arena, ls, i, j, c);
    NodeOffBin(mal, arena, ls, i, j, s);
    OffBinAppended(m, s, p, c, t, ls[j]);
  }

  /** `bin_chunk`'s list surgery: c goes to the tail of bin i. Here `lc` are the
      lists with c already added. */
  lemma {:induction false} AppendBins(m: Memory, mal: int, arena: set<int>, ls: seq<seq<int>>,
                                      lc: seq<seq<int>>, i: int, c: int)
    requires |ls| == 64 && 0 <= i < 64 && lc == ls[i := ls[i] + [c]]
    requires Nodes(mal, arena, lc) && Regions(m, mal, arena)
    requires BinsLinked(m, mal, ls) && Linked(m, Sentinel(mal, i), ls[i])
    ensures var s := Sentinel(mal, i);
            BinsLinked(Appended(m, s, Node(s, ls[i], |ls[i]|), c), mal, lc)
  {
    var s, L := Sentinel(mal, i), ls[i];
    var p := Node(s, L, |L|);
    assert lc[i] == L + [c];
    BinSeparate(mal, arena, lc, i);
    AppendLemma(m, s, L, c);
    Head(Appended(m, s, p, c), s, L + [c]);
    CircleNode(mal, lc, i, |L|);
    CircleNode(mal, lc, i, |L| + 1);
    assert Node(s, lc[i], |L|) == p && Node(s, lc[i], |L| + 1) == c;
    forall j | 0 <= j < 64 ensures BinReady(Appended(m, s, p, c), Sentinel(mal, j), lc[j]) {
      if j != i {
        assert lc[j] == ls[j];
        AppendOther(m, mal, arena, lc, i, j, p, c);
      }
    }
  }
}
