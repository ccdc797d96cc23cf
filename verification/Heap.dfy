/** The abstract heap: chunk address -> boundary tags. A zero-size in-use chunk
    is the sentinel that ends a segment; a chunk whose `psize` is 0 starts one. */
module Heap {
  import opened Sizes

  datatype Tag = Tag(psize: nat, size: nat, used: bool)
  type Chunks = map<int, Tag>
  type Memory = map<int, int>

  // ---- what every reachable heap looks like ----

  ghost predicate Shaped(h: Chunks) {
    forall c :: c in h ==> ShapeOk(c, h[c])
  }

  predicate ShapeOk(c: int, t: Tag) {
    && c > 0 && c % SIZE_ALIGN == 16
    && t.size % SIZE_ALIGN == 0 && t.psize % SIZE_ALIGN == 0
    && (t.size == 0 ==> t.used)
  }

  /** The size fields link c to its neighbours in both directions, and no two
      adjacent chunks are free. */
  ghost predicate Neighbours(h: Chunks, c: int)
    requires c in h
  {
    && (h[c].size > 0 ==>
          && c + h[c].size in h && h[c + h[c].size].psize == h[c].size
          && (h[c].used || h[c + h[c].size].used))
    && (h[c].psize > 0 ==> c - h[c].psize in h && h[c - h[c].psize].size == h[c].psize)
  }

  /** Instantiated by naming `Neighbours(h, c)`: the chain would otherwise
      unfold without end. */
  ghost predicate Chained(h: Chunks) {
    forall c {:trigger Neighbours(h, c)} :: c in h ==> Neighbours(h, c)
  }

  ghost predicate Apart(h: Chunks) {
    forall c, d :: c in h && d in h && c < d ==> c + h[c].size <= d
  }

  ghost predicate Tiled(h: Chunks) {
    Shaped(h) && Chained(h) && Apart(h)
  }

  function Span(t: Tag): nat {
    if t.size == 0 then OVERHEAD else t.size
  }

  // ---- the header words ----

  function Word(size: nat, used: bool): nat {
    if used then size + 1 else size
  }

  function PrevWord(h: Chunks, c: int): nat
    requires c in h
  {
    var p := h[c].psize;
    if p == 0 || c - p !in h then 1 else Word(p, h[c - p].used)
  }

  ghost predicate HeaderOk(m: Memory, h: Chunks, d: int)
    requires d in h
  {
    && d in m && d + 8 in m
    && m[d + 8] == Word(h[d].size, h[d].used)
    && m[d] == PrevWord(h, d)
  }

  /** Instantiated by naming `HeaderOk(m, h, c)`. */
  ghost predicate Headers(m: Memory, h: Chunks) {
    forall c {:trigger HeaderOk(m, h, c)} :: c in h ==> HeaderOk(m, h, c)
  }

  // ---- the four ways in which the heap changes ----

  function SetUsed(h: Chunks, c: int, used: bool): Chunks
    requires c in h
  {
    h[c := h[c].(used := used)]
  }

  /** Cut n bytes off the front of chunk c; the rest becomes a free chunk. */
  function Split(h: Chunks, c: int, n: nat): Chunks
    requires c in h && n < h[c].size && c + h[c].size in h
  {
    var rest := h[c].size - n;
    h[c := h[c].(size := n)]
     [c + n := Tag(n, rest, false)]
     [c + h[c].size := h[c + h[c].size].(psize := rest)]
  }

  /** Replace the chunks from a up to z by one free chunk; `gone` are the
      chunks strictly between. */
  function Fuse(h: Chunks, a: int, gone: set<int>, z: int): Chunks
    requires a in h && z in h && a < z
  {
    (h - gone)[a := Tag(h[a].psize, z - a, false)][z := h[z].(psize := z - a)]
  }

  /** Give the sentinel e a body of n bytes and put a new sentinel after it. */
  function Extend(h: Chunks, e: int, n: nat): Chunks
    requires e in h
  {
    h[e := h[e].(size := n)][e + n := Tag(n, 0, true)]
  }

  /** A new segment: one in-use chunk of n bytes and its sentinel. */
  function NewSegment(h: Chunks, c: int, n: nat): Chunks {
    h[c := Tag(0, n, true)][c + n := Tag(n, 0, true)]
  }

  // ---- tiling is kept, one conjunct at a time ----

  lemma {:induction false} AllocateChained(h: Chunks, c: int)
    requires Chained(h) && c in h
    ensures Chained(SetUsed(h, c, true))
  {
    var g := SetUsed(h, c, true);
    forall d | d in g ensures Neighbours(g, d) {
      assert Neighbours(h, d);
    }
  }

  lemma {:induction false} AllocateShaped(h: Chunks, c: int)
    requires Shaped(h) && c in h
    ensures Shaped(SetUsed(h, c, true))
  {
  }

  lemma {:induction false} AllocateApart(h: Chunks, c: int)
    requires Apart(h) && c in h
    ensures Apart(SetUsed(h, c, true))
  {
  }

  lemma {:induction false} AllocateKeepsTiling(h: Chunks, c: int)
    requires Tiled(h) && c in h
    ensures Tiled(SetUsed(h, c, true))
  {
    AllocateChained(h, c);
    AllocateShaped(h, c);
    AllocateApart(h, c);
  }

  lemma {:induction false} InteriorIsFresh(h: Chunks, c: int, d: int)
    requires Apart(h) && c in h && c < d < c + h[c].size
    ensures d !in h
  {
  }

  lemma {:induction false} SplitShaped(h: Chunks, c: int, n: nat)
    requires Shaped(h) && c in h && 0 < n < h[c].size && n % SIZE_ALIGN == 0
    requires c + h[c].size in h
    ensures Shaped(Split(h, c, n))
  {
    SplitShapes(c, h[c], n, h[c + h[c].size]);
    hide ShapeOk;
  }

  lemma SplitShapes(c: int, t: Tag, n: nat, tz: Tag)
    requires ShapeOk(c, t) && ShapeOk(c + t.size, tz) && 0 < n < t.size && n % SIZE_ALIGN == 0
    ensures ShapeOk(c, t.(size := n)) && ShapeOk(c + n, Tag(n, t.size - n, false))
    ensures ShapeOk(c + t.size, tz.(psize := t.size - n))
  {
    SplitUnits(c, n, t.size);
  }

  lemma SplitUnits(c: int, n: nat, size: nat)
    requires c % SIZE_ALIGN == 16 && n % SIZE_ALIGN == 0 && size % SIZE_ALIGN == 0
    ensures (c + n) % SIZE_ALIGN == 16 && (size - n) % SIZE_ALIGN == 0
  {
    AddUnits(c, n, 16, 0);
    SubUnits(size, n, 0, 0);
  }

  lemma {:induction false} SplitApart(h: Chunks, c: int, n: nat)
    requires Apart(h) && c in h && 0 < n < h[c].size
    requires c + h[c].size in h
    ensures Apart(Split(h, c, n))
  {
  }

  lemma {:induction false} SplitChained(h: Chunks, c: int, n: nat)
    requires Chained(h) && c in h && h[c].used && 0 < n < h[c].size
    requires Neighbours(h, c) && h[c + h[c].size].used && c + n !in h
    ensures Chained(Split(h, c, n))
  {
    var g := Split(h, c, n);
    forall d | d in g ensures Neighbours(g, d) {
      if d in h { assert Neighbours(h, d); }
    }
  }

  lemma {:induction false} SplitKeepsTiling(h: Chunks, c: int, n: nat)
    requires Tiled(h) && c in h && h[c].used
    requires 0 < n < h[c].size && n % SIZE_ALIGN == 0
    requires Neighbours(h, c) && h[c + h[c].size].used
    ensures Tiled(Split(h, c, n))
  {
    InteriorIsFresh(h, c, c + n);
    SplitShaped(h, c, n);
    SplitApart(h, c, n);
    SplitChained(h, c, n);
  }

  /** Between a and z there is nothing but `gone`. */
  ghost predicate Gap(h: Chunks, a: int, gone: set<int>, z: int) {
    && a in h && z in h && a < z
    && forall d :: d in h ==> (d in gone <==> a < d < z)
  }

  lemma {:induction false} FuseShaped(h: Chunks, a: int, gone: set<int>, z: int)
    requires Shaped(h) && a in h && z in h && a < z
    ensures Shaped(Fuse(h, a, gone, z))
  {
    FusedTags(a, h[a], z, h[z]);
    hide ShapeOk;
  }

  lemma FusedTags(a: int, ta: Tag, z: int, tz: Tag)
    requires ShapeOk(a, ta) && ShapeOk(z, tz) && a < z
    ensures ShapeOk(a, Tag(ta.psize, z - a, false)) && ShapeOk(z, tz.(psize := z - a))
  {
    SubUnits(z, a, 16, 16);
  }

  lemma {:induction false} FuseApart(h: Chunks, a: int, gone: set<int>, z: int)
    requires Apart(h) && Gap(h, a, gone, z)
    ensures Apart(Fuse(h, a, gone, z))
  {
  }

  lemma {:induction false} FuseChained(h: Chunks, a: int, gone: set<int>, z: int)
    requires Chained(h) && Apart(h) && Gap(h, a, gone, z)
    requires h[z].used
    requires Neighbours(h, a) && (h[a].psize > 0 ==> h[a - h[a].psize].used)
    ensures Chained(Fuse(h, a, gone, z))
  {
    var g := Fuse(h, a, gone, z);
    forall d | d in g ensures Neighbours(g, d) {
      assert Neighbours(h, d);
      assert d in h && (d <= a || z <= d);
      if d < a {
        assert d + h[d].size <= a;
        FuseBefore(h, a, gone, z, d);
      } else if d == a {
        FuseFirst(h, a, gone, z);
      } else if d == z {
        FuseLast(h, a, gone, z);
      } else {
        assert h[d].psize > 0 ==> z <= d - h[d].psize;
        FuseBehind(h, a, gone, z, d);
      }
    }
  }

  lemma {:induction false} FuseBefore(h: Chunks, a: int, gone: set<int>, z: int, d: int)
    requires Gap(h, a, gone, z) && d in h && d < a && d + h[d].size <= a && Neighbours(h, d) && Neighbours(h, a)
    requires h[a].psize > 0 ==> h[a - h[a].psize].used
    ensures d in Fuse(h, a, gone, z) && Neighbours(Fuse(h, a, gone, z), d)
  {
  }

  lemma {:induction false} FuseFirst(h: Chunks, a: int, gone: set<int>, z: int)
    requires Gap(h, a, gone, z) && Neighbours(h, a) && h[z].used
    ensures a in Fuse(h, a, gone, z) && Neighbours(Fuse(h, a, gone, z), a)
  {
  }

  lemma {:induction false} FuseLast(h: Chunks, a: int, gone: set<int>, z: int)
    requires Gap(h, a, gone, z) && Neighbours(h, z)
    ensures z in Fuse(h, a, gone, z) && Neighbours(Fuse(h, a, gone, z), z)
  {
  }

  lemma {:induction false} FuseBehind(h: Chunks, a: int, gone: set<int>, z: int, d: int)
    requires Gap(h, a, gone, z) && d in h && z < d && Neighbours(h, d)
    requires h[d].psize > 0 ==> z <= d - h[d].psize
    ensures d in Fuse(h, a, gone, z) && Neighbours(Fuse(h, a, gone, z), d)
  {
  }

  lemma {:induction false} FuseKeepsTiling(h: Chunks, a: int, gone: set<int>, z: int)
    requires Tiled(h) && Gap(h, a, gone, z)
    requires h[z].used
    requires Neighbours(h, a) && (h[a].psize > 0 ==> h[a - h[a].psize].used)
    ensures Tiled(Fuse(h, a, gone, z))
  {
    FuseShaped(h, a, gone, z);
    FuseApart(h, a, gone, z);
    FuseChained(h, a, gone, z);
  }

  lemma {:induction false} ExtendChained(h: Chunks, e: int, n: nat)
    requires Chained(h) && e in h && h[e].size == 0 && h[e].used
    requires n > 0 && e + n !in h
    ensures Chained(Extend(h, e, n))
  {
    var g := Extend(h, e, n);
    forall d | d in g ensures Neighbours(g, d) {
      if d in h { assert Neighbours(h, d); }
    }
  }

  lemma {:induction false} ExtendShaped(h: Chunks, e: int, n: nat)
    requires Shaped(h) && e in h && n % SIZE_ALIGN == 0
    ensures Shaped(Extend(h, e, n))
  {
    ExtendedTags(e, h[e], n);
    hide ShapeOk;
  }

  lemma ExtendedTags(e: int, t: Tag, n: nat)
    requires ShapeOk(e, t) && n % SIZE_ALIGN == 0
    ensures (n > 0 || t.used ==> ShapeOk(e, t.(size := n))) && ShapeOk(e + n, Tag(n, 0, true))
  {
    AddUnits(e, n, 16, 0);
  }

  lemma {:induction false} ExtendApart(h: Chunks, e: int, n: nat)
    requires Apart(h) && e in h && n > 0
    requires forall d :: d in h ==> d <= e || e + n < d
    ensures Apart(Extend(h, e, n))
  {
  }

  lemma {:induction false} ExtendKeepsTiling(h: Chunks, e: int, n: nat)
    requires Tiled(h) && e in h && h[e].size == 0
    requires n > 0 && n % SIZE_ALIGN == 0
    requires forall d :: d in h ==> d <= e || e + n < d
    ensures Tiled(Extend(h, e, n))
  {
    ExtendChained(h, e, n);
    ExtendShaped(h, e, n);
    ExtendApart(h, e, n);
  }

  lemma {:induction false} NewSegmentChained(h: Chunks, c: int, n: nat)
    requires Chained(h) && n > 0 && c !in h && c + n !in h
    ensures Chained(NewSegment(h, c, n))
  {
    var g := NewSegment(h, c, n);
    forall d | d in g ensures Neighbours(g, d) {
      if d in h { assert Neighbours(h, d); }
    }
  }

  lemma {:induction false} NewSegmentShaped(h: Chunks, c: int, n: nat)
    requires Shaped(h) && c > 0 && c % SIZE_ALIGN == 16 && n % SIZE_ALIGN == 0
    ensures Shaped(NewSegment(h, c, n))
  {
    ExtendedTags(c, Tag(0, 0, true), n);
    hide ShapeOk;
  }

  lemma {:induction false} NewSegmentApart(h: Chunks, c: int, n: nat)
    requires Apart(h) && n > 0
    requires forall d :: d in h ==> d + h[d].size < c || c + n < d
    ensures Apart(NewSegment(h, c, n))
  {
  }

  lemma {:induction false} NewSegmentKeepsTiling(h: Chunks, c: int, n: nat)
    requires Tiled(h) && c > 0 && c % SIZE_ALIGN == 16
    requires n > 0 && n % SIZE_ALIGN == 0
    requires forall d :: d in h ==> d + h[d].size < c || c + n < d
    ensures Tiled(NewSegment(h, c, n))
  {
    NewSegmentChained(h, c, n);
    NewSegmentShaped(h, c, n);
    NewSegmentApart(h, c, n);
  }
}
