/** Two-sided coalescing in `__bin_chunk`, on the abstract heap: which chunks the
    freed one merges with, and what the merge leaves. */
module Coalesce {
  import opened Heap
  import opened Layout
  import opened Accounting

  /** The block starts at the previous chunk if that is free; unbin has then
      marked it in use. */
  ghost predicate PrevMerged(h: Chunks, h1: Chunks, self: int, a: int) {
    self in h &&
    var p := h[self].psize;
    || (a == self && h1 == h && (p == 0 || (self - p in h && h[self - p].used)))
    || (p > 0 && a == self - p && a in h && !h[a].used && h1 == SetUsed(h, a, true))
  }

  /** Likewise for the next chunk; the block ends at z. */
  ghost predicate NextMerged(h1: Chunks, h2: Chunks, next: int, z: int) {
    next in h1 &&
    ( || (z == next && h2 == h1 && h1[next].used)
      || (!h1[next].used && h1[next].size > 0 && z == next + h1[next].size && h2 == SetUsed(h1, next, true)))
  }

  function Gone(self: int, a: int, next: int, z: int): set<int> {
    (if a == self then {} else {self}) + (if z == next then {} else {next})
  }

  /** The abstract heap after freeing: one free chunk from a to z. */
  ghost predicate Merged(h: Chunks, h1: Chunks, h2: Chunks, self: int, a: int, next: int, z: int) {
    && self in h && h[self].used && h[self].size > 0 && next == self + h[self].size
    && PrevMerged(h, h1, self, a) && NextMerged(h1, h2, next, z)
  }

  // ---- positions ----

  lemma {:induction false} MergedAround(h: Chunks, h1: Chunks, h2: Chunks, self: int, a: int, next: int, z: int)
    requires Chained(h) && Shaped(h) && Merged(h, h1, h2, self, a, next, z)
    ensures a <= self < next <= z && next in h && z in h2 && a in h2 && self in h2
    ensures h2[a].used && h2[z].used && h2[self].used && h2[self] == h[self]
    ensures a != self ==> a + h[a].size == self && h[a].size > 0
    ensures z != next ==> next + h[next].size == z && h[next].size > 0 && next in h2 && h2[next].used && !h[next].used
    ensures h2[a].psize == h[a].psize && h2[a].size == h[a].size && h2[z].psize == h[z].psize
    ensures h2[a].psize > 0 ==> a - h2[a].psize in h2 && h2[a - h2[a].psize].used
  {
    assert Neighbours(h, self) && Neighbours(h, next);
    assert Neighbours(h, a);
    if h[a].psize > 0 { assert Neighbours(h, a - h[a].psize); }
    if z != next { assert Neighbours(h, z); }
  }

  lemma {:induction false} MergedDomain(h: Chunks, h1: Chunks, h2: Chunks, self: int, a: int, next: int, z: int)
    requires Merged(h, h1, h2, self, a, next, z)
    ensures h2.Keys == h.Keys
    ensures forall d :: d in h ==> h2[d].size == h[d].size && h2[d].psize == h[d].psize
  {
  }

  lemma {:induction false} MergedGap(h: Chunks, h1: Chunks, h2: Chunks, self: int, a: int, next: int, z: int)
    requires Apart(h) && Merged(h, h1, h2, self, a, next, z)
    requires a <= self < next <= z && next in h && z in h && a in h
    requires a != self ==> a + h[a].size == self
    requires z != next ==> next + h[next].size == z
    ensures Gap(h2, a, Gone(self, a, next, z), z)
  {
    MergedDomain(h, h1, h2, self, a, next, z);
    hide Merged;
    forall d | d in h2 ensures d in Gone(self, a, next, z) <==> a < d < z {
    }
  }

  lemma {:induction false} MergedCovered(arena: set<int>, h: Chunks, self: int, a: int, next: int, z: int)
    requires Covered(arena, h) && self in h && next in h && a in h
    requires a <= self && next == self + h[self].size && next <= z
    requires a != self ==> a + h[a].size == self && h[a].size > 0
    requires h[self].size > 0 && (z != next ==> next + h[next].size == z && h[next].size > 0)
    ensures forall b :: a <= b < z ==> b in arena
  {
    forall b | a <= b < z ensures b in arena {
      if b < self {
        assert a <= b < a + Span(h[a]);
      } else if b < next {
        assert self <= b < self + Span(h[self]);
      } else {
        assert next <= b < next + Span(h[next]);
      }
    }
  }

  // ---- counting ----

  lemma {:induction false} FusedSums(h2: Chunks, self: int, a: int, next: int, z: int)
    requires a in h2 && self in h2 && next in h2 && z in h2 && a <= self < next <= z
    requires h2[a].used && h2[self].used && h2[z].used && h2[next].used
    requires next == self + h2[self].size
    requires a != self ==> a + h2[a].size == self
    requires z != next ==> next + h2[next].size == z
    ensures var f := Fuse(h2, a, Gone(self, a, next, z), z);
            Used(f) == Used(h2) - (z - a) && Free(f) == Free(h2) + (z - a)
  {
    hide Used, Free;
    var g1 := if a == self then h2 else h2 - {self};
    if a != self { DropSums(h2, self); }
    var g2 := if z == next then g1 else g1 - {next};
    if z != next { DropSums(g1, next); }
    assert g2 == h2 - Gone(self, a, next, z);
    FuseSums(g2, a, z, Tag(h2[a].psize, z - a, false), h2[z].(psize := z - a));
  }

  lemma {:induction false} MergedSums(h: Chunks, h1: Chunks, h2: Chunks, self: int, a: int, next: int, z: int)
    requires Merged(h, h1, h2, self, a, next, z) && next in h
    ensures Used(h2) == Used(h) + (if a == self then 0 else h[a].size) + (if z == next then 0 else h[next].size)
    ensures Free(h2) == Free(h) - (if a == self then 0 else h[a].size) - (if z == next then 0 else h[next].size)
  {
    hide Used, Free;
    if a != self { AllocateSums(h, a); }
    if z != next { AllocateSums(h1, next); }
  }

  // ---- the client's view ----

  lemma {:induction false} MergedLive(h: Chunks, h1: Chunks, h2: Chunks, self: int, a: int, next: int, z: int)
    requires Merged(h, h1, h2, self, a, next, z) && a in h2 && z in h2 && a < z && a <= self < next <= z
    ensures LiveHeap(Fuse(h2, a, Gone(self, a, next, z), z)) == LiveHeap(h) - {self}
  {
    var gone := Gone(self, a, next, z);
    LiveFuse(h2, a, gone, z);
    var l, l2 := LiveHeap(h), LiveHeap(h2);
    forall x | x in l2 - gone - {a} ensures x in l - {self} && l2[x] == l[x] {
    }
    forall x | x in l - {self} ensures x in l2 - gone - {a} {
    }
    assert l2 - gone - {a} == l - {self};
  }

  lemma {:induction false} SentinelSurvives(h: Chunks, h1: Chunks, h2: Chunks, self: int, a: int, next: int, z: int, e: int)
    requires Merged(h, h1, h2, self, a, next, z) && a in h2 && z in h2 && a < z
    requires h2[a].size > 0 && (z != next ==> h[next].size > 0) && next in h
    requires e in h && h[e].size == 0
    ensures var f := Fuse(h2, a, Gone(self, a, next, z), z);
            e in f && f[e].size == 0
  {
  }
}
