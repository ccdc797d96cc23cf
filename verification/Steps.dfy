/** The header stores of each operation and the abstract heap they produce. */
module Steps {
  import opened Sizes
  import opened Heap

  /** No header word of one chunk is a header word of another, nor of `extra`. */
  ghost predicate NoClash(h: Chunks, extra: int) {
    forall d :: d in h ==> d != extra + 8 && d + 8 != extra
  }

  lemma {:induction false} ShapedNoClash(h: Chunks, extra: int)
    requires Shaped(h) && extra % SIZE_ALIGN == 16
    ensures NoClash(h, extra)
  {
    AddUnits(extra, 8, 16, 8);
    forall d | d in h ensures d != extra + 8 && d + 8 != extra {
      AddUnits(d, 8, 16, 8);
    }
  }

  /** unbin: `c->csize |= 1; NEXT_CHUNK(c)->psize |= 1`. */
  function Marked(m: Memory, c: int, size: nat): Memory {
    m[c + 8 := Word(size, true)][c + size := Word(size, true)]
  }

  lemma {:induction false} MarkHeaders(m: Memory, h: Chunks, c: int)
    requires Headers(m, h) && Chained(h) && c in h && h[c].size > 0
    requires NoClash(h, c) && NoClash(h, c + h[c].size)
    ensures Headers(Marked(m, c, h[c].size), SetUsed(h, c, true))
  {
    var g, m' := SetUsed(h, c, true), Marked(m, c, h[c].size);
    assert Neighbours(h, c);
    forall d | d in g ensures HeaderOk(m', g, d) {
      assert Neighbours(h, d) && HeaderOk(m, h, d);
    }
  }

  /** trim: the four header stores of the split. */
  function SplitStores(m: Memory, c: int, n: nat, size: nat): Memory
  {
    m[c + n := Word(n, true)][c + n + 8 := size - n][c + size := size - n][c + 8 := Word(n, true)]
  }

  lemma {:induction false} SplitHeaders(m: Memory, h: Chunks, c: int, n: nat)
    requires Headers(m, h) && Chained(h) && c in h && h[c].used
    requires 8 < n < h[c].size - 8 && c + n !in h && c + h[c].size in h
    requires NoClash(h, c) && NoClash(h, c + n) && NoClash(h, c + h[c].size)
    ensures Headers(SplitStores(m, c, n, h[c].size), Split(h, c, n))
  {
    var g, m' := Split(h, c, n), SplitStores(m, c, n, h[c].size);
    assert Neighbours(h, c);
    forall d | d in g ensures HeaderOk(m', g, d) {
      if d in h { assert Neighbours(h, d) && HeaderOk(m, h, d); }
    }
  }

  /** __bin_chunk: `self->csize = size; next->psize = size`. */
  function FuseStores(m: Memory, a: int, z: int): Memory {
    m[a + 8 := z - a][z := z - a]
  }

  lemma {:induction false} FuseHeaders(m: Memory, h: Chunks, a: int, gone: set<int>, z: int)
    requires Headers(m, h) && Chained(h) && Apart(h) && Gap(h, a, gone, z)
    requires NoClash(h, a) && NoClash(h, z)
    ensures Headers(FuseStores(m, a, z), Fuse(h, a, gone, z))
  {
    var g, m' := Fuse(h, a, gone, z), FuseStores(m, a, z);
    forall d | d in g ensures HeaderOk(m', g, d) {
      assert d in h && (d <= a || z <= d);
      assert Neighbours(h, d) && HeaderOk(m, h, d);
      assert z < d && h[d].psize > 0 ==> z <= d - h[d].psize;
      hide Headers, Chained, Apart;
      FuseHeader(m, h, a, gone, z, d);
    }
  }

  lemma {:induction false} FuseHeader(m: Memory, h: Chunks, a: int, gone: set<int>, z: int, d: int)
    requires Gap(h, a, gone, z) && NoClash(h, a) && NoClash(h, z)
    requires d in h && (d <= a || z <= d) && Neighbours(h, d) && HeaderOk(m, h, d)
    requires z < d && h[d].psize > 0 ==> z <= d - h[d].psize
    ensures d in Fuse(h, a, gone, z) && HeaderOk(FuseStores(m, a, z), Fuse(h, a, gone, z), d)
  {
  }

  /** expand_heap in place: footer at e + n, then the header at e. */
  function ExtendStores(m: Memory, e: int, n: nat): Memory {
    m[e + n := Word(n, true)][e + n + 8 := Word(0, true)][e + 8 := Word(n, true)]
  }

  lemma {:induction false} ExtendHeaders(m: Memory, h: Chunks, e: int, n: nat)
    requires Headers(m, h) && Chained(h) && e in h && h[e].size == 0 && h[e].used
    requires n > 8 && e + n !in h && NoClash(h, e) && NoClash(h, e + n)
    ensures Headers(ExtendStores(m, e, n), Extend(h, e, n))
  {
    var g, m' := Extend(h, e, n), ExtendStores(m, e, n);
    forall d | d in g ensures HeaderOk(m', g, d) {
      if d in h { assert Neighbours(h, d) && HeaderOk(m, h, d); }
    }
  }

  /** expand_heap elsewhere: the same stores after `w->psize = 0 | C_INUSE`. */
  lemma {:induction false} NewSegmentHeaders(m: Memory, h: Chunks, c: int, n: nat)
    requires Headers(m, h) && Chained(h)
    requires n > 8 && c !in h && c + n !in h && NoClash(h, c) && NoClash(h, c + n)
    ensures Headers(ExtendStores(m[c := Word(0, true)], c, n), NewSegment(h, c, n))
  {
    var g, m' := NewSegment(h, c, n), ExtendStores(m[c := Word(0, true)], c, n);
    forall d | d in g ensures HeaderOk(m', g, d) {
      if d in h { assert Neighbours(h, d) && HeaderOk(m, h, d); }
    }
  }
}
