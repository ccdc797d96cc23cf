/** Byte counts over the heap, and the view a client has of it: which chunks
    are live and how large they are. */
module Accounting {
  import opened Sizes
  import opened Heap
  import opened Layout
  import opened Invariant

  // ---- sums over finite maps ----

  ghost function Sum<V(!new)>(m: map<int, V>, w: V -> int): int {
    if m.Keys == {} then 0 else
      NonEmpty(m.Keys);
      var c :| c in m.Keys;
      w(m[c]) + Sum(m - {c}, w)
  }

  lemma NonEmpty(s: set<int>)
    requires s != {}
    ensures exists c :: c in s
  {
    assert (forall c :: c !in s) ==> s == {};
  }

  lemma {:induction false} SumPick<V(!new)>(m: map<int, V>, w: V -> int, c: int) returns (d: int)
    requires c in m
    ensures d in m && Sum(m, w) == w(m[d]) + Sum(m - {d}, w)
  {
    d :| d in m.Keys && Sum(m, w) == w(m[d]) + Sum(m - {d}, w);
  }

  lemma {:induction false} SumRemove<V(!new)>(m: map<int, V>, w: V -> int, c: int)
    requires c in m
    ensures Sum(m, w) == w(m[c]) + Sum(m - {c}, w)
    decreases |m|
  {
    var d := SumPick(m, w, c);
    hide Sum;
    if d != c {
      SumRemove(m - {d}, w, c);
      SumRemove(m - {c}, w, d);
      assert (m - {d}) - {c} == (m - {c}) - {d};
    }
  }

  lemma {:induction false} SumSet<V(!new)>(m: map<int, V>, w: V -> int, c: int, t: V)
    ensures Sum(m[c := t], w) == Sum(m, w) - (if c in m then w(m[c]) else 0) + w(t)
  {
    SumRemove(m[c := t], w, c);
    assert m[c := t] - {c} == m - {c};
    if c in m {
      SumRemove(m, w, c);
    } else {
      assert m - {c} == m;
    }
  }

  function UsedSize(t: Tag): int { if t.used then t.size else 0 }
  function FreeSize(t: Tag): int { if t.used then 0 else t.size }
  function Identity(n: int): int { n }

  ghost function Used(h: Chunks): int { Sum(h, UsedSize) }
  ghost function Free(h: Chunks): int { Sum(h, FreeSize) }
  ghost function Mapped(mm: map<int, int>): int { Sum(mm, Identity) }

  lemma {:induction false} AllocateSums(h: Chunks, c: int)
    requires c in h && !h[c].used
    ensures Used(SetUsed(h, c, true)) == Used(h) + h[c].size
    ensures Free(SetUsed(h, c, true)) == Free(h) - h[c].size
  {
    SumSet(h, UsedSize, c, h[c].(used := true));
    SumSet(h, FreeSize, c, h[c].(used := true));
  }

  lemma {:induction false} SplitSums(h: Chunks, c: int, n: nat)
    requires c in h && h[c].used && 0 < n < h[c].size && c + h[c].size in h && c + n !in h
    ensures Used(Split(h, c, n)) == Used(h) - (h[c].size - n)
    ensures Free(Split(h, c, n)) == Free(h) + (h[c].size - n)
  {
    var z, rest := c + h[c].size, h[c].size - n;
    var h1 := h[c := h[c].(size := n)];
    var h2 := h1[c + n := Tag(n, rest, false)];
    SumSet(h, UsedSize, c, h[c].(size := n));
    SumSet(h1, UsedSize, c + n, Tag(n, rest, false));
    SumSet(h2, UsedSize, z, h[z].(psize := rest));
    SumSet(h, FreeSize, c, h[c].(size := n));
    SumSet(h1, FreeSize, c + n, Tag(n, rest, false));
    SumSet(h2, FreeSize, z, h[z].(psize := rest));
  }

  /** Dropping one in-use chunk. */
  lemma {:induction false} DropSums(h: Chunks, d: int)
    requires d in h && h[d].used
    ensures Used(h - {d}) == Used(h) - h[d].size
    ensures Free(h - {d}) == Free(h)
  {
    SumRemove(h, UsedSize, d);
    SumRemove(h, FreeSize, d);
  }

  /** The header updates of a merge, once the chunks in between are dropped. */
  lemma {:induction false} FuseSums(g: Chunks, a: int, z: int, ta: Tag, tz: Tag)
    requires a in g && z in g && a != z && g[a].used && g[z].used
    requires !ta.used && tz == g[z].(psize := ta.size)
    ensures Used(g[a := ta][z := tz]) == Used(g) - g[a].size
    ensures Free(g[a := ta][z := tz]) == Free(g) + ta.size
  {
    SumSet(g, UsedSize, a, ta);
    SumSet(g[a := ta], UsedSize, z, tz);
    SumSet(g, FreeSize, a, ta);
    SumSet(g[a := ta], FreeSize, z, tz);
  }

  lemma {:induction false} ExtendSums(h: Chunks, e: int, n: nat)
    requires e in h && h[e].used && h[e].size == 0 && n > 0 && e + n !in h
    ensures Used(Extend(h, e, n)) == Used(h) + n && Free(Extend(h, e, n)) == Free(h)
  {
    var h1 := h[e := h[e].(size := n)];
    SumSet(h, UsedSize, e, h[e].(size := n));
    SumSet(h1, UsedSize, e + n, Tag(n, 0, true));
    SumSet(h, FreeSize, e, h[e].(size := n));
    SumSet(h1, FreeSize, e + n, Tag(n, 0, true));
  }

  lemma {:induction false} NewSegmentSums(h: Chunks, c: int, n: nat)
    requires n > 0 && c !in h && c + n !in h
    ensures Used(NewSegment(h, c, n)) == Used(h) + n && Free(NewSegment(h, c, n)) == Free(h)
  {
    var h1 := h[c := Tag(0, n, true)];
    SumSet(h, UsedSize, c, Tag(0, n, true));
    SumSet(h1, UsedSize, c + n, Tag(n, 0, true));
    SumSet(h, FreeSize, c, Tag(0, n, true));
    SumSet(h1, FreeSize, c + n, Tag(n, 0, true));
  }

  // ---- live chunks ----

  /** Address -> size of the chunks handed out from the heap. */
  function LiveHeap(h: Chunks): map<int, int> {
    map c | c in h && h[c].used && h[c].size > 0 :: h[c].size
  }

  function Live(v: View): map<int, int> {
    LiveHeap(v.h) + v.mm
  }

  /** No word of a payload of `live` differs between m and m'. */
  ghost predicate Kept(m: Memory, m': Memory, live: map<int, int>) {
    forall x, a :: x in live && x + OVERHEAD <= a < x + live[x] ==>
      a in m && a in m' && m'[a] == m[a]
  }

  ghost predicate SubLive(l: map<int, int>, l': map<int, int>) {
    forall x :: x in l ==> x in l' && l'[x] == l[x]
  }

  lemma {:induction false} UntouchedIsKept(m: Memory, m': Memory, h: Chunks, mm: map<int, int>)
    requires Untouched(m, m', h, mm)
    ensures Kept(m, m', LiveHeap(h) + mm)
  {
  }

  lemma {:induction false} KeptThen(m: Memory, m1: Memory, m2: Memory, l: map<int, int>, l': map<int, int>)
    requires Kept(m, m1, l) && Kept(m1, m2, l') && SubLive(l, l')
    ensures Kept(m, m2, l)
  {
  }

  lemma {:induction false} LiveAllocate(h: Chunks, c: int)
    requires c in h && !h[c].used && h[c].size > 0
    ensures LiveHeap(SetUsed(h, c, true)) == LiveHeap(h)[c := h[c].size] && c !in LiveHeap(h)
  {
  }

  lemma {:induction false} LiveSplit(h: Chunks, c: int, n: nat)
    requires c in h && h[c].used && 0 < n < h[c].size && c + h[c].size in h && c + n !in h
    ensures LiveHeap(Split(h, c, n)) == LiveHeap(h)[c := n]
    ensures LiveHeap(h - {c}) == LiveHeap(h) - {c}
  {
  }

  lemma {:induction false} LiveFuse(h: Chunks, a: int, gone: set<int>, z: int)
    requires a in h && z in h && a < z && z !in gone
    ensures LiveHeap(Fuse(h, a, gone, z)) == LiveHeap(h) - gone - {a}
  {
  }

  lemma {:induction false} LiveExtend(h: Chunks, e: int, n: nat)
    requires e in h && h[e].used && h[e].size == 0 && n > 0 && e + n !in h
    ensures LiveHeap(Extend(h, e, n)) == LiveHeap(h)[e := n] && e !in LiveHeap(h)
  {
  }

  lemma {:induction false} LiveNewSegment(h: Chunks, c: int, n: nat)
    requires n > 0 && c !in h && c + n !in h
    ensures LiveHeap(NewSegment(h, c, n)) == LiveHeap(h)[c := n] && c !in LiveHeap(h)
  {
  }
}
