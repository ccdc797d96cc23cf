/** The byte counters are kept modulo 2^64. Disjoint chunks cannot add up to
    more than the address space, so the counters are the sums themselves. */
module Totals {
  import opened Bits
  import opened Heap
  import opened Layout
  import opened Invariant
  import opened Accounting
  import opened Effects
  import opened Client
  import opened Allocator

  lemma {:induction false} LargestKey(s: set<int>) returns (c: int)
    requires s != {}
    ensures c in s && forall d :: d in s ==> d <= c
    decreases s
  {
    NonEmpty(s);
    var x :| x in s;
    c := x;
    if s - {x} != {} {
      var y := LargestKey(s - {x});
      c := if y < x then x else y;
      assert forall d :: d in s ==> d == x || d in s - {x};
    } else {
      assert forall d :: d in s ==> d == x || d in s - {x};
    }
  }

  lemma {:induction false} FewerKeys<V>(m: map<int, V>, c: int)
    requires c in m
    ensures |m - {c}| < |m|
  {
    assert (m - {c}).Keys == m.Keys - {c};
    assert |(m - {c}).Keys| == |m - {c}| && |m.Keys| == |m|;
  }

  /** Intervals that do not overlap fill at most the range they lie in. */
  lemma {:induction false} SumBelow<V(!new)>(m: map<int, V>, w: V -> int, lo: int, hi: int)
    requires lo <= hi && forall c :: c in m ==> w(m[c]) >= 0 && lo <= c && c + w(m[c]) <= hi
    requires forall c, d :: c in m && d in m && c < d ==> c + w(m[c]) <= d
    ensures 0 <= Sum(m, w) <= hi - lo
    decreases |m|
  {
    hide Sum;
    if m.Keys == {} {
      SumNone(m, w);
    } else {
      var c := LargestKey(m.Keys);
      SumRemove(m, w, c);
      FewerKeys(m, c);
      SumBelow(m - {c}, w, lo, c);
    }
  }

  lemma {:induction false} SumNone<V(!new)>(m: map<int, V>, w: V -> int)
    requires m.Keys == {}
    ensures Sum(m, w) == 0
  {
  }

  lemma {:induction false} UnionLess(a: map<int, int>, b: map<int, int>, c: int)
    requires a.Keys !! b.Keys && c in a
    ensures (a + b) - {c} == (a - {c}) + b && (a + b)[c] == a[c]
    ensures |a - {c}| < |a|
  {
    assert (a - {c}).Keys == a.Keys - {c};
    assert |(a - {c}).Keys| == |a - {c}| && |a.Keys| == |a|;
  }

  lemma {:induction false} SumUnion(a: map<int, int>, b: map<int, int>)
    requires a.Keys !! b.Keys
    ensures Sum(a + b, Identity) == Sum(a, Identity) + Sum(b, Identity)
    decreases |a|
  {
    hide Sum;
    if a.Keys == {} {
      SumNone(a, Identity);
      assert a + b == b;
    } else {
      NonEmpty(a.Keys);
      var c :| c in a.Keys;
      UnionLess(a, b, c);
      SumRemove(a, Identity, c);
      SumRemove(a + b, Identity, c);
      SumUnion(a - {c}, b);
    }
  }

  lemma {:induction false} LiveLess(h: Chunks, c: int)
    requires c in h
    ensures LiveHeap(h - {c}) == LiveHeap(h) - {c}
    ensures |h - {c}| < |h|
  {
    assert (h - {c}).Keys == h.Keys - {c};
    assert |(h - {c}).Keys| == |h - {c}| && |h.Keys| == |h|;
  }

  lemma {:induction false} RemoveNothing(m: map<int, int>, c: int)
    requires c !in m
    ensures m - {c} == m
  {
  }

  lemma {:induction false} LiveHeapSum(h: Chunks)
    ensures Sum(LiveHeap(h), Identity) == Used(h)
    decreases |h|
  {
    hide Sum;
    if h.Keys == {} {
      SumNone(LiveHeap(h), Identity);
      SumNone(h, UsedSize);
    } else {
      NonEmpty(h.Keys);
      var c :| c in h.Keys;
      LiveLess(h, c);
      SumRemove(h, UsedSize, c);
      LiveHeapSum(h - {c});
      LiveHeapPart(h, c);
    }
  }

  lemma {:induction false} LiveHeapPart(h: Chunks, c: int)
    requires c in h && LiveHeap(h - {c}) == LiveHeap(h) - {c}
    ensures Sum(LiveHeap(h), Identity) == UsedSize(h[c]) + Sum(LiveHeap(h - {c}), Identity)
  {
    hide Sum;
    var l := LiveHeap(h);
    if c in l {
      SumRemove(l, Identity, c);
    } else {
      RemoveNothing(l, c);
      assert UsedSize(h[c]) == 0;
    }
  }

  lemma {:induction false} LiveSum(m: Memory, mal: int, v: View)
    requires Inv(m, mal, v, 0)
    ensures Used(v.h) + Mapped(v.mm) == Sum(Live(v), Identity)
  {
    forall c | c in v.mm ensures c !in v.h {
      if c in v.h { MmapNotHeap(m, mal, v, c); }
    }
    hide Inv;
    LiveHeapSum(v.h);
    SumUnion(LiveHeap(v.h), v.mm);
  }

  lemma {:induction false} LiveInRange(m: Memory, mal: int, v: View, c: int)
    requires Inv(m, mal, v, 0) && c in Live(v) && Bounded(v.arena) && MappedBelow(v.mm)
    ensures 0 < c && c + Live(v)[c] <= WORD
  {
    LiveCases(m, mal, v, c);
    if c in v.h {
      ArenaSpan(m, mal, v, c);
      assert c + v.h[c].size - 1 in v.arena;
    }
  }

  lemma {:induction false} LiveBelow(m: Memory, mal: int, v: View)
    requires Inv(m, mal, v, 0) && Bounded(v.arena) && MappedBelow(v.mm)
    ensures 0 <= Sum(Live(v), Identity) < WORD
  {
    forall c | c in Live(v) ensures 0 < c && 0 <= Live(v)[c] && c + Live(v)[c] <= WORD {
      LiveCases(m, mal, v, c);
      LiveInRange(m, mal, v, c);
    }
    forall c, d | c in Live(v) && d in Live(v) && c < d ensures c + Live(v)[c] <= d {
      LiveDisjoint(m, mal, v, c, d);
    }
    hide Inv, Live;
    SumBelow(Live(v), Identity, 1, WORD);
  }

  lemma {:induction false} FreeBelow(m: Memory, mal: int, v: View)
    requires Inv(m, mal, v, 0) && Bounded(v.arena)
    ensures 0 <= Free(v.h) < WORD
  {
    forall c | c in v.h ensures 0 < c && 0 <= FreeSize(v.h[c]) && c + FreeSize(v.h[c]) <= WORD {
      ArenaSpan(m, mal, v, c);
      if v.h[c].size > 0 {
        assert c + v.h[c].size - 1 in v.arena;
      } else {
        assert c <= c < c + Span(v.h[c]);
        assert c in v.arena;
      }
    }
    assert Apart(v.h);
    hide Inv;
    SumBelow(v.h, FreeSize, 1, WORD);
  }

  /** In every valid state: allocated_bytes is the sum of the live chunk sizes,
      free_bytes and free_block_bytes the sum of the binned ones, and used and
      free chunks together are the bytes obtained less 32 per segment. */
  lemma {:induction false} CountersAreSums(al: Musl)
    requires al.Valid()
    ensures al.allocatedBytes == Sum(Live(al.v), Identity)
    ensures al.freeBytes == al.freeBlockBytes == Free(al.v.h)
    ensures Used(al.v.h) + Free(al.v.h) == al.obtained - 32 * al.segments
  {
    hide Inv, Bitmap, Live, Used, Free, Mapped;
    LiveSum(al.mem, al.mal, al.v);
    LiveBelow(al.mem, al.mal, al.v);
    FreeBelow(al.mem, al.mal, al.v);
    WrapSmall(Sum(Live(al.v), Identity));
    WrapSmall(Free(al.v.h));
  }
}
