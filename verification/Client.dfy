/** What the invariant means for a client of the allocator: payloads never
    overlap, segments are tiled without gaps, and over every run of mallocs,
    legal frees and stores each live block keeps what its owner wrote. */
module Client {
  import opened Sizes
  import opened Bits
  import opened Heap
  import opened Layout
  import opened Invariant
  import opened Growth
  import opened Accounting
  import opened Expand
  import opened Effects
  import opened Allocator
  import BinIndex

  // ---- consequences of the invariant ----

  lemma {:induction false} ArenaSpan(m: Memory, mal: int, v: View, x: int)
    requires Inv(m, mal, v, 0) && x in v.h
    ensures forall a :: x <= a < x + v.h[x].size ==> a in v.arena
  {
    forall a | x <= a < x + v.h[x].size ensures a in v.arena {
      assert x <= a < x + Span(v.h[x]);
    }
  }

  /** Two live chunks, headers included, occupy disjoint ranges. */
  lemma {:induction false} LiveDisjoint(m: Memory, mal: int, v: View, x: int, y: int)
    requires Inv(m, mal, v, 0) && x in Live(v) && y in Live(v) && x < y
    ensures x + Live(v)[x] <= y
  {
    LiveCases(m, mal, v, x);
    LiveCases(m, mal, v, y);
    if x in v.h && y in v.mm {
      ArenaSpan(m, mal, v, x);
      MixedApart(m, mal, v, x, y);
    } else if x in v.mm && y in v.h {
      ArenaSpan(m, mal, v, y);
      MixedApart(m, mal, v, y, x);
    }
  }

  lemma {:induction false} MixedApart(m: Memory, mal: int, v: View, c: int, d: int)
    requires Mmaps(m, mal, v.arena, v.mm) && c in v.h && d in v.mm && v.h[c].size > 0
    requires forall a :: c <= a < c + v.h[c].size ==> a in v.arena
    ensures c + v.h[c].size <= d - 16 || d + v.mm[d] <= c
  {
    var a := if c < d - 16 then d - 16 else c;
    assert d - 16 <= a < d + v.mm[d] ==> a !in v.arena;
  }

  /** No live payload contains a header word of any heap chunk. */
  lemma {:induction false} PayloadHasNoHeader(m: Memory, mal: int, v: View, x: int, c: int, a: int)
    requires Inv(m, mal, v, 0) && x in Live(v) && c in v.h && (a == c || a == c + 8)
    ensures !(x + OVERHEAD <= a < x + Live(v)[x])
  {
    LiveCases(m, mal, v, x);
    HeaderInArena(v.h, v.arena, c, a);
    if x in v.h {
      HeaderOffPayload(v.h, c, a);
    }
  }

  // ---- segments ----

  /** The chunks met by following NEXT_CHUNK from c up to a sentinel. */
  ghost function Above(h: Chunks, c: int): set<int> {
    set d | d in h && d >= c
  }

  ghost function Walk(h: Chunks, c: int): seq<int>
    requires Tiled(h) && c in h
    decreases |Above(h, c)|
  {
    if h[c].size == 0 then [c] else
      WalkStep(h, c);
      [c] + Walk(h, c + h[c].size)
  }

  lemma {:induction false} WalkStep(h: Chunks, c: int)
    requires Tiled(h) && c in h && h[c].size > 0
    ensures c + h[c].size in h && h[c + h[c].size].psize == h[c].size
    ensures |Above(h, c + h[c].size)| < |Above(h, c)|
  {
    assert Neighbours(h, c);
    var big, small := Above(h, c), Above(h, c + h[c].size);
    assert small <= big && c in big && c !in small;
    Smaller(small, big, c);
  }

  lemma Smaller(s: set<int>, t: set<int>, c: int)
    requires s <= t && c in t && c !in s
    ensures |s| < |t|
  {
    assert t == s + (t - s);
    assert |t| == |s| + |t - s|;
    assert t - s != {} by { assert c in t - s; }
  }

  ghost function SizeSum(h: Chunks, w: seq<int>): int
    requires forall k :: 0 <= k < |w| ==> w[k] in h
  {
    if w == [] then 0 else h[w[0]].size + SizeSum(h, w[1..])
  }

  ghost predicate WalkOk(h: Chunks, w: seq<int>) {
    && |w| > 0
    && (forall k :: 0 <= k < |w| ==> w[k] in h)
    && (forall k :: 0 <= k < |w| - 1 ==> h[w[k]].size > 0)
    && (forall k :: 0 <= k < |w| - 1 ==> w[k + 1] == w[k] + h[w[k]].size)
    && (forall k :: 0 <= k < |w| - 1 ==> h[w[k + 1]].psize == h[w[k]].size)
  }

  /** The walk on the abstract tags. */
  lemma {:induction false} WalkTags(h: Chunks, c: int)
    requires Tiled(h) && c in h
    ensures var w := Walk(h, c);
            && WalkOk(h, w) && w[0] == c
            && h[w[|w| - 1]] == h[w[|w| - 1]].(size := 0, used := true)
            && SizeSum(h, w) == w[|w| - 1] - c
    decreases |Above(h, c)|
  {
    if h[c].size > 0 {
      WalkStep(h, c);
      var n := c + h[c].size;
      WalkTags(h, n);
      WalkCons(h, c, n);
      hide Tiled, Walk, WalkOk, SizeSum;
      var w := Walk(h, n);
      assert ([c] + w)[|w|] == w[|w| - 1];
    } else {
      WalkEnd(h, c);
    }
  }

  lemma {:induction false} WalkEnd(h: Chunks, c: int)
    requires Tiled(h) && c in h && h[c].size == 0
    ensures Walk(h, c) == [c] && WalkOk(h, [c]) && SizeSum(h, [c]) == 0 && h[c].used
  {
    assert [c][1..] == [];
    hide Chained, Apart;
  }

  /** The addresses w are those that CHUNK_SIZE and NEXT_CHUNK visit in memory;
      each `psize` word repeats the `csize` word before it, and the last chunk is
      a zero-size in-use sentinel. */
  ghost predicate WordWalk(m: Memory, w: seq<int>) {
    && |w| > 0
    && (forall k :: 0 <= k < |w| ==> w[k] in m && w[k] + 8 in m)
    && (forall k :: 0 <= k < |w| - 1 ==> ClearLow(m[w[k] + 8]) > 0)
    && (forall k :: 0 <= k < |w| - 1 ==> w[k + 1] == w[k] + ClearLow(m[w[k] + 8]))
    && (forall k :: 0 <= k < |w| - 1 ==> m[w[k + 1]] == m[w[k] + 8])
    && m[w[|w| - 1] + 8] == 1
  }

  ghost function WordSum(m: Memory, w: seq<int>): int
    requires forall k :: 0 <= k < |w| ==> w[k] + 8 in m
  {
    if w == [] then 0 else ClearLow(m[w[0] + 8]) + WordSum(m, w[1..])
  }

  lemma {:induction false} SizeOfWord(m: Memory, h: Chunks, c: int)
    requires Headers(m, h) && Shaped(h) && c in h
    ensures c in m && c + 8 in m && m[c] == PrevWord(h, c) && m[c + 8] == Word(h[c].size, h[c].used)
    ensures ClearLow(m[c + 8]) == h[c].size
  {
    HeaderAt(m, h, c);
    EvenPsize(h, c);
  }

  lemma {:induction false} WordSumIs(m: Memory, h: Chunks, w: seq<int>)
    requires Headers(m, h) && Shaped(h) && forall k :: 0 <= k < |w| ==> w[k] in h
    ensures (forall k :: 0 <= k < |w| ==> w[k] + 8 in m) && WordSum(m, w) == SizeSum(h, w)
  {
    hide Headers, Shaped;
    forall k | 0 <= k < |w| ensures w[k] + 8 in m {
      SizeOfWord(m, h, w[k]);
    }
    if w != [] {
      SizeOfWord(m, h, w[0]);
      WordSumIs(m, h, w[1..]);
    }
  }

  lemma {:induction false} WalkWords(m: Memory, h: Chunks, w: seq<int>)
    requires Headers(m, h) && Shaped(h) && WalkOk(h, w)
    requires h[w[|w| - 1]].size == 0 && h[w[|w| - 1]].used
    ensures WordWalk(m, w)
  {
    hide Headers, Shaped;
    forall k | 0 <= k < |w| ensures w[k] in m && w[k] + 8 in m && ClearLow(m[w[k] + 8]) == h[w[k]].size {
      SizeOfWord(m, h, w[k]);
    }
    forall k | 0 <= k < |w| - 1 ensures m[w[k + 1]] == m[w[k] + 8] {
      SizeOfWord(m, h, w[k]);
      SizeOfWord(m, h, w[k + 1]);
    }
    SizeOfWord(m, h, w[|w| - 1]);
  }

  /** From every chunk, following the size words steps from each chunk to the
      address just after it, meets matching `psize` words, ends in a zero-size
      in-use sentinel, and the sizes add up to exactly the distance covered: the
      segment is tiled without gap or overlap. */
  lemma {:induction false} SegmentIsTiled(m: Memory, mal: int, v: View, c: int)
    requires Inv(m, mal, v, 0) && c in v.h
    ensures var w := Walk(v.h, c);
            && w[0] == c && WordWalk(m, w) && WordSum(m, w) == w[|w| - 1] - c
            && forall k :: 0 <= k < |w| ==> w[k] in v.h
  {
    InvTiled(m, mal, v);
    assert Headers(m, v.h);
    hide Inv, Tiled, Shaped, Headers;
    WalkTags(v.h, c);
    WalkWords(m, v.h, Walk(v.h, c));
    WordSumIs(m, v.h, Walk(v.h, c));
  }

  lemma {:induction false} WalkCons(h: Chunks, c: int, n: int)
    requires Tiled(h) && c in h && h[c].size > 0 && n == c + h[c].size && n in h && h[n].psize == h[c].size
    requires WalkOk(h, Walk(h, n)) && Walk(h, n)[0] == n
    ensures Walk(h, c) == [c] + Walk(h, n) && WalkOk(h, [c] + Walk(h, n))
    ensures SizeSum(h, [c] + Walk(h, n)) == h[c].size + SizeSum(h, Walk(h, n))
  {
    var w := [c] + Walk(h, n);
    assert w[1..] == Walk(h, n);
    hide Tiled;
  }

  // ---- mmapped blocks ----

  /** Freeing an mmapped block unmaps exactly the region that was mapped for it:
      memory, the abstract state and both byte counts are as they were. */
  method MapAndUnmap(al: Musl, n: nat, os: Os) returns (p: int, crashed: bool)
    requires al.Valid() && n < WORD && HonestFor(al.mem, al.storedBrk, al.mmapStep, os, n)
    requires AdjustSize(n).Adjusted? && AdjustSize(n).n > BinIndex.MMAP_THRESHOLD
    modifies al
    ensures !crashed && al.Valid() && (p == 0 <==> os.area == 0)
    ensures al.v == old(al.v) && (p != 0 ==> al.mem == old(al.mem))
    ensures p != 0 ==> al.mmapBytes == old(al.mmapBytes) && al.allocatedBytes == old(al.allocatedBytes)
  {
    hide Musl.Valid, Kept, LiveHeap, HonestFor, TightFit, Range, Wrap, AlignUp, BrkFits;
    ghost var v0, m0, mapped0, live0: int := al.v, al.mem, al.mmapBytes, al.allocatedBytes;
    ghost var grew;
    p, grew := al.MuslMalloc(n, os);
    crashed := false;
    if p != 0 {
      ghost var c, size: int := p - OVERHEAD, ServedSize(n);
      assert c !in v0.mm;
      assert v0.mm[c := size] - {c} == v0.mm;
      ghost var blk, reclaimed, lo, hi;
      crashed, blk, reclaimed, lo, hi := al.MuslFree(p);
      WrapAdd(mapped0 + size + 16, -(size + 16));
      WrapAdd(live0 + size, -size);
      WrapSmall(mapped0);
      WrapSmall(live0);
    }
  }

  // ---- runs ----

  datatype Op =
    | Malloc(n: nat)
    | Release(p: int)
    | Store(p: int, a: int, w: int)

  /** The kernel answers each call as it likes, from the call's number and the
      state of memory, but honestly. */
  type Kernel = (nat, Memory, nat, nat, int) -> Os

  ghost predicate HonestKernel(k: Kernel) {
    forall i: nat, m: Memory, b: nat, s: nat, n: int :: HonestFor(m, b, s, k(i, m, b, s, n), n)
  }

  /** The client's books: requested size of each live block, and the words it
      has stored there. */
  datatype Books = Books(size: map<int, int>, words: map<int, map<int, int>>)

  /** The books after one more call, which returned p. */
  ghost function Replayed(b: Books, op: Op, p: int): Books {
    match op
    case Malloc(n) => if p == 0 then b else Books(b.size[p := n], b.words[p := map[]])
    case Release(q) => if q in b.size then Books(b.size - {q}, b.words - {q}) else b
    case Store(q, a, w) =>
      if q in b.size && q in b.words && q <= a && a + 8 <= q + b.size[q] && a % 8 == 0
      then b.(words := b.words[q := b.words[q][a := w]]) else b
  }

  /** What a client is entitled to after the calls `ops` returned `ps`. */
  ghost function Replay(ops: seq<Op>, ps: seq<int>): Books
    requires |ps| == |ops|
  {
    if ops == [] then Books(map[], map[])
    else
      var n := |ops| - 1;
      Replayed(Replay(ops[..n], ps[..n]), ops[n], ps[n])
  }

  /** The allocator between two calls. */
  datatype Moment = Moment(mem: Memory, brk: nat, step: nat, v: View)

  ghost predicate Sound(mal: int, m: Moment, b: Books) {
    Inv(m.mem, mal, m.v, 0) && BooksMatch(Live(m.v), b) && WordsThere(m.mem, b)
  }

  /** A malloc gets a block the client does not hold yet, of room n. If a free
      chunk is in a bin from bin_index_up on, it gets the best one, at the head of
      the lowest such bin. It fails only if the request is too large, or the kernel
      refuses an mmap, for a heap block also sbrk, and then only when no free chunk
      is of good size. */
  ghost predicate Answered(m: Moment, op: Op, os: Os, b: Books, p: int) {
    match op
    case Malloc(n) =>
      && (p != 0 ==> p !in b.size && AdjustSize(n).Adjusted?)
      && (AdjustSize(n).Adjusted? && AdjustSize(n).n <= BinIndex.MMAP_THRESHOLD && !NoFit(m.v.h, AdjustSize(n).n) ==>
            p != 0 && BestFit(m.v, AdjustSize(n).n, p - OVERHEAD))
      && (p == 0 && AdjustSize(n).Adjusted? ==>
            && os.area == 0
            && (AdjustSize(n).n <= BinIndex.MMAP_THRESHOLD ==>
                  && TightFit(m.v.h, AdjustSize(n).n)
                  && !(os.brkOk && BrkFits(m.brk, os, AlignUp(AdjustSize(n).n + SIZE_ALIGN, PAGE_SIZE)))))
    case _ => p == 0
  }

  ghost predicate Told(kernel: Kernel, i: nat, m: Moment, op: Op, b: Books, p: int) {
    Answered(m, op, kernel(i, m.mem, m.brk, m.step, if op.Malloc? then op.n else 0), b, p)
  }

  ghost predicate BlockOk(live: map<int, int>, b: Books, p: int)
    requires p in b.size
  {
    && p > OVERHEAD && p % SIZE_ALIGN == 0 && b.size[p] >= 0
    && p - OVERHEAD in live && b.size[p] + OVERHEAD <= live[p - OVERHEAD]
  }

  ghost predicate BooksMatch(live: map<int, int>, b: Books) {
    && b.words.Keys == b.size.Keys
    && (forall p :: p in b.size ==> BlockOk(live, b, p))
    && (forall c :: c in live ==> c + OVERHEAD in b.size)
  }

  ghost predicate WordOk(m: Memory, b: Books, p: int, a: int)
    requires p in b.size && p in b.words && a in b.words[p]
  {
    p <= a < p + b.size[p] && a in m && m[a] == b.words[p][a]
  }

  /** Every word the client stored is still there. */
  ghost predicate WordsThere(m: Memory, b: Books) {
    && b.words.Keys == b.size.Keys
    && (forall p, a {:trigger WordOk(m, b, p, a)} :: p in b.words && a in b.words[p] ==> WordOk(m, b, p, a))
  }

  lemma {:induction false} WordsKept(m: Memory, m': Memory, live: map<int, int>, kept: map<int, int>, b: Books, b': Books)
    requires BooksMatch(live, b) && WordsThere(m, b) && Kept(m, m', kept)
    requires b'.words.Keys == b'.size.Keys && b'.size.Keys <= b.size.Keys
    requires forall p :: p in b'.size ==>
               && b'.size[p] == b.size[p] && b'.words[p] == b.words[p]
               && p - OVERHEAD in kept && kept[p - OVERHEAD] == live[p - OVERHEAD]
    ensures WordsThere(m', b')
  {
    forall p, a | p in b'.words && a in b'.words[p] ensures WordOk(m', b', p, a) {
      assert BlockOk(live, b, p) && WordOk(m, b, p, a);
    }
  }

  method DoMalloc(al: Musl, n: nat, os: Os, ghost b: Books) returns (p: int, ghost b': Books)
    requires al.Valid() && n < WORD && HonestFor(al.mem, al.storedBrk, al.mmapStep, os, n)
    requires BooksMatch(Live(al.v), b) && WordsThere(al.mem, b)
    modifies al
    ensures al.Valid() && BooksMatch(Live(al.v), b') && WordsThere(al.mem, b')
    ensures b' == Replayed(b, Malloc(n), p)
    ensures Answered(Moment(old(al.mem), old(al.storedBrk), old(al.mmapStep), old(al.v)), Malloc(n), os, b, p)
  {
    hide Musl.Valid, Kept, LiveHeap, Live, HonestFor, AdjustSize, ServedSize, TightFit, WordsThere;
    hide NoFit, BestFit, CutTo;
    ghost var m0, l0 := al.mem, Live(al.v);
    ghost var grew;
    p, grew := al.MuslMalloc(n, os);
    WordsKept(m0, al.mem, l0, l0, b, b);
    b' := b;
    if p != 0 {
      b' := Books(b.size[p := n], b.words[p := map[]]);
      NewBlock(l0, al.mem, b, p, n, ServedSize(n));
    }
  }

  lemma {:induction false} NewBlock(live: map<int, int>, m: Memory, b: Books, p: int, n: nat, size: int)
    requires BooksMatch(live, b) && WordsThere(m, b)
    requires p > OVERHEAD && p % SIZE_ALIGN == 0 && p - OVERHEAD !in live && n + OVERHEAD <= size
    ensures p !in b.size
    ensures var b' := Books(b.size[p := n], b.words[p := map[]]);
            BooksMatch(live[p - OVERHEAD := size], b') && WordsThere(m, b')
  {
    var b' := Books(b.size[p := n], b.words[p := map[]]);
    var live' := live[p - OVERHEAD := size];
    assert p in b.size ==> BlockOk(live, b, p);
    forall q | q in b'.size ensures BlockOk(live', b', q) {
      assert q in b.size ==> BlockOk(live, b, q);
    }
    forall q, x | q in b'.words && x in b'.words[q] ensures WordOk(m, b', q, x) {
      assert WordOk(m, b, q, x);
    }
  }

  method DoRelease(al: Musl, p: int, ghost b: Books) returns (crashed: bool, ghost b': Books)
    requires al.Valid() && BooksMatch(Live(al.v), b) && WordsThere(al.mem, b) && p in b.size
    modifies al
    ensures !crashed && al.Valid() && BooksMatch(Live(al.v), b') && WordsThere(al.mem, b')
    ensures b' == Books(b.size - {p}, b.words - {p})
  {
    hide Musl.Valid, Kept, LiveHeap, Live, WordsThere;
    ghost var m0, l0 := al.mem, Live(al.v);
    assert BlockOk(l0, b, p);
    ghost var blk, reclaimed, lo, hi;
    crashed, blk, reclaimed, lo, hi := al.MuslFree(p);
    b' := Books(b.size - {p}, b.words - {p});
    forall q | q in b'.size ensures BlockOk(l0 - {p - OVERHEAD}, b', q) {
      assert BlockOk(l0, b, q);
    }
    WordsKept(m0, al.mem, l0, l0 - {p - OVERHEAD}, b, b');
  }

  method DoStore(al: Musl, p: int, a: int, w: int, ghost b: Books) returns (ghost b': Books)
    requires al.Valid() && BooksMatch(Live(al.v), b) && WordsThere(al.mem, b)
    requires p in b.size && p <= a && a + 8 <= p + b.size[p] && a % 8 == 0
    modifies al`mem
    ensures al.Valid() && BooksMatch(Live(al.v), b') && WordsThere(al.mem, b')
    ensures b' == b.(words := b.words[p := b.words[p][a := w]])
  {
    hide Musl.Valid, Kept, LiveHeap, Live, WordsThere;
    ghost var m0, l0 := al.mem, Live(al.v);
    assert BlockOk(l0, b, p);
    al.Write(p, a, w);
    b' := b.(words := b.words[p := b.words[p][a := w]]);
    WordStored(m0, l0, b, p, a, w);
    forall q | q in b'.size ensures BlockOk(l0, b', q) {
      assert BlockOk(l0, b, q);
    }
  }

  lemma {:induction false} WordStored(m: Memory, live: map<int, int>, b: Books, p: int, a: int, w: int)
    requires BooksMatch(live, b) && WordsThere(m, b) && p in b.size && p <= a < p + b.size[p] && a in m
    requires Kept(m, m[a := w], live - {p - OVERHEAD})
    ensures WordsThere(m[a := w], b.(words := b.words[p := b.words[p][a := w]]))
  {
    var b', m' := b.(words := b.words[p := b.words[p][a := w]]), m[a := w];
    forall q, x | q in b'.words && x in b'.words[q] ensures WordOk(m', b', q, x) {
      assert BlockOk(live, b, q);
      if q != p || x != a {
        assert WordOk(m, b, q, x);
        if q != p { assert q - OVERHEAD in live - {p - OVERHEAD}; }
      }
    }
  }

  /** One call, if it is legal; `size` is the client's own record. */
  method Perform(al: Musl, op: Op, os: Os, size: map<int, int>, ghost b: Books)
    returns (p: int, crashed: bool, size': map<int, int>, ghost b': Books)
    requires al.Valid() && BooksMatch(Live(al.v), b) && WordsThere(al.mem, b) && size == b.size
    requires op.Malloc? ==> op.n < WORD && HonestFor(al.mem, al.storedBrk, al.mmapStep, os, op.n)
    modifies al
    ensures !crashed && al.Valid() && BooksMatch(Live(al.v), b') && WordsThere(al.mem, b') && size' == b'.size
    ensures b' == Replayed(b, op, p)
    ensures Answered(Moment(old(al.mem), old(al.storedBrk), old(al.mmapStep), old(al.v)), op, os, b, p)
  {
    hide Musl.Valid, Kept, LiveHeap, Live, HonestFor, WordsThere, AdjustSize, TightFit, BrkFits, AlignUp;
    hide NoFit, BestFit;
    p, crashed, size', b' := 0, false, size, b;
    match op {
      case Malloc(n) =>
        p, b' := DoMalloc(al, n, os, b);
        if p != 0 { size' := size[p := n]; }
      case Release(q) =>
        if q in size {
          crashed, b' := DoRelease(al, q, b);
          size' := size - {q};
        }
      case Store(q, a, w) =>
        if q in size && q <= a && a + 8 <= q + size[q] && a % 8 == 0 {
          b' := DoStore(al, q, a, w, b);
        }
    }
  }

  /** A run: the calls made, the pointers that the mallocs returned, and the states
      before each call and at the end. At every moment the invariant holds, the
      live blocks are exactly those that the calls so far leave the client with,
      and each still holds every word its owner stored. */
  ghost predicate History(mal: int, kernel: Kernel, ops: seq<Op>, ps: seq<int>, moments: seq<Moment>) {
    && |ps| == |ops| && |moments| == |ops| + 1
    && (forall i :: 0 <= i <= |ops| ==> SoundAt(mal, ops, ps, moments, i))
    && (forall i :: 0 <= i < |ops| ==> ToldAt(kernel, ops, ps, moments, i))
  }

  ghost predicate SoundAt(mal: int, ops: seq<Op>, ps: seq<int>, moments: seq<Moment>, i: nat)
    requires |ps| == |ops| && |moments| == |ops| + 1 && i <= |ops|
  {
    Sound(mal, moments[i], Replay(ops[..i], ps[..i]))
  }

  ghost predicate ToldAt(kernel: Kernel, ops: seq<Op>, ps: seq<int>, moments: seq<Moment>, i: nat)
    requires |ps| == |ops| && |moments| == |ops| + 1 && i < |ops|
  {
    Told(kernel, i, moments[i], ops[i], Replay(ops[..i], ps[..i]), ps[i])
  }

  /** Every run of mallocs, frees of live blocks and stores into live blocks,
      whatever the kernel answers: no free crashes, and a malloc fails only if it
      has to. */
  method Run(mal: int, kernel: Kernel, ops: seq<Op>)
    returns (al: Musl, crashed: bool, ps: seq<int>, ghost moments: seq<Moment>)
    requires mal > 0 && HonestKernel(kernel)
    requires forall i :: 0 <= i < |ops| && ops[i].Malloc? ==> ops[i].n < WORD
    ensures !crashed && al.Valid() && History(mal, kernel, ops, ps, moments)
    ensures moments[|ops|] == Moment(al.mem, al.storedBrk, al.mmapStep, al.v)
    ensures |ps| == |ops| && Sound(mal, moments[|ops|], Replay(ops, ps))
  {
    hide Musl.Valid, Kept, LiveHeap, Live, HonestFor, WordsThere, BooksMatch, Sound, Answered, History, Replay;
    al := new Musl(mal);
    ghost var b := Books(map[], map[]);
    crashed, ps := false, [];
    EmptyBooks(al.mem);
    moments := [Moment(al.mem, al.storedBrk, al.mmapStep, al.v)];
    var size: map<int, int> := map[];
    SoundNow(al, b);
    NoHistory(mal, kernel, moments[0]);
    assert ops[..0] == [];
    for i := 0 to |ops|
      invariant fresh(al) && al.mal == mal && al.Valid() && !crashed && size == b.size
      invariant BooksMatch(Live(al.v), b) && WordsThere(al.mem, b)
      invariant |ps| == i && |moments| == i + 1
      invariant b == Replay(ops[..i], ps) && History(mal, kernel, ops[..i], ps, moments)
      invariant moments[i] == Moment(al.mem, al.storedBrk, al.mmapStep, al.v)
    {
      ghost var b0, ps0, moments0 := b, ps, moments;
      var op := ops[i];
      var os := kernel(i, al.mem, al.storedBrk, al.mmapStep, if op.Malloc? then op.n else 0);
      var p;
      p, crashed, size, b := Perform(al, op, os, size, b);
      ps := ps + [p];
      moments := moments + [Moment(al.mem, al.storedBrk, al.mmapStep, al.v)];
      SoundNow(al, b);
      assert ops[..i + 1] == ops[..i] + [op];
      LongerHistory(mal, kernel, ops[..i], ps0, moments0, op, p, moments[i + 1]);
    }
    assert ops[..|ops|] == ops;
    LastMoment(mal, kernel, ops, ps, moments);
  }

  lemma {:induction false} NoHistory(mal: int, kernel: Kernel, m: Moment)
    requires Sound(mal, m, Books(map[], map[]))
    ensures Replay([], []) == Books(map[], map[]) && History(mal, kernel, [], [], [m])
  {
    hide Sound, Told;
  }

  lemma {:induction false} LastMoment(mal: int, kernel: Kernel, ops: seq<Op>, ps: seq<int>, moments: seq<Moment>)
    requires History(mal, kernel, ops, ps, moments)
    ensures |ps| == |ops| && |moments| == |ops| + 1 && Sound(mal, moments[|ops|], Replay(ops, ps))
  {
    hide Sound, Told, Replay;
    assert ops[..|ops|] == ops && ps[..|ops|] == ps;
    assert SoundAt(mal, ops, ps, moments, |ops|);
  }

  lemma {:induction false} LongerHistory(mal: int, kernel: Kernel, ops: seq<Op>, ps: seq<int>, moments: seq<Moment>,
                                         op: Op, p: int, m: Moment)
    requires History(mal, kernel, ops, ps, moments)
    requires Told(kernel, |ops|, moments[|ops|], op, Replay(ops, ps), p)
    requires Sound(mal, m, Replayed(Replay(ops, ps), op, p))
    ensures Replay(ops + [op], ps + [p]) == Replayed(Replay(ops, ps), op, p)
    ensures History(mal, kernel, ops + [op], ps + [p], moments + [m])
  {
    ReplaySnoc(ops, ps, op, p);
    hide SoundAt, ToldAt, Replay, Replayed, Told, Sound;
    var ops', ps', moments' := ops + [op], ps + [p], moments + [m];
    forall i | 0 <= i <= |ops'| ensures SoundAt(mal, ops', ps', moments', i) {
      SoundLater(mal, ops, ps, moments, op, p, m, i);
    }
    forall i | 0 <= i < |ops'| ensures ToldAt(kernel, ops', ps', moments', i) {
      ToldLater(kernel, ops, ps, moments, op, p, m, i);
    }
  }

  lemma {:induction false} ReplaySnoc(ops: seq<Op>, ps: seq<int>, op: Op, p: int)
    requires |ps| == |ops|
    ensures Replay(ops + [op], ps + [p]) == Replayed(Replay(ops, ps), op, p)
  {
    hide Replayed;
    var n := |ops|;
    assert (ops + [op])[..n] == ops && (ps + [p])[..n] == ps;
  }

  lemma {:induction false} SoundLater(mal: int, ops: seq<Op>, ps: seq<int>, moments: seq<Moment>,
                                      op: Op, p: int, m: Moment, i: nat)
    requires |ps| == |ops| && |moments| == |ops| + 1 && i <= |ops| + 1
    requires i <= |ops| ==> SoundAt(mal, ops, ps, moments, i)
    requires i == |ops| + 1 ==> Sound(mal, m, Replay(ops + [op], ps + [p]))
    ensures SoundAt(mal, ops + [op], ps + [p], moments + [m], i)
  {
    hide Sound, Replay;
    var ops', ps' := ops + [op], ps + [p];
    if i <= |ops| {
      assert ops'[..i] == ops[..i] && ps'[..i] == ps[..i];
    } else {
      assert ops'[..i] == ops' && ps'[..i] == ps';
    }
  }

  lemma {:induction false} ToldLater(kernel: Kernel, ops: seq<Op>, ps: seq<int>, moments: seq<Moment>,
                                     op: Op, p: int, m: Moment, i: nat)
    requires |ps| == |ops| && |moments| == |ops| + 1 && i <= |ops|
    requires i < |ops| ==> ToldAt(kernel, ops, ps, moments, i)
    requires i == |ops| ==> Told(kernel, i, moments[i], op, Replay(ops, ps), p)
    ensures ToldAt(kernel, ops + [op], ps + [p], moments + [m], i)
  {
    hide Told, Replay;
    var ops', ps' := ops + [op], ps + [p];
    assert ops'[..i] == ops[..i] && ps'[..i] == ps[..i];
    assert ops[..|ops|] == ops && ps[..|ops|] == ps;
  }

  lemma SoundNow(al: Musl, b: Books)
    requires al.Valid() && BooksMatch(Live(al.v), b) && WordsThere(al.mem, b)
    ensures Sound(al.mal, Moment(al.mem, al.storedBrk, al.mmapStep, al.v), b)
  {
    hide BooksMatch, WordsThere, Live;
    al.ValidInv();
  }

  lemma {:induction false} EmptyBooks(m: Memory)
    ensures BooksMatch(map[], Books(map[], map[])) && WordsThere(m, Books(map[], map[]))
  {
  }
}
