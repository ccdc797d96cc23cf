/** What each operation reads, and how its effect looks to a client and to the
    counters: the facts the allocator's methods rest on. */
module Effects {
  import opened Sizes
  import opened Bits
  import opened Heap
  import opened FreeList
  import opened Layout
  import opened Steps
  import opened Invariant
  import opened Growth
  import opened Accounting
  import opened Expand
  import opened Coalesce
  import BinIndex

  const DONTCARE: nat := 16
  const RECLAIM: nat := 163840

  /** `csize & -2` and `csize | 1`; LowBitOps relates them to the operators. */
  function ClearLow(w: int): int { w - w % 2 }
  function SetLow(w: int): int { if w % 2 == 0 then w + 1 else w }

  lemma LowBitOps(w: nat)
    requires w < WORD
    ensures ClearLow(w) == And(w, Neg(2)) && SetLow(w) == Or(w, 1) && w % 2 == And(w, 1)
  {
    WordIsPow2();
    assert Pow2(1) == 2;
    AndHigh(w, 64, 1);
    assert Neg(2) == WORD - 2;
    AndLow(w, 1);
    assert w != 0 ==> Or(w / 2, 0) == w / 2;
  }

  // ---- what the words read in each operation are ----

  lemma {:induction false} FreeWords(m: Memory, h: Chunks, c: int)
    requires Headers(m, h) && Tiled(h) && c in h && h[c].size > 0
    ensures c + 8 in m && m[c + 8] == Word(h[c].size, h[c].used)
    ensures c + h[c].size in m && m[c + h[c].size] == Word(h[c].size, h[c].used)
    ensures h[c].size % 2 == 0
  {
    EvenPsize(h, c);
    hide Shaped, Chained, Apart, Headers;
    NeighboursAt(h, c);
    HeaderAt(m, h, c);
    HeaderAt(m, h, c + h[c].size);
  }

  lemma {:induction false} UnbinReads(m: Memory, mal: int, v: View, i: nat, k: nat)
    requires Inv(m, mal, v, 0) && i < 64 && k < |v.ls[i]|
    ensures var s, L := Sentinel(mal, i), v.ls[i];
            var c, p, q := L[k], Node(s, L, k), Node(s, L, k + 2);
            && c in v.h && !v.h[c].used && v.h[c].size > 0
            && c + NEXT in m && c + PREV in m && m[c + NEXT] == q && m[c + PREV] == p
            && (p == q <==> |L| == 1)
            && p + NEXT != c + NEXT && p + NEXT != c + PREV && p + NEXT in m && q + PREV in m
  {
    var s, L := Sentinel(mal, i), v.ls[i];
    hide Shaped, Chained, Apart, Headers, Covered, Regions, Mmaps, Nodes, Linked, Separate;
    Listed(v.h, v.ls, 0, i, k);
    FreeHasBody(v.h, L[k]);
    BinnedNodes(m, mal, v.h, v.arena, v.ls, 0);
    BinSeparate(mal, v.arena, v.ls, i);
    BinHeadMapped(m, mal, v.ls, i);
    OnlyElement(m, s, L, k);
    NodeApart(s, L, k, k + 1);
    FieldApart(s, L, k, k + 1);
    CircleNode(mal, v.ls, i, k);
    CircleNode(mal, v.ls, i, k + 2);
    NodeMapped(m, mal, v.arena, v.ls, i, Node(s, L, k));
    NodeMapped(m, mal, v.arena, v.ls, i, Node(s, L, k + 2));
  }

  /** The header words of a free chunk, at both ends. */
  ghost predicate FreeTags(m: Memory, h: Chunks, c: int) {
    && c in h && c + 8 in m && m[c + 8] == h[c].size
    && c + h[c].size in m && m[c + h[c].size] == h[c].size
    && h[c].size % 2 == 0 && h[c].size >= 32
  }

  /** After the two link stores the header words are still those of a free chunk. */
  lemma {:induction false} UnbinHeaders(m: Memory, mal: int, v: View, i: nat, k: nat)
    requires Inv(m, mal, v, 0) && i < 64 && k < |v.ls[i]| && v.ls[i][k] in v.h
    ensures var s := Sentinel(mal, i);
            FreeTags(Unlinked(m, Node(s, v.ls[i], k), Node(s, v.ls[i], k + 2)), v.h, v.ls[i][k])
  {
    hide Shaped, Chained, Apart, Headers, Binned, BinsLinked, Covered, Regions, Mmaps, Untouched, Nodes, NoClash;
    var s, c := Sentinel(mal, i), v.ls[i][k];
    var p, q := Node(s, v.ls[i], k), Node(s, v.ls[i], k + 2);
    Listed(v.h, v.ls, 0, i, k);
    FreeHasBody(v.h, c);
    Around(v.h, c);
    CircleNode(mal, v.ls, i, k);
    CircleNode(mal, v.ls, i, k + 2);
    NodeLinkField(mal, v, 0, i, p);
    NodeLinkField(mal, v, 0, i, q);
    UnlinkGround(m, mal, v, p, q);
    FreeWords(Unlinked(m, p, q), v.h, c);
  }

  lemma {:induction false} UnbinBitmap(binmap: nat, ls: seq<seq<int>>, i: nat, k: nat)
    requires Bitmap(binmap, ls) && i < 64 && k < |ls[i]|
    ensures Pow2(i) < WORD
    ensures Bitmap(if |ls[i]| == 1 then And(binmap, Not(Pow2(i))) else binmap, ls[i := Without(ls[i], k)])
  {
    ClearBit(binmap, i);
    hide And, Pow2, Bit;
  }

  lemma {:induction false} AppendBitmap(binmap: nat, ls: seq<seq<int>>, i: nat, c: int)
    requires Bitmap(binmap, ls) && i < 64
    ensures Bitmap(if ls[i] == [] then Or(binmap, Pow2(i)) else binmap, ls[i := ls[i] + [c]])
  {
    SetBit(binmap, i);
    hide Or, Pow2, Bit;
  }

  /** What `bin_chunk` reads while it appends c to bin i. */
  lemma {:induction false} AppendReads(m: Memory, mal: int, v: View, i: nat, c: int)
    requires Inv(m, mal, v, c) && c in v.h && !v.h[c].used
    requires i == BinOf(v.h[c].size) && i < 64 && Linked(m, Sentinel(mal, i), v.ls[i])
    ensures var s, L := Sentinel(mal, i), v.ls[i];
            var p := Node(s, L, |L|);
            && c + NEXT in m && c + PREV in m && s + PREV in m && p + NEXT in m
            && m[s + PREV] == p && (p == s <==> L == [])
            && s + PREV != c + NEXT && s + PREV != c + PREV && p + NEXT != c + PREV
  {
    hide Shaped, Chained, Apart, Headers, Binned, BinsLinked, Covered, Regions, Mmaps, Nodes, Linked, BinOf, Separate;
    var s, L := Sentinel(mal, i), v.ls[i];
    var p, lc := Node(s, L, |L|), v.ls[i := L + [c]];
    NoZero(v.h);
    AppendBinned(v.h, v.ls, c, i);
    BinnedNodes(m, mal, v.h, v.arena, lc, 0);
    BinSeparate(mal, v.arena, lc, i);
    assert Node(s, lc[i], |L|) == p && Node(s, lc[i], |L| + 1) == c && Node(s, lc[i], 0) == s;
    CircleNode(mal, lc, i, |L|);
    CircleNode(mal, lc, i, |L| + 1);
    CircleNode(mal, lc, i, 0);
    NodeMapped(m, mal, v.arena, lc, i, p);
    NodeMapped(m, mal, v.arena, lc, i, c);
    NodeMapped(m, mal, v.arena, lc, i, s);
    Head(m, s, L);
    FieldApart(s, lc[i], |L| + 1, 0);
    FieldApart(s, lc[i], |L|, |L| + 1);
    NodeApart(s, lc[i], 0, |L| + 1);
    if L != [] { NodeApart(s, lc[i], 0, |L|); }
  }

  /** The static `end` of expand_heap points just past a segment's sentinel. */
  ghost predicate EndOk(end: int, h: Chunks) {
    end == 0 || (end - 16 in h && h[end - 16].size == 0)
  }

  lemma {:induction false} SizeWord(m: Memory, mal: int, v: View, skip: int, c: int)
    requires Inv(m, mal, v, skip) && c in v.h && v.h[c].size > 0
    ensures c in m && c + 8 in m && m[c + 8] == Word(v.h[c].size, v.h[c].used)
    ensures ClearLow(m[c + 8]) == v.h[c].size
    ensures c + v.h[c].size in m && m[c + v.h[c].size] == Word(v.h[c].size, v.h[c].used)
  {
    hide Shaped, Chained, Apart, Binned, BinsLinked, Covered, Regions, Mmaps;
    FreeWords(m, v.h, c);
    assert HeaderOk(m, v.h, c);
  }

  lemma {:induction false} BodyMapped(m: Memory, mal: int, v: View, c: int, a: int)
    requires Covered(v.arena, v.h) && Regions(m, mal, v.arena) && c in v.h && c <= a < c + v.h[c].size
    ensures a in m
  {
    assert c <= a < c + Span(v.h[c]);
  }

  /** The unsigned difference test of trim and of the fast path. */
  lemma {:induction false} SmallDifference(size: int, n: int)
    requires size % SIZE_ALIGN == 0 && n % SIZE_ALIGN == 0 && 0 <= n <= size < WORD
    ensures Wrap(size - n) <= DONTCARE <==> size == n
    ensures size != n ==> BinIndex.IsSize(size - n) && 32 <= size - n
    ensures SetLow(n) == n + 1
    ensures n > 0 ==> n > 8
  {
    hide Wrap;
    WrapSmall(size - n);
    SubUnits(size, n, 0, 0);
    if size != n { PositiveUnits(size - n); }
    if n > 0 { PositiveUnits(n); }
    EvenUnits(n);
  }

  lemma BinOfSize(size: int)
    requires BinIndex.IsSize(size)
    ensures BinOf(size) == BinIndex.Index(size) < 64
  {
    BinIndex.IndexIs(size);
  }

  lemma {:induction false} TrimMapped(m: Memory, mal: int, v: View, c: int, n: int)
    requires Inv(m, mal, v, 0) && c in v.h && 8 < n < v.h[c].size - 8
    ensures c + n in m && c + n + 8 in m && c + n > 0 && c + n !in v.h
  {
    InteriorIsFresh(v.h, c, c + n);
    hide Shaped, Chained, Apart, Headers, Binned, BinsLinked, Covered, Regions, Mmaps;
    ChunkShape(v.h, c);
    BodyMapped(m, mal, v, c, c + n);
    BodyMapped(m, mal, v, c, c + n + 8);
  }

  lemma {:induction false} SizeShape(m: Memory, mal: int, v: View, skip: int, c: int)
    requires Inv(m, mal, v, skip) && c in v.h
    ensures v.h[c].size % SIZE_ALIGN == 0
  {
    hide Chained, Apart, Headers, Binned, BinsLinked, Covered, Regions, Mmaps;
  }

  lemma {:induction false} TrimNothing(m: Memory, mal: int, v: View, c: int)
    requires Inv(m, mal, v, 0) && c in v.h && v.h[c].used && v.h[c].size > 0
    ensures LiveHeap(v.h) == LiveHeap(v.h)[c := v.h[c].size]
    ensures Kept(m, m, Live(v) - {c})
  {
    hide Shaped, Chained, Apart, Headers, Binned, BinsLinked, Covered, Regions, Mmaps, Untouched;
    assert Ground(m, mal, v);
    SelfUntouched(m, mal, v, 0);
    UntouchedIsKept(m, m, v.h, v.mm);
  }

  /** The split as the client and the counters see it. */
  lemma {:induction false} TrimAbstract(m: Memory, v: View, c: int, n: nat, end: int)
    requires c in v.h && v.h[c].used && 0 < n < v.h[c].size && c + n !in v.h
    requires c + v.h[c].size in v.h
    requires Untouched(m, SplitStores(m, c, n, v.h[c].size), v.h - {c}, v.mm)
    ensures LiveHeap(Split(v.h, c, n)) == LiveHeap(v.h)[c := n]
    ensures Used(Split(v.h, c, n)) == Used(v.h) - (v.h[c].size - n)
    ensures Free(Split(v.h, c, n)) == Free(v.h) + (v.h[c].size - n)
    ensures Kept(m, SplitStores(m, c, n, v.h[c].size), Live(v) - {c})
    ensures SubLive(Live(v) - {c}, Live(v.(h := Split(v.h, c, n))))
    ensures EndOk(end, v.h) ==> EndOk(end, Split(v.h, c, n))
  {
    hide Untouched, Used, Free, LiveHeap, Kept, SplitStores, SubLive, EndOk;
    SplitSums(v.h, c, n);
    LiveSplit(v.h, c, n);
    UntouchedIsKept(m, SplitStores(m, c, n, v.h[c].size), v.h - {c}, v.mm);
    TrimKeeps(m, SplitStores(m, c, n, v.h[c].size), v, c, n);
    if EndOk(end, v.h) { TrimEnd(v.h, c, n, end); }
  }

  lemma {:induction false} TrimKeeps(m: Memory, m': Memory, v: View, c: int, n: nat)
    requires c in v.h && v.h[c].used && n < v.h[c].size && c + v.h[c].size in v.h
    requires LiveHeap(v.h - {c}) == LiveHeap(v.h) - {c} && LiveHeap(Split(v.h, c, n)) == LiveHeap(v.h)[c := n]
    requires Kept(m, m', LiveHeap(v.h - {c}) + v.mm)
    ensures Kept(m, m', Live(v) - {c}) && SubLive(Live(v) - {c}, Live(v.(h := Split(v.h, c, n))))
  {
    LiveDrop(v, c);
    hide LiveHeap, Split;
  }

  /** The heap is split n bytes into c, and the rest of c joins the tail of its bin. */
  ghost predicate Cut(v: View, v': View, c: int, n: nat) {
    && c in v.h && n < v.h[c].size && c + v.h[c].size in v.h && |v.ls| == 64
    && var rest := v.h[c].size - n;
       var i := BinOf(rest);
       && i < 64 && v' == v.(h := Split(v.h, c, n), ls := v.ls[i := v.ls[i] + [c + n]])
       && v'.h[c + n] == Tag(n, rest, false)
  }

  lemma {:induction false} SplitTags(h: Chunks, c: int, n: nat)
    requires c in h && 0 < n < h[c].size && c + h[c].size in h
    ensures var g := Split(h, c, n);
            && c in g && g[c] == h[c].(size := n) && c + n in g && g[c + n] == Tag(n, h[c].size - n, false)
  {
  }

  lemma {:induction false} TrimEnd(h: Chunks, c: int, n: nat, end: int)
    requires c in h && 0 < n < h[c].size && c + h[c].size in h && c + n !in h && EndOk(end, h)
    ensures EndOk(end, Split(h, c, n))
  {
  }

  lemma {:induction false} SubLiveSelf(l: map<int, int>)
    ensures SubLive(l, l)
  {
  }

  lemma {:induction false} LiveDrop(v: View, c: int)
    ensures SubLive(Live(v) - {c}, LiveHeap(v.h - {c}) + v.mm)
  {
  }

  ghost predicate Bounded(arena: set<int>) {
    forall a :: a in arena ==> a < WORD
  }

  lemma {:induction false} BoundedSize(m: Memory, mal: int, v: View, c: int)
    requires Inv(m, mal, v, 0) && Bounded(v.arena) && c in v.h && v.h[c].size > 0
    ensures v.h[c].size < WORD && c + v.h[c].size < WORD
  {
    hide Shaped, Chained, Apart, Headers, Binned, BinsLinked, Regions, Mmaps;
    Around(v.h, c);
    HeaderInArena(v.h, v.arena, c + v.h[c].size, c + v.h[c].size);
    ChunkShape(v.h, c);
  }

  lemma {:induction false} BoundedMore(arena: set<int>, lo: int, hi: int)
    requires Bounded(arena) && hi <= WORD
    ensures Bounded(arena + Range(lo, hi))
  {
  }

  lemma {:induction false} PageIsUnits(p: int, len: int)
    requires p % PAGE_SIZE == 0 && len % PAGE_SIZE == 0 && p > 0 && len > 0
    ensures p % SIZE_ALIGN == 0 && len % SIZE_ALIGN == 0 && len >= 4096 && p >= 4096
    ensures SetLow(len) == len + 1 && SetLow(len - 32) == len - 31 && ClearLow(len - 16) == len - 16
    ensures (p + 16) % SIZE_ALIGN == 16
  {
    PageUnits(p);
    PageUnits(len);
    AddUnits(p, 16, 0, 16);
    SubUnits(len, 32, 0, 0);
    AddUnits(len - 32, 16, 0, 16);
    EvenUnits(len);
    EvenUnits(len - 32);
    EvenUnits(len - 16);
  }

  lemma {:induction false} PageSum(a: int, b: int)
    requires a % PAGE_SIZE == 0 && b % PAGE_SIZE == 0
    ensures (a + b) % PAGE_SIZE == 0
  {
    DivUnique(a + b, PAGE_SIZE, a / PAGE_SIZE + b / PAGE_SIZE, 0);
  }

  /** The client gained exactly the heap chunk c. */
  ghost predicate Handed(v: View, v': View, c: int, size: int) {
    && v'.mm == v.mm && c !in Live(v)
    && c in v'.h && v'.h[c].used && v'.h[c].size == size > 0
    && LiveHeap(v'.h) == LiveHeap(v.h)[c := size]
    && Used(v'.h) == Used(v.h) + size
  }

  /** ... and an in-use chunk follows it, so that it may be split. */
  ghost predicate Got(v: View, v': View, c: int, size: int) {
    Handed(v, v', c, size) && c + size in v'.h && v'.h[c + size].used
  }

  ghost predicate Grown(v: View, v': View, c: int, size: int) {
    Got(v, v', c, size) && v'.ls == v.ls && Free(v'.h) == Free(v.h)
  }

  lemma {:induction false} GrownFacts(v: View, v': View, c: int, size: int)
    requires Grown(v, v', c, size)
    ensures c in v'.h && v'.h[c].size == size && v'.ls == v.ls && Free(v'.h) == Free(v.h)
  {
  }

  lemma {:induction false} GrowInPlaceAbstract(m: Memory, mal: int, v: View, p: int, len: nat, arena: set<int>)
    requires Inv(m, mal, v, 0) && Sentinel0(v.h, p - 16) && len > 0 && p - 16 + len !in v.h
    ensures var v' := v.(h := Extend(v.h, p - 16, len), arena := arena);
            Grown(v, v', p - 16, len) && EndOk(p + len, v'.h)
  {
    MmapNotHeap(m, mal, v, p - 16);
    SentinelUsed(v.h, p - 16);
    hide Inv, Used, Free, LiveHeap, Grown, EndOk;
    ExtendedIsGrown(v, p - 16, len, arena);
  }

  lemma {:induction false} ExtendedIsGrown(v: View, e: int, len: nat, arena: set<int>)
    requires Sentinel0(v.h, e) && v.h[e].used && e !in v.mm && len > 0 && e + len !in v.h
    ensures var v' := v.(h := Extend(v.h, e, len), arena := arena);
            Grown(v, v', e, len) && EndOk(e + 16 + len, v'.h)
  {
    hide Used, Free;
    LiveExtend(v.h, e, len);
    ExtendSums(v.h, e, len);
  }

  // Growth of the region [p, p + len), contiguous with the heap's end or not.
  function GrownChunk(p: int, atEnd: bool): int { if atEnd then p - 16 else p + 16 }
  function GrownSize(len: int, atEnd: bool): int { if atEnd then len else len - 32 }
  function GrownBase(m: Memory, p: int, atEnd: bool): Memory { if atEnd then m else m[p + 16 := 1] }

  function GrownView(v: View, p: int, len: nat, atEnd: bool): View
    requires (atEnd ==> p - 16 in v.h) && len >= 32
  {
    if atEnd then v.(h := Extend(v.h, p - 16, len), arena := v.arena + Range(p, p + len))
    else v.(h := NewSegment(v.h, p + 16, len - 32), arena := v.arena + Range(p + 16, p + len))
  }

  lemma {:induction false} GrowAll(m: Memory, mal: int, v: View, pages: Memory, p: int, len: nat, atEnd: bool)
    requires Inv(m, mal, v, 0) && Pages(m, pages, p, len) && Bounded(v.arena)
    requires atEnd ==> Sentinel0(v.h, p - 16)
    requires p % PAGE_SIZE == 0 && len % PAGE_SIZE == 0 && p > 0 && len > 0 && p + len < WORD
    ensures SetLow(len) == len + 1 && SetLow(len - 32) == len - 31 && len >= 4096
    ensures var c, size, v' := GrownChunk(p, atEnd), GrownSize(len, atEnd), GrownView(v, p, len, atEnd);
            var m' := ExtendStores(GrownBase(m + pages, p, atEnd), c, size);
            && Inv(m', mal, v', 0) && Kept(m, m', Live(v))
            && Grown(v, v', c, size) && EndOk(p + len, v'.h) && Bounded(v'.arena)
  {
    hide Inv, Kept, LiveHeap, Pages, Used, Free, Range, Bounded, Extend, NewSegment, Grown, ExtendStores, EndOk;
    PageIsUnits(p, len);
    if atEnd {
      GrowInPlace(m, mal, v, pages, p, len);
      GrowInPlaceAbstract(m, mal, v, p, len, v.arena + Range(p, p + len));
      BoundedMore(v.arena, p, p + len);
    } else {
      GrowElsewhere(m, mal, v, pages, p, len);
      GrowElsewhereAbstract(m, mal, v, pages, p, len, v.arena + Range(p + 16, p + len));
      BoundedMore(v.arena, p + 16, p + len);
    }
  }

  lemma {:induction false} MmapNotHeap(m: Memory, mal: int, v: View, c: int)
    requires Shaped(v.h) && Covered(v.arena, v.h) && Mmaps(m, mal, v.arena, v.mm) && c in v.h
    ensures c !in v.mm
  {
    HeaderInArena(v.h, v.arena, c, c);
  }

  lemma {:induction false} GrowElsewhereAbstract(m: Memory, mal: int, v: View, pages: Memory, p: int, len: nat,
                                                 arena: set<int>)
    requires Inv(m, mal, v, 0) && Pages(m, pages, p, len) && len >= 64
    requires p + 16 !in v.h && p + len - 16 !in v.h
    ensures var v' := v.(h := NewSegment(v.h, p + 16, len - 32), arena := arena);
            Grown(v, v', p + 16, len - 32) && EndOk(p + len, v'.h)
  {
    hide Inv, Pages, Used, Free, LiveHeap, Grown, EndOk;
    MmapIsNew(m, mal, v, pages, p, len);
    NewSegmentIsGrown(v, p + 16, len - 32, arena);
  }

  lemma {:induction false} NewSegmentIsGrown(v: View, c: int, len: nat, arena: set<int>)
    requires c !in v.h && c !in v.mm && c + len !in v.h && len > 0
    ensures var v' := v.(h := NewSegment(v.h, c, len), arena := arena);
            Grown(v, v', c, len) && EndOk(c + 16 + len, v'.h)
  {
    hide Used, Free;
    LiveNewSegment(v.h, c, len);
    NewSegmentSums(v.h, c, len);
  }

  /** The masked bitmap and the bins: bin j is the first non-empty one from i on. */
  ghost predicate FirstNonEmpty(ls: seq<seq<int>>, i: int, j: int) {
    |ls| == 64 && 0 <= i <= j < 64 && ls[j] != [] && forall l :: i <= l < j ==> ls[l] == []
  }

  ghost predicate NoneFrom(ls: seq<seq<int>>, i: int) {
    |ls| == 64 && 0 <= i && forall l :: i <= l < 64 ==> ls[l] == []
  }

  lemma {:induction false} MaskMeans(binmap: nat, ls: seq<seq<int>>, i: nat)
    requires Bitmap(binmap, ls) && i < 64
    ensures MaskHighBits(binmap, i) == 0 ==> NoneFrom(ls, i)
    ensures MaskHighBits(binmap, i) != 0 ==> FirstNonEmpty(ls, i, FirstSet(MaskHighBits(binmap, i)))
  {
    MaskHighBitsIs(binmap, i);
    WordIsPow2();
    hide MaskHighBits, Pow2;
    var mask := MaskHighBits(binmap, i);
    if mask == 0 {
      forall l | i <= l < 64 ensures ls[l] == [] {
        BitZero(l);
      }
    } else {
      BitBelow(mask, 64, FirstSet(mask));
      hide Bit, FirstSet;
    }
  }

  lemma {:induction false} HeadOfBin(m: Memory, mal: int, v: View, j: nat)
    requires Inv(m, mal, v, 0) && j < 64 && Linked(m, Sentinel(mal, j), v.ls[j])
    ensures Sentinel(mal, j) + NEXT in m
    ensures v.ls[j] == [] ==> m[Sentinel(mal, j) + NEXT] == Sentinel(mal, j)
    ensures v.ls[j] != [] ==>
              && m[Sentinel(mal, j) + NEXT] == v.ls[j][0] != Sentinel(mal, j)
              && v.ls[j][0] in v.h && v.h[v.ls[j][0]].size > 0 && BinOf(v.h[v.ls[j][0]].size) == j
  {
    hide Shaped, Chained, Apart, Headers, BinsLinked, Covered, Regions, Mmaps, Nodes, Linked, BinOf, Binned;
    Head(m, Sentinel(mal, j), v.ls[j]);
    if v.ls[j] != [] {
      Listed(v.h, v.ls, 0, j, 0);
      FreeHasBody(v.h, v.ls[j][0]);
      BinnedNodes(m, mal, v.h, v.arena, v.ls, 0);
      BinSeparate(mal, v.arena, v.ls, j);
    }
  }

  // ---- requests ----

  const PTRDIFF_MAX: nat := 0x7fff_ffff_ffff_ffff

  datatype Adjusted = Refused | Adjusted(n: nat)

  function AdjustSize(n: int): Adjusted {
    if Wrap(n - 1) > PTRDIFF_MAX - SIZE_ALIGN - PAGE_SIZE then
      if n != 0 then Refused else Adjusted(SIZE_ALIGN)
    else
      Adjusted(AlignUp(Wrap(n + OVERHEAD), SIZE_ALIGN))
  }

  /** adjust_size: the least multiple of 32 that holds the request and a header. */
  lemma AdjustSizeIs(n: nat)
    requires n < WORD
    ensures AdjustSize(n).Refused? <==> n > PTRDIFF_MAX - SIZE_ALIGN - PAGE_SIZE + 1
    ensures AdjustSize(n).Adjusted? ==>
              var a := AdjustSize(n).n;
              BinIndex.IsSize(a) && n + OVERHEAD <= a && a < n + OVERHEAD + SIZE_ALIGN
  {
    hide AlignUp, Pow2;
    if n > 0 {
      WrapSmall(n - 1);
      if n <= PTRDIFF_MAX - SIZE_ALIGN - PAGE_SIZE + 1 {
        WrapSmall(n + OVERHEAD);
        HalfWordIsPow2();
        AlignUpIs(n + OVERHEAD, 5);
      }
    }
  }

  lemma {:induction false} UnbinIsGot(m: Memory, mal: int, v: View, j: nat, end: int)
    requires Inv(m, mal, v, 0) && j < 64 && v.ls[j] != [] && v.ls[j][0] in v.h
    requires !v.h[v.ls[j][0]].used && v.h[v.ls[j][0]].size > 0
    ensures var v', c := UnbinView(v, j, 0), v.ls[j][0];
            && Got(v, v', c, v.h[c].size)
            && Used(v'.h) == Used(v.h) + v.h[c].size && Free(v'.h) == Free(v.h) - v.h[c].size
            && (EndOk(end, v.h) ==> EndOk(end, v'.h)) && v'.arena == v.arena
  {
    MmapNotHeap(m, mal, v, v.ls[j][0]);
    NeighboursAt(v.h, v.ls[j][0]);
    hide Inv, Used, Free, Got, EndOk, LiveHeap, Neighbours;
    UnbinnedIsGot(v, j, end);
  }

  lemma {:induction false} UnbinnedIsGot(v: View, j: nat, end: int)
    requires j < |v.ls| && v.ls[j] != [] && v.ls[j][0] in v.h && v.ls[j][0] !in v.mm
    requires !v.h[v.ls[j][0]].used && v.h[v.ls[j][0]].size > 0 && Neighbours(v.h, v.ls[j][0])
    ensures var v', c := UnbinView(v, j, 0), v.ls[j][0];
            && Got(v, v', c, v.h[c].size)
            && Used(v'.h) == Used(v.h) + v.h[c].size && Free(v'.h) == Free(v.h) - v.h[c].size
            && (EndOk(end, v.h) ==> EndOk(end, v'.h)) && v'.arena == v.arena
  {
    hide Used, Free;
    LiveAllocate(v.h, v.ls[j][0]);
    AllocateSums(v.h, v.ls[j][0]);
  }

  // ---- which free chunk serves n bytes ----

  /** No free chunk is in a bin from bin_index_up(n) on. */
  ghost predicate NoFit(h: Chunks, n: nat) {
    && BinIndex.IsSize(n) && n <= BinIndex.MMAP_THRESHOLD
    && forall d :: d in h && !h[d].used ==> BinOf(h[d].size) < BinIndex.IndexUp(n)
  }

  /** c is free, in a bin from bin_index_up(n) on, at the head of its list, so that
      it has waited longest there; no free chunk is in a bin between. */
  ghost predicate BestFit(v: View, n: nat, c: int) {
    && BinIndex.IsSize(n) && n <= BinIndex.MMAP_THRESHOLD && c in v.h && !v.h[c].used
    && var i, j := BinIndex.IndexUp(n), BinOf(v.h[c].size);
       && i <= j < |v.ls| && v.ls[j] != [] && v.ls[j][0] == c
       && forall d :: d in v.h && !v.h[d].used ==> BinOf(v.h[d].size) < i || j <= BinOf(v.h[d].size)
  }

  /** v is u with c cut to n bytes, if c is larger. */
  ghost predicate CutTo(u: View, v: View, c: int, n: nat) {
    c in u.h && if u.h[c].size == n then v == u else Cut(u, v, c, n)
  }

  /** v serves n bytes from v0's best fit. */
  ghost predicate ServedFrom(v0: View, v: View, c: int, n: nat) {
    BestFit(v0, n, c) && CutTo(UnbinView(v0, BinOf(v0.h[c].size), 0), v, c, n)
  }

  /** v serves n bytes from the region [p, p + len) by which v0 has grown. */
  ghost predicate ServedByGrowth(v0: View, v: View, c: int, n: nat, p: int, len: nat, atEnd: bool) {
    && NoFit(v0.h, n) && len >= 32 && (atEnd ==> p - 16 in v0.h)
    && c == GrownChunk(p, atEnd) && CutTo(GrownView(v0, p, len, atEnd), v, c, n)
  }

  lemma {:induction false} FirstIsBest(m: Memory, mal: int, v: View, n: nat, j: nat, c: int)
    requires Inv(m, mal, v, 0) && BinIndex.IsSize(n) && n <= BinIndex.MMAP_THRESHOLD
    requires FirstNonEmpty(v.ls, BinIndex.IndexUp(n), j) && c == v.ls[j][0] && c in v.h && !v.h[c].used
    requires BinOf(v.h[c].size) == j
    ensures BestFit(v, n, c) && !NoFit(v.h, n)
  {
    hide Inv, BinIndex.IndexUp, BinIndex.Index, BinOf;
    forall d | d in v.h && !v.h[d].used ensures BinOf(v.h[d].size) < BinIndex.IndexUp(n) || j <= BinOf(v.h[d].size) {
      FreeIsListed(m, mal, v, d);
    }
  }

  lemma {:induction false} NoneIsNoFit(m: Memory, mal: int, v: View, n: nat)
    requires Inv(m, mal, v, 0) && BinIndex.IsSize(n) && n <= BinIndex.MMAP_THRESHOLD
    requires NoneFrom(v.ls, BinIndex.IndexUp(n))
    ensures NoFit(v.h, n)
  {
    hide Inv, BinIndex.IndexUp, BinIndex.Index, BinOf;
    forall d | d in v.h && !v.h[d].used ensures BinOf(v.h[d].size) < BinIndex.IndexUp(n) {
      FreeIsListed(m, mal, v, d);
    }
  }

  /** The best fit has room, and is not much larger than any other free chunk from
      those bins; up to 33 units it is a smallest one. */
  lemma {:induction false} BestFitIsSmall(m: Memory, mal: int, v: View, n: nat, c: int, d: int)
    requires Inv(m, mal, v, 0) && BestFit(v, n, c) && d in v.h && !v.h[d].used
    requires BinOf(v.h[d].size) >= BinIndex.IndexUp(n)
    ensures n <= v.h[c].size
    ensures BinOf(v.h[c].size) < 63 ==> 4 * v.h[c].size < 5 * (v.h[d].size + SIZE_ALIGN)
    ensures v.h[c].size <= 33 * SIZE_ALIGN ==> v.h[c].size <= v.h[d].size
  {
    FreeIsListed(m, mal, v, c);
    FreeIsListed(m, mal, v, d);
    var s, t := v.h[c].size, v.h[d].size;
    hide Inv, BinIndex.IndexUp, BinIndex.Index, BinOf;
    BinIndex.GoodFit(s, n);
    if BinOf(s) < 63 {
      BinIndex.LowerBinIsSmaller(s, t);
    } else {
      BinIndex.LastBin(s);
    }
  }

  /** Bin i, but not the last one, begins with a chunk of exactly n bytes. */
  ghost predicate ExactHead(v: View, i: nat, n: nat) {
    i < 63 && i < |v.ls| && v.ls[i] != [] && v.ls[i][0] in v.h && v.h[v.ls[i][0]].size == n
  }

  /** The chunk taken from bin j, before it is cut. */
  ghost predicate Taken(v0: View, v: View, c: int, n: nat) {
    BestFit(v0, n, c) && v == UnbinView(v0, BinOf(v0.h[c].size), 0)
  }

  ghost predicate TakenByGrowth(v0: View, v: View, c: int, n: nat, p: int, len: nat, atEnd: bool) {
    && NoFit(v0.h, n) && len >= 32 && (atEnd ==> p - 16 in v0.h)
    && c == GrownChunk(p, atEnd) && v == GrownView(v0, p, len, atEnd)
  }

  lemma {:induction false} TakenIs(v0: View, n: nat, j: nat, c: int)
    requires BestFit(v0, n, c) && BinOf(v0.h[c].size) == j
    ensures Taken(v0, UnbinView(v0, j, 0), c, n)
    ensures v0.h[c].size == n ==> ServedFrom(v0, UnbinView(v0, j, 0), c, n)
  {
    hide BinOf, BinIndex.IndexUp, BinIndex.Index;
  }

  /** Cutting what was taken serves the request. */
  lemma {:induction false} ServedIs(v0: View, u: View, v: View, c: int, n: nat)
    requires Taken(v0, u, c, n) && CutTo(u, v, c, n)
    ensures ServedFrom(v0, v, c, n)
  {
    hide BestFit, CutTo;
  }

  lemma {:induction false} ServedFits(v0: View, v: View, c: int, n: nat)
    requires ServedFrom(v0, v, c, n)
    ensures !NoFit(v0.h, n)
  {
    hide BinOf, BinIndex.IndexUp;
  }

  lemma {:induction false} GrowthServes(v0: View, u: View, v: View, c: int, n: nat, p: int, len: nat, atEnd: bool)
    requires TakenByGrowth(v0, u, c, n, p, len, atEnd) && CutTo(u, v, c, n)
    ensures ServedByGrowth(v0, v, c, n, p, len, atEnd)
  {
    hide CutTo, NoFit;
  }

  lemma {:induction false} CutToIs(u: View, v: View, c: int, n: nat)
    requires c in u.h && if u.h[c].size == n then v == u else Cut(u, v, c, n)
    ensures CutTo(u, v, c, n)
  {
    hide Cut;
  }

  /** No free chunk is much larger than n. */
  ghost predicate TightFit(h: Chunks, n: int) {
    forall d :: d in h && !h[d].used ==> 4 * h[d].size < 5 * n && (n <= 33 * SIZE_ALIGN ==> h[d].size < n)
  }

  lemma {:induction false} SearchedAll(h: Chunks, ls: seq<seq<int>>, n: nat)
    requires Shaped(h) && Binned(h, ls, 0) && BinIndex.IsSize(n) && n <= BinIndex.MMAP_THRESHOLD
    requires NoneFrom(ls, BinIndex.IndexUp(n))
    ensures TightFit(h, n)
  {
    hide BinIndex.Index, BinIndex.IndexUp;
    forall d | d in h && !h[d].used
      ensures 4 * h[d].size < 5 * n && (n <= 33 * SIZE_ALIGN ==> h[d].size < n)
    {
      FreeHasBody(h, d);
      BinIndex.SmallBinsAreSmall(h[d].size, n);
    }
  }

  lemma {:induction false} GoodFitBin(size: nat, n: nat, i: nat, j: nat)
    requires BinIndex.IsSize(n) && n <= BinIndex.MMAP_THRESHOLD && i == BinIndex.IndexUp(n)
    requires BinIndex.IsSize(size) && BinOf(size) == j && i <= j
    ensures n <= size
  {
    BinIndex.GoodFit(size, n);
  }

  lemma {:induction false} HonestKeys(m: Memory, m': Memory, storedBrk: nat, os: Os, n: nat, len: nat)
    requires m.Keys == m'.Keys
    ensures HonestBrk(m, storedBrk, os, n) ==> HonestBrk(m', storedBrk, os, n)
    ensures HonestMmap(m, os, len) ==> HonestMmap(m', os, len)
  {
    assert forall p, k :: Fresh(m, p, k) ==> Fresh(m', p, k);
  }

  lemma {:induction false} HandedThenTrimmed(v: View, v1: View, v2: View, c: int, size: int, n: int)
    requires Handed(v, v1, c, size) && v2.mm == v1.mm && 0 < n
    requires c in v2.h && v2.h[c].used && v2.h[c].size == n
    requires LiveHeap(v2.h) == LiveHeap(v1.h)[c := n] && Used(v2.h) == Used(v1.h) - (size - n)
    ensures Handed(v, v2, c, n)
  {
  }

  lemma {:induction false} HandedKeeps(v: View, v': View, c: int, size: int)
    requires Handed(v, v', c, size)
    ensures SubLive(Live(v), Live(v') - {c})
  {
  }

  lemma {:induction false} GotFacts(v: View, v': View, c: int, size: int)
    requires Got(v, v', c, size)
    ensures Handed(v, v', c, size) && c in v'.h && v'.h[c].used && v'.h[c].size == size && v'.mm == v.mm
    ensures c + size in v'.h && v'.h[c + size].used
    ensures Used(v'.h) == Used(v.h) + size
  {
  }

  lemma {:induction false} SearchedAllInv(m: Memory, mal: int, v: View, n: nat)
    requires Inv(m, mal, v, 0) && BinIndex.IsSize(n) && n <= BinIndex.MMAP_THRESHOLD
    requires NoneFrom(v.ls, BinIndex.IndexUp(n))
    ensures TightFit(v.h, n)
  {
    hide Chained, Apart, Headers, BinsLinked, Covered, Regions, Mmaps, BinIndex.IndexUp, Shaped, Binned, NoneFrom;
    SearchedAll(v.h, v.ls, n);
  }

  ghost function SkipSize(h: Chunks, skip: int): int {
    if skip != 0 && skip in h then h[skip].size else 0
  }

  // ---- free ----

  /** The size of the free chunk before self, or 0. */
  ghost function PrevFree(h: Chunks, self: int): int
    requires self in h
  {
    var p := h[self].psize;
    if p > 0 && self - p in h && !h[self - p].used then p else 0
  }

  ghost function NextFree(h: Chunks, next: int): int
    requires next in h
  {
    if h[next].used then 0 else h[next].size
  }

  /** A free chunk is found on the list of its size class. */
  ghost predicate OnItsList(v: View, c: int) {
    && c in v.h && !v.h[c].used && BinIndex.IsSize(v.h[c].size) && |v.ls| == 64
    && BinOf(v.h[c].size) == BinIndex.Index(v.h[c].size) < 64
    && c in v.ls[BinOf(v.h[c].size)]
  }

  lemma {:induction false} FreeIsListed(m: Memory, mal: int, v: View, c: int)
    requires Inv(m, mal, v, 0) && c in v.h && !v.h[c].used
    ensures OnItsList(v, c)
  {
    hide Chained, Apart, Headers, BinsLinked, Covered, Regions, Mmaps, BinIndex.Index, BinOf;
    FreeHasBody(v.h, c);
    BinOfSize(v.h[c].size);
  }

  lemma {:induction false} PrevReads(m: Memory, mal: int, v: View, self: int)
    requires Inv(m, mal, v, 0) && self in v.h
    ensures self in m && (m[self] % 2 == 1 <==> PrevFree(v.h, self) == 0)
    ensures PrevFree(v.h, self) > 0 ==>
              && m[self] == PrevFree(v.h, self) == v.h[self].psize
              && self - v.h[self].psize in v.h && !v.h[self - v.h[self].psize].used
              && v.h[self - v.h[self].psize].size == v.h[self].psize
  {
    hide Shaped, Chained, Apart, Headers, BinsLinked, Covered, Regions, Mmaps, Binned;
    HeaderAt(m, v.h, self);
    NeighboursAt(v.h, self);
    EvenPsize(v.h, self);
  }

  lemma {:induction false} HeaderAt(m: Memory, h: Chunks, c: int)
    requires Headers(m, h) && c in h
    ensures HeaderOk(m, h, c)
  {
  }

  lemma {:induction false} NeighboursAt(h: Chunks, c: int)
    requires Chained(h) && c in h
    ensures Neighbours(h, c)
  {
  }

  lemma {:induction false} PrevUsed(m: Memory, mal: int, v: View, self: int)
    requires Inv(m, mal, v, 0) && self in v.h && PrevFree(v.h, self) == 0
    ensures v.h[self].psize == 0 || (self - v.h[self].psize in v.h && v.h[self - v.h[self].psize].used)
  {
    hide Shaped, Apart, Headers, BinsLinked, Covered, Regions, Mmaps, Binned;
    assert Neighbours(v.h, self);
  }

  lemma {:induction false} EvenPsize(h: Chunks, c: int)
    requires Shaped(h) && c in h
    ensures h[c].psize % 2 == 0 && h[c].size % 2 == 0
  {
    SizesAt(h, c);
    hide Shaped;
    EvenUnits(h[c].psize);
    EvenUnits(h[c].size);
  }

  lemma {:induction false} SizesAt(h: Chunks, c: int)
    requires Shaped(h) && c in h
    ensures h[c].psize % SIZE_ALIGN == 0 && h[c].size % SIZE_ALIGN == 0
  {
  }

  lemma {:induction false} NextReads(m: Memory, mal: int, v: View, next: int)
    requires Inv(m, mal, v, 0) && next in v.h
    ensures next + 8 in m && m[next + 8] == Word(v.h[next].size, v.h[next].used)
    ensures (m[next + 8] % 2 == 1 <==> v.h[next].used) && ClearLow(m[next + 8]) == v.h[next].size
    ensures !v.h[next].used ==> v.h[next].size > 0
  {
    hide Shaped, Chained, Apart, Headers, BinsLinked, Covered, Regions, Mmaps, Binned;
    HeaderAt(m, v.h, next);
    EvenPsize(v.h, next);
    if !v.h[next].used { FreeHasBody(v.h, next); }
  }

  lemma {:induction false} UnbinLive(m: Memory, mal: int, v: View, c: int, i: nat, k: nat)
    requires Inv(m, mal, v, 0) && i < |v.ls| && k < |v.ls[i]| && v.ls[i][k] == c && c in v.h && !v.h[c].used
    ensures SubLive(Live(v), Live(UnbinView(v, i, k)))
  {
    hide Chained, Apart, Headers, BinsLinked, Covered, Regions, Mmaps, Binned;
    FreeHasBody(v.h, c);
    LiveAllocate(v.h, c);
  }

  // ---- the order of the lists ----

  ghost function Filtered(L: seq<int>, c: int): seq<int> {
    if L == [] then [] else (if L[0] == c then [] else [L[0]]) + Filtered(L[1..], c)
  }

  /** The lists without c, all others in their places. */
  ghost function Dropped(ls: seq<seq<int>>, c: int): (r: seq<seq<int>>)
    ensures |r| == |ls|
  {
    seq(|ls|, i requires 0 <= i < |ls| => Filtered(ls[i], c))
  }

  /** c joins the tail of list j. */
  ghost function Queued(ls: seq<seq<int>>, c: int, j: int): seq<seq<int>> {
    if 0 <= j < |ls| then ls[j := ls[j] + [c]] else ls
  }

  lemma {:induction false} FilteredNothing(L: seq<int>, c: int)
    requires c !in L
    ensures Filtered(L, c) == L
  {
    if L != [] {
      FilteredNothing(L[1..], c);
      assert L == [L[0]] + L[1..];
    }
  }

  lemma {:induction false} FilteredOne(L: seq<int>, k: nat)
    requires Distinct(L) && k < |L|
    ensures Filtered(L, L[k]) == Without(L, k)
  {
    if k == 0 {
      FilteredNothing(L[1..], L[0]);
      assert Without(L, 0) == L[1..];
    } else {
      FilteredOne(L[1..], k - 1);
      assert Without(L, k) == [L[0]] + Without(L[1..], k - 1);
    }
  }

  lemma {:induction false} DroppedOne(h: Chunks, ls: seq<seq<int>>, i: nat, k: nat)
    requires Binned(h, ls, 0) && i < 64 && k < |ls[i]|
    ensures ls[i := Without(ls[i], k)] == Dropped(ls, ls[i][k])
  {
    hide BinOf;
    var c := ls[i][k];
    assert OnList(h, i, c, 0);
    forall j | 0 <= j < 64 && j != i ensures c !in ls[j] {
      forall l | 0 <= l < |ls[j]| ensures ls[j][l] != c { assert OnList(h, j, ls[j][l], 0); }
    }
    hide Binned, OnList;
    forall j | 0 <= j < 64 ensures ls[i := Without(ls[i], k)][j] == Dropped(ls, c)[j] {
      if j == i { FilteredOne(ls[i], k); } else { FilteredNothing(ls[j], c); }
    }
  }

  lemma {:induction false} DroppedNothing(h: Chunks, ls: seq<seq<int>>, c: int)
    requires Binned(h, ls, 0) && (c !in h || h[c].used)
    ensures Dropped(ls, c) == ls
  {
    hide BinOf;
    forall j | 0 <= j < 64 ensures c !in ls[j] {
      forall l | 0 <= l < |ls[j]| ensures ls[j][l] != c { assert OnList(h, j, ls[j][l], 0); }
    }
    hide Binned, OnList;
    forall j | 0 <= j < 64 ensures ls[j] == Dropped(ls, c)[j] {
      FilteredNothing(ls[j], c);
    }
  }

  lemma {:induction false} UnbinDrops(m: Memory, mal: int, v: View, i: nat, k: nat)
    requires Inv(m, mal, v, 0) && i < 64 && k < |v.ls[i]| && v.ls[i][k] in v.h
    ensures UnbinView(v, i, k).ls == Dropped(v.ls, v.ls[i][k])
  {
    hide Tiled, Headers, Binned, BinsLinked, Covered, Regions, Mmaps, Dropped;
    DroppedOne(v.h, v.ls, i, k);
  }

  lemma {:induction false} UsedIsNotListed(m: Memory, mal: int, v: View, c: int)
    requires Inv(m, mal, v, 0) && (c !in v.h || v.h[c].used)
    ensures Dropped(v.ls, c) == v.ls
  {
    hide Tiled, Headers, Binned, BinsLinked, Covered, Regions, Mmaps, Dropped;
    DroppedNothing(v.h, v.ls, c);
  }

  /** Freeing c has left the free block blk: c and the free chunks on either side of
      it. Those have left their lists, blk is at the tail of its own, and the other
      free chunks have kept their places. */
  ghost predicate Coalesced(v0: View, v: View, c: int, blk: int) {
    && c in v0.h && c + v0.h[c].size in v0.h
    && var next := c + v0.h[c].size;
       && blk == c - PrevFree(v0.h, c) && blk in v.h && !v.h[blk].used
       && blk + v.h[blk].size == next + NextFree(v0.h, next)
       && v.ls == Queued(Dropped(Dropped(v0.ls, blk), next), blk, BinOf(v.h[blk].size))
  }

  lemma {:induction false} OffBinLinked(m: Memory, s: int, L: seq<int>, a: int, w: int)
    requires Linked(m, s, L) && OffBin(s, L, a)
    ensures Linked(m[a := w], s, L)
  {
    var m' := m[a := w];
    forall k | 0 <= k <= |L| ensures Link(m', s, L, k) {
      assert Link(m, s, L, k);
    }
  }

  lemma {:induction false} FuseLinked(m: Memory, mal: int, v: View, a: int, z: int, i: nat)
    requires Inv(m, mal, v, 0) && a in v.h && z in v.h && i < 64 && Linked(m, Sentinel(mal, i), v.ls[i])
    ensures Linked(FuseStores(m, a, z), Sentinel(mal, i), v.ls[i])
  {
    hide Shaped, Chained, Apart, Headers, Binned, BinsLinked, Covered, Regions, Mmaps, Nodes, Linked, OffBin, NoClash;
    BinnedNodes(m, mal, v.h, v.arena, v.ls, 0);
    ChunkShape(v.h, a);
    ChunkShape(v.h, z);
    HeaderInArena(v.h, v.arena, a, a + 8);
    HeaderInArena(v.h, v.arena, z, z);
    HeaderOffBin(mal, v.arena, v.ls, a + 8, i);
    HeaderOffBin(mal, v.arena, v.ls, z, i);
    OffBinLinked(m, Sentinel(mal, i), v.ls[i], a + 8, z - a);
    OffBinLinked(m[a + 8 := z - a], Sentinel(mal, i), v.ls[i], z, z - a);
  }

  /** The two header stores of the merge, from the state in which all chunks of
      the block are marked in use. */
  ghost predicate Fused(v0: View, v2: View, v3: View, m2: Memory, m3: Memory, mal: int, self: int, a: int, z: int) {
    && Inv(m3, mal, v3, a) && m3.Keys == m2.Keys
    && v3.ls == v2.ls && v3.arena == v2.arena && v3.mm == v2.mm
    && a in v3.h && !v3.h[a].used && v3.h[a].size == z - a && a > 0
    && BinIndex.IsSize(z - a)
    && LiveHeap(v3.h) == LiveHeap(v0.h) - {self}
    && Used(v3.h) == Used(v2.h) - (z - a) && Free(v3.h) == Free(v2.h) + (z - a)
    && Kept(m2, m3, Live(v2))
  }

  /** The block from a to z, as FuseStep needs it. */
  ghost predicate Ready(v: View, a: int, gone: set<int>, z: int) {
    && Gap(v.h, a, gone, z) && v.h[a].used && v.h[z].used
    && (forall d :: d in gone && d in v.h ==> v.h[d].used)
    && (forall b :: a <= b < z ==> b in v.arena)
    && (v.h[a].psize > 0 ==> a - v.h[a].psize in v.h && v.h[a - v.h[a].psize].used)
  }

  lemma {:induction false} MergeReady(h: Chunks, h1: Chunks, v2: View, self: int, a: int, next: int, z: int)
    requires Tiled(h) && Covered(v2.arena, h) && Merged(h, h1, v2.h, self, a, next, z)
    ensures a in v2.h && z in v2.h && a < z && Ready(v2, a, Gone(self, a, next, z), z)
  {
    hide Shaped, Chained, Apart, Covered, Merged, Gap;
    MergedAround(h, h1, v2.h, self, a, next, z);
    MergedDomain(h, h1, v2.h, self, a, next, z);
    MergedSelf(h, h1, v2.h, self, a, next, z);
    MergedGap(h, h1, v2.h, self, a, next, z);
    MergedCovered(v2.arena, h, self, a, next, z);
  }

  lemma {:induction false} FusedMemory(m: Memory, mal: int, v: View, a: int, gone: set<int>, z: int)
    requires Inv(m, mal, v, 0) && a in v.h && z in v.h && a < z && Ready(v, a, gone, z)
    ensures var m' := FuseStores(m, a, z);
            && Inv(m', mal, v.(h := Fuse(v.h, a, gone, z)), a)
            && m'.Keys == m.Keys && Kept(m, m', Live(v))
  {
    FuseMapped(m, mal, v, a, z);
    assert Neighbours(v.h, a);
    hide Inv, Untouched, Kept, LiveHeap, Gap, Fuse;
    FuseStep(m, mal, v, a, gone, z);
    UntouchedIsKept(m, FuseStores(m, a, z), v.h, v.mm);
  }

  lemma {:induction false} BlockSize(h: Chunks, a: int, z: int)
    requires Shaped(h) && a in h && z in h && a < z
    ensures a > 0 && BinIndex.IsSize(z - a)
  {
    hide Shaped, NoClash;
    ChunkShape(h, a);
    ChunkShape(h, z);
    SubUnits(z, a, 16, 16);
  }

  lemma {:induction false} BlockSums(h: Chunks, h1: Chunks, h2: Chunks, self: int, a: int, next: int, z: int)
    requires Tiled(h) && Merged(h, h1, h2, self, a, next, z)
    ensures a in h2 && z in h2 && a < z
    ensures var f := Fuse(h2, a, Gone(self, a, next, z), z);
            Used(f) == Used(h2) - (z - a) && Free(f) == Free(h2) + (z - a) && LiveHeap(f) == LiveHeap(h) - {self}
  {
    hide Shaped, Chained, Apart, Merged, Used, Free, LiveHeap;
    MergedAround(h, h1, h2, self, a, next, z);
    MergedDomain(h, h1, h2, self, a, next, z);
    MergedSelf(h, h1, h2, self, a, next, z);
    FusedSums(h2, self, a, next, z);
    MergedLive(h, h1, h2, self, a, next, z);
  }

  lemma {:induction false} FuseEffect(m0: Memory, v0: View, m2: Memory, v2: View, mal: int, h1: Chunks,
                                      self: int, a: int, next: int, z: int)
    requires Inv(m0, mal, v0, 0) && Inv(m2, mal, v2, 0) && Merged(v0.h, h1, v2.h, self, a, next, z)
    requires v2.arena == v0.arena
    ensures a in v2.h && z in v2.h && a < z
    ensures var v3 := v2.(h := Fuse(v2.h, a, Gone(self, a, next, z), z));
            Fused(v0, v2, v3, m2, FuseStores(m2, a, z), mal, self, a, z)
  {
    hide Inv, Tiled, Covered, Merged, Ready, Used, Free, LiveHeap, Kept, Gone, FuseStores;
    InvTiled(m0, mal, v0);
    InvTiled(m2, mal, v2);
    MergeReady(v0.h, h1, v2, self, a, next, z);
    BlockSums(v0.h, h1, v2.h, self, a, next, z);
    BlockSize(v2.h, a, z);
    FusedMemory(m2, mal, v2, a, Gone(self, a, next, z), z);
  }

  lemma {:induction false} MergedSelf(h: Chunks, h1: Chunks, h2: Chunks, self: int, a: int, next: int, z: int)
    requires Merged(h, h1, h2, self, a, next, z)
    ensures self in h && h[self].used && h[self].size > 0 && next == self + h[self].size
    ensures next in h1 && (z == next ==> h1 == h2)
  {
  }

  lemma {:induction false} FuseMapped(m: Memory, mal: int, v: View, a: int, z: int)
    requires Shaped(v.h) && Covered(v.arena, v.h) && Regions(m, mal, v.arena) && a in v.h && z in v.h
    ensures FuseStores(m, a, z).Keys == m.Keys
  {
    HeaderInArena(v.h, v.arena, a, a + 8);
    HeaderInArena(v.h, v.arena, z, z);
  }

  lemma {:induction false} InvTiled(m: Memory, mal: int, v: View)
    requires Inv(m, mal, v, 0)
    ensures Tiled(v.h) && Shaped(v.h) && Covered(v.arena, v.h)
  {
    hide Shaped, Chained, Apart, Headers, Binned, BinsLinked, Covered, Regions, Mmaps;
  }

  lemma {:induction false} KeptSub(m: Memory, m': Memory, l: map<int, int>, l': map<int, int>)
    requires Kept(m, m', l') && SubLive(l, l')
    ensures Kept(m, m', l)
  {
  }

  lemma {:induction false} FusedEnd(v0: View, v2: View, h1: Chunks, self: int, a: int, next: int, z: int, end: int)
    requires Tiled(v0.h) && Merged(v0.h, h1, v2.h, self, a, next, z) && a in v2.h && z in v2.h && a < z
    requires EndOk(end, v0.h)
    ensures EndOk(end, Fuse(v2.h, a, Gone(self, a, next, z), z))
  {
    MergedAround(v0.h, h1, v2.h, self, a, next, z);
    hide Shaped, Chained, Apart;
    if end != 0 {
      SentinelSurvives(v0.h, h1, v2.h, self, a, next, z, end - 16);
    }
  }

  /** Freeing osize bytes has made a large chunk whose highest bit the rest of it
      does not share: a power of two lies between the two sizes. */
  ghost predicate WorthReclaiming(size: int, osize: int) {
    size > RECLAIM && exists k: nat :: size - osize < Pow2(k) <= size
  }

  lemma WorthIs(size: nat, osize: nat)
    requires 0 < osize <= size
    ensures WorthReclaiming(size, osize) <==> size > RECLAIM && !ShareHighestBit(size, size - osize)
  {
    hide Pow2, ShareHighestBit, WorthReclaiming;
    var b: nat := size - osize;
    HighestBitSeparates(size, b);
    if WorthReclaiming(size, osize) {
      var k := WorthWitness(size, osize);
      assert b < Pow2(k) <= size;
    }
    if size > RECLAIM && !ShareHighestBit(size, b) {
      var k: nat :| b < Pow2(k) <= size;
      WitnessWorth(size, osize, k);
    }
  }

  lemma WorthWitness(size: int, osize: int) returns (k: nat)
    requires WorthReclaiming(size, osize)
    ensures size > RECLAIM && size - osize < Pow2(k) <= size
  {
    k :| size - osize < Pow2(k) <= size;
  }

  lemma WitnessWorth(size: int, osize: int, k: nat)
    requires size > RECLAIM && size - osize < Pow2(k) <= size
    ensures WorthReclaiming(size, osize)
  {
  }

  /** [lo, hi) are the whole pages of the chunk [a, z) without 32 bytes at each end. */
  ghost predicate WholePages(a: int, z: int, lo: int, hi: int) {
    && lo % PAGE_SIZE == 0 && hi % PAGE_SIZE == 0 && lo < hi
    && a + SIZE_ALIGN <= lo < a + SIZE_ALIGN + PAGE_SIZE
    && z - SIZE_ALIGN - PAGE_SIZE < hi <= z - SIZE_ALIGN
  }

  ghost predicate AllZero(m: Memory, lo: int, hi: int) {
    forall x :: lo <= x < hi ==> x in m && m[x] == 0
  }

  /** The words of [lo, hi) have become 0, and no other word has changed. */
  ghost predicate Zeroed(m: Memory, m': Memory, lo: int, hi: int) {
    && m'.Keys == m.Keys && AllZero(m', lo, hi)
    && forall x :: x in m && !(lo <= x < hi) ==> m'[x] == m[x]
  }

  /** The page range given back lies strictly inside the free chunk. */
  lemma {:induction false} ReclaimRange(a: int, z: int)
    requires 0 < a && a + RECLAIM < z < WORD
    ensures WholePages(a, z, AlignUp(a + SIZE_ALIGN, PAGE_SIZE), Align(z - SIZE_ALIGN, PAGE_SIZE))
  {
    hide And, Pow2, AlignUp, Align;
    AlignUpPage(a + SIZE_ALIGN);
    HalfWordIsPow2();
    AlignIs(z - SIZE_ALIGN, 12);
    var w := z - SIZE_ALIGN;
    DivUnique(w - w % PAGE_SIZE, PAGE_SIZE, w / PAGE_SIZE, 0);
  }

  function ZeroPages(m: Memory, lo: int, hi: int): Memory {
    map x | x in m && lo <= x < hi :: 0
  }

  lemma {:induction false} ReclaimStep(m: Memory, mal: int, v: View, a: int, lo: int, hi: int)
    requires Inv(m, mal, v, 0) && a in v.h && !v.h[a].used && a + 32 <= lo && hi <= a + v.h[a].size
    ensures var m' := m + ZeroPages(m, lo, hi);
            Inv(m', mal, v, 0) && Zeroed(m, m', lo, hi) && Kept(m, m', Live(v))
  {
    var words := ZeroPages(m, lo, hi);
    assert BodyWords(v.h, a, words);
    assert Zeroed(m, m + words, lo, hi) by {
      hide Shaped, Chained, Apart, Headers, Binned, BinsLinked, Mmaps;
      forall x | lo <= x < hi ensures x in m { BodyMapped(m, mal, v, a, x); }
    }
    hide Inv, Untouched, BodyWords, ZeroPages;
    BodyStep(m, mal, v, a, words);
    UntouchedIsKept(m, m + words, v.h - {a}, v.mm);
    assert LiveHeap(v.h - {a}) == LiveHeap(v.h);
  }

  /** The chunk before a free chunk is in use, so its `psize` word is odd. */
  lemma {:induction false} FreedTwice(m: Memory, mal: int, v: View, c: int)
    requires Inv(m, mal, v, 0) && c in v.h && !v.h[c].used
    ensures c in m && c + 8 in m && m[c + 8] % 2 == 0 && m[c] % 2 == 1
  {
    hide Shaped, Chained, Apart, Headers, BinsLinked, Covered, Regions, Mmaps, Binned, Word;
    NextReads(m, mal, v, c);
    PrevReads(m, mal, v, c);
    NeighboursAt(v.h, c);
    if c - v.h[c].psize in v.h { NeighboursAt(v.h, c - v.h[c].psize); }
  }

  lemma {:induction false} LiveCases(m: Memory, mal: int, v: View, c: int)
    requires Inv(m, mal, v, 0) && c in Live(v)
    ensures c in v.mm || (c in v.h && v.h[c].used && v.h[c].size > 0)
    ensures c in v.h ==> c !in v.mm
    ensures c % SIZE_ALIGN == 16 && c > 0 && Live(v)[c] >= 32
  {
    if c in v.h { MmapNotHeap(m, mal, v, c); }
    hide Chained, Apart, Headers, BinsLinked, Covered, Regions, Binned;
    if c in v.h { Around(v.h, c); }
  }

  lemma {:induction false} MmapReads(m: Memory, mal: int, v: View, c: int)
    requires Inv(m, mal, v, 0) && c in v.mm
    ensures c in m && c + 8 in m && m[c] == 16 && m[c + 8] == v.mm[c] && v.mm[c] % 2 == 0 && c !in v.h
  {
    hide Shaped, Chained, Apart, Headers, BinsLinked, Covered, Regions, Binned;
    if c in v.h { MmapNotHeap(m, mal, v, c); }
    hide Mmaps;
    MmapHeader(m, mal, v, c);
    EvenUnits(v.mm[c]);
  }

  lemma {:induction false} MmapHeader(m: Memory, mal: int, v: View, c: int)
    requires Mmaps(m, mal, v.arena, v.mm) && c in v.mm
    ensures c in m && c + 8 in m && m[c] == 16 && m[c + 8] == v.mm[c] && v.mm[c] % SIZE_ALIGN == 16
  {
  }

  lemma {:induction false} FreeReads(m: Memory, mal: int, v: View, self: int)
    requires Inv(m, mal, v, 0) && self in v.h && v.h[self].used && v.h[self].size > 0
    ensures self + v.h[self].size in v.h
    ensures self in m && self + 8 in m && m[self + 8] == v.h[self].size + 1 && ClearLow(m[self + 8]) == v.h[self].size
    ensures self + v.h[self].size in m && m[self + v.h[self].size] == m[self + 8]
  {
    SizeWord(m, mal, v, 0, self);
    hide Shaped, Apart, Headers, BinsLinked, Covered, Regions, Mmaps, Binned;
    assert Neighbours(v.h, self);
  }

  /** Chaining the two merges of the abstract heap. */
  lemma {:induction false} MergedOf(m: Memory, mal: int, v: View, h1: Chunks, h2: Chunks, self: int, a: int, next: int, z: int)
    requires Inv(m, mal, v, 0) && self in v.h && v.h[self].used && v.h[self].size > 0
    requires next == self + v.h[self].size && next in v.h
    requires PrevMerged(v.h, h1, self, a) && NextMerged(h1, h2, next, z)
    requires a == self - PrevFree(v.h, self) && z == next + NextFree(h1, next)
    ensures Merged(v.h, h1, h2, self, a, next, z)
    ensures Used(h2) - (z - a) == Used(v.h) - v.h[self].size
    ensures Free(h2) + (z - a) == Free(v.h) + v.h[self].size
    ensures NextFree(h1, next) == NextFree(v.h, next)
  {
    InvTiled(m, mal, v);
    hide Inv, Used, Free;
    MergedAround(v.h, h1, h2, self, a, next, z);
    MergedSums(v.h, h1, h2, self, a, next, z);
  }

  lemma {:induction false} NextUnaffected(m: Memory, mal: int, v: View, h1: Chunks, self: int, a: int, next: int)
    requires PrevMerged(v.h, h1, self, a) && self in v.h && next == self + v.h[self].size && next in v.h
    requires v.h[self].size > 0
    ensures next in h1 && NextFree(h1, next) == NextFree(v.h, next)
  {
  }

  lemma {:induction false} MmapNotLiveHeap(m: Memory, mal: int, v: View, c: int)
    requires Inv(m, mal, v, 0) && c in v.h
    ensures c !in v.mm
  {
    hide Chained, Apart, Headers, BinsLinked, Regions, Binned;
    MmapNotHeap(m, mal, v, c);
  }

  lemma {:induction false} FreeKept(m0: Memory, m2: Memory, m3: Memory, v0: View, v1: View, v2: View, v3: View)
    requires Kept(m0, m2, Live(v0)) && SubLive(Live(v0), Live(v1)) && SubLive(Live(v1), Live(v2))
    requires SubLive(Live(v3), Live(v0))
    requires SubLive(Live(v3), Live(v2)) ==> Kept(m2, m3, Live(v3))
    ensures Kept(m0, m3, Live(v3))
  {
    hide LiveHeap, Live;
    assert SubLive(Live(v3), Live(v2));
  }

  lemma {:induction false} LiveWithout(v0: View, v: View, c: int)
    requires LiveHeap(v.h) == LiveHeap(v0.h) - {c} && v.mm == v0.mm && c !in v0.mm
    ensures Live(v) == Live(v0) - {c} && SubLive(Live(v), Live(v0))
  {
  }

  lemma {:induction false} UnmapEffect(m: Memory, mal: int, v: View, c: int)
    requires Inv(m, mal, v, 0) && c in v.mm
    ensures var m', v' := m - Range(c - 16, c + v.mm[c]), v.(mm := v.mm - {c});
            && Inv(m', mal, v', 0) && Live(v') == Live(v) - {c} && Kept(m, m', Live(v'))
            && Mapped(v'.mm) == Mapped(v.mm) - v.mm[c]
  {
    hide Inv, Untouched, Range, Sum, LiveHeap, Kept;
    MmapReads(m, mal, v, c);
    UnmapStep(m, mal, v, c);
    UnmapLive(v, c);
    UntouchedIsKept(m, m - Range(c - 16, c + v.mm[c]), v.h, v.mm - {c});
    SumRemove(v.mm, Identity, c);
  }

  lemma {:induction false} UnmapLive(v: View, c: int)
    requires c in v.mm && c !in v.h
    ensures Live(v.(mm := v.mm - {c})) == Live(v) - {c} == LiveHeap(v.h) + (v.mm - {c})
  {
  }

  /** c is a new mmapped chunk: the memory is the old one and exactly the region
      mapped for it, and all that was live stays as it was. */
  ghost predicate NewMapping(m: Memory, m': Memory, v: View, v': View, c: int, size: int) {
    && v' == v.(mm := v.mm[c := size]) && c !in Live(v) && Live(v') == Live(v)[c := size]
    && m'.Keys == m.Keys + Range(c - 16, c + size) && m' - Range(c - 16, c + size) == m
    && Kept(m, m', Live(v)) && Mapped(v'.mm) == Mapped(v.mm) + size
    && (MappedBelow(v.mm) ==> MappedBelow(v'.mm))
  }

  lemma {:induction false} MmapEffect(m: Memory, mal: int, v: View, pages: Memory, p: int, len: nat)
    requires Inv(m, mal, v, 0) && Pages(m, pages, p, len)
    requires p > 0 && p % PAGE_SIZE == 0 && len > 0 && len % PAGE_SIZE == 0 && p + len < WORD
    ensures len >= 64 && ClearLow(len - 16) == len - 16 && (p + 16) % SIZE_ALIGN == 16
    ensures var m', v' := MmapStores(m, pages, p, len), v.(mm := v.mm[p + 16 := len - 16]);
            Inv(m', mal, v', 0) && NewMapping(m, m', v, v', p + 16, len - 16)
  {
    hide Inv, Untouched, Range, Pages, MmapStores, LiveHeap, Live, Kept, Mapped, MappedBelow, SetLow, ClearLow;
    PageIsUnits(p, len);
    MmapMemory(m, mal, v, pages, p, len);
    MmapIsNew(m, mal, v, pages, p, len);
    MmapLive(v, p + 16, len - 16);
    MapSum(v.mm, p + 16, len - 16);
    MappedMore(v.mm, p + 16, len - 16);
  }

  lemma {:induction false} MapSum(mm: map<int, int>, c: int, size: int)
    requires c !in mm
    ensures Mapped(mm[c := size]) == Mapped(mm) + size
  {
    hide Sum;
    SumSet(mm, Identity, c, size);
  }

  lemma {:induction false} MmapMemory(m: Memory, mal: int, v: View, pages: Memory, p: int, len: nat)
    requires Inv(m, mal, v, 0) && Pages(m, pages, p, len)
    requires p > 0 && p % SIZE_ALIGN == 0 && len >= 64 && len % SIZE_ALIGN == 0
    ensures var m' := MmapStores(m, pages, p, len);
            && Inv(m', mal, v.(mm := v.mm[p + 16 := len - 16]), 0) && Kept(m, m', Live(v))
            && m'.Keys == m.Keys + Range(p, p + len) && m' - Range(p, p + len) == m
  {
    hide Inv, Untouched, Range, Pages, MmapStores, LiveHeap, Kept;
    MmapStep(m, mal, v, pages, p, len);
    MmapDomain(m, pages, p, len);
    UntouchedIsKept(m, MmapStores(m, pages, p, len), v.h, v.mm);
  }

  /** The new memory is the old one and the mapped region. */
  lemma {:induction false} MmapDomain(m: Memory, pages: Memory, p: int, len: nat)
    requires Pages(m, pages, p, len) && len >= 64
    ensures var m' := MmapStores(m, pages, p, len);
            m'.Keys == m.Keys + Range(p, p + len) && m' - Range(p, p + len) == m
  {
    assert Between(p, p + 24, p + len) && Between(p, p + 16, p + len);
    assert p + 24 in Range(p, p + len) && p + 16 in Range(p, p + len);
    var m' := MmapStores(m, pages, p, len);
    forall a | a in m ensures a !in Range(p, p + len) && m'[a] == m[a] {
      assert a in Range(p, p + len) ==> Between(p, a, p + len);
    }
  }

  ghost predicate MappedBelow(mm: map<int, int>) {
    forall d :: d in mm ==> d + mm[d] <= WORD
  }

  lemma {:induction false} MappedMore(mm: map<int, int>, c: int, size: int)
    requires c + size <= WORD
    ensures MappedBelow(mm) ==> MappedBelow(mm[c := size])
  {
  }

  lemma {:induction false} MappedLess(mm: map<int, int>, c: int)
    ensures MappedBelow(mm) ==> MappedBelow(mm - {c})
  {
  }

  lemma {:induction false} MmapLive(v: View, c: int, size: int)
    requires c !in v.h && c !in v.mm
    ensures Live(v.(mm := v.mm[c := size])) == Live(v)[c := size] && c !in Live(v)
  {
  }

  lemma {:induction false} HandedLive(v: View, v': View, c: int, size: int)
    requires Handed(v, v', c, size)
    ensures Live(v') == Live(v)[c := size] && c !in Live(v) && v'.mm == v.mm && Used(v'.h) == Used(v.h) + size
  {
  }

  /** What the kernel has to promise for a request of n bytes. */
  ghost predicate HonestFor(m: Memory, storedBrk: nat, step: nat, os: Os, n: int) {
    match AdjustSize(n)
    case Refused => true
    case Adjusted(a) =>
      if a > BinIndex.MMAP_THRESHOLD then HonestMmap(m, os, AlignUp(a + OVERHEAD, PAGE_SIZE))
      else
        && HonestBrk(m, storedBrk, os, AlignUp(a + SIZE_ALIGN, PAGE_SIZE))
        && HonestMmap(m, os, MmapLen(AlignUp(a + SIZE_ALIGN, PAGE_SIZE), step))
  }

  /** The size of the chunk that serves a request of n bytes. */
  function ServedSize(n: int): int {
    match AdjustSize(n)
    case Refused => 0
    case Adjusted(a) =>
      if a > BinIndex.MMAP_THRESHOLD then AlignUp(a + OVERHEAD, PAGE_SIZE) - OVERHEAD else a
  }

  lemma {:induction false} ServedSizeIs(n: nat)
    requires n < WORD && AdjustSize(n).Adjusted?
    ensures n + OVERHEAD <= ServedSize(n)
    ensures AdjustSize(n).n > BinIndex.MMAP_THRESHOLD ==>
              var len := AlignUp(AdjustSize(n).n + OVERHEAD, PAGE_SIZE); len > 0 && len % PAGE_SIZE == 0
  {
    hide AlignUp, Wrap;
    AdjustSizeIs(n);
    var a := AdjustSize(n).n;
    if a > BinIndex.MMAP_THRESHOLD {
      AlignUpPage(a + OVERHEAD);
    }
  }

  function ZeroMap(s: set<int>): Memory {
    map a | a in s :: 0
  }

  function EmptyView(): View {
    View(map[], seq(64, _ => []), {}, map[])
  }

  lemma {:induction false} InitialInv(mal: int)
    requires mal > 0
    ensures Inv(ZeroMap(Range(mal, mal + MAL_SIZE)), mal, EmptyView(), 0)
    ensures Bitmap(0, EmptyView().ls)
    ensures Used(map[]) == 0 && Free(map[]) == 0 && Mapped(map[]) == 0
  {
    var m, v := ZeroMap(Range(mal, mal + MAL_SIZE)), EmptyView();
    forall i | 0 <= i < 64 ensures BinReady(m, Sentinel(mal, i), v.ls[i]) {
      SentinelApart(mal, i, i);
    }
    forall i: nat ensures !Bit(0, i) { BitZero(i); }
    var e: Chunks := map[];
    assert e.Keys == {};
    assert v.mm.Keys == {};
  }

  lemma {:induction false} WriteEffect(m: Memory, mal: int, v: View, c: int, a: int, w: int)
    requires Inv(m, mal, v, 0) && c in Live(v) && c + OVERHEAD <= a < c + Live(v)[c]
    ensures a in m && Inv(m[a := w], mal, v, 0) && Kept(m, m[a := w], Live(v) - {c})
  {
    LiveCases(m, mal, v, c);
    var words := map[a := w];
    assert m + words == m[a := w];
    if c in v.mm {
      hide Shaped, Chained, Apart, Headers, BinsLinked, Covered, Regions, Binned, Untouched;
      MmapWriteStep(m, mal, v, c, words);
      UntouchedIsKept(m, m[a := w], v.h, v.mm - {c});
      KeptSub(m, m[a := w], Live(v) - {c}, LiveHeap(v.h) + (v.mm - {c}));
    } else {
      BodyMapped(m, mal, v, c, a);
      hide Inv, Untouched;
      BodyStep(m, mal, v, c, words);
      UntouchedIsKept(m, m[a := w], v.h - {c}, v.mm);
      LiveDrop(v, c);
      KeptSub(m, m[a := w], Live(v) - {c}, LiveHeap(v.h - {c}) + v.mm);
    }
  }
}
