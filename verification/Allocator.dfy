/** The allocator of musl/oldmalloc.c as an object: word memory, bin bitmap,
    the function-level statics and the statistics, updated in place. The ghost
    view `v` is the abstract heap that the words represent. */
module Allocator {
  import opened Sizes
  import opened Bits
  import opened Heap
  import opened FreeList
  import opened Layout
  import opened Steps
  import opened Invariant
  import opened Growth
  import opened Accounting
  import opened Expand
  import opened Coalesce
  import opened Effects
  import BinIndex

  class Musl {
    /** Address of the static structure `mal`. */
    const mal: int
    var mem: Memory
    var binmap: nat
    /** The statics of expand_heap and __expand_heap. */
    var end: int
    var storedBrk: nat
    var mmapStep: nat

    var allocatedBytes: U64
    var freeBytes: U64
    var heapBytes: U64
    var freeBlockBytes: U64
    var mmapBytes: U64
    var reclaimedBytes: U64

    ghost var v: View
    /** Bytes obtained by successful expansions, and how many were not contiguous. */
    ghost var obtained: int
    ghost var segments: int

    /** The heap, the bins, the bitmap and the free-byte counters agree. */
    ghost predicate Core(skip: int)
      reads this`mem, this`v, this`binmap, this`freeBytes, this`freeBlockBytes
    {
      && |v.ls| == 64 && Inv(mem, mal, v, skip)
      && Bitmap(binmap, v.ls)
      && freeBytes == Wrap(Free(v.h) - SkipSize(v.h, skip))
      && freeBlockBytes == freeBytes
    }

    method Unbin(c: int, i: nat, ghost k: nat)
      requires Core(0) && i < 64 && k < |v.ls[i]| && v.ls[i][k] == c && c in v.h
      modifies this`mem, this`binmap, this`freeBytes, this`freeBlockBytes, this`v
      ensures Core(0) && v == UnbinView(old(v), i, k)
      ensures !old(v.h)[c].used && old(v.h)[c].size > 0
      ensures Kept(old(mem), mem, Live(old(v)))
      ensures mem.Keys == old(mem.Keys)
    {
      hide Inv, Bitmap, Kept, Untouched, LiveHeap, And, Pow2, Wrap, Used, Free;
      ghost var m0, v0 := mem, v;
      ghost var L, s := v.ls[i], Sentinel(mal, i);
      ghost var p, q := Node(s, L, k), Node(s, L, k + 2);
      ghost var size: int := v.h[c].size;
      UnbinReads(mem, mal, v, i, k);
      UnbinHeaders(mem, mal, v, i, k);
      UnbinBitmap(binmap, v.ls, i, k);
      UnbinStep(mem, mal, v, i, k);
      AllocateSums(v.h, c);
      UntouchedIsKept(mem, UnbinStores(mem, c, p, q, size), v.h, v.mm);

      if mem[c + PREV] == mem[c + NEXT] {
        binmap := And(binmap, Not(Pow2(i)));
      }
      mem := mem[mem[c + PREV] + NEXT := mem[c + NEXT]];
      mem := mem[mem[c + NEXT] + PREV := mem[c + PREV]];
      assert mem == Unlinked(m0, p, q);
      mem := mem[c + 8 := SetLow(mem[c + 8])];
      var next := c + ClearLow(mem[c + 8]);
      mem := mem[next := SetLow(mem[next])];
      assert mem == UnbinStores(m0, c, p, q, size);

      freeBlockBytes := Wrap(freeBlockBytes - ClearLow(mem[c + 8]));
      freeBytes := Wrap(freeBytes - ClearLow(mem[c + 8]));
      v := UnbinView(v0, i, k);
      WrapAdd(Free(v0.h), -size);
    }

    method LockBin(i: nat, ghost skip: int)
      requires Core(skip) && i < 64
      modifies this`mem
      ensures Core(skip) && Linked(mem, Sentinel(mal, i), v.ls[i])
      ensures var s := Sentinel(mal, i);
              s + NEXT in old(mem) &&
              mem == if old(mem)[s + NEXT] == 0 then old(mem)[s + NEXT := s][s + PREV := s] else old(mem)
      ensures Kept(old(mem), mem, Live(v)) && mem.Keys == old(mem.Keys)
    {
      hide Inv, Bitmap, Kept, Untouched, LiveHeap, Linked, Wrap, Free;
      ghost var m0, s := mem, Sentinel(mal, i);
      LockStep(mem, mal, v, skip, i);
      UntouchedIsKept(mem, if mem[s + NEXT] == 0 then mem[s + NEXT := s][s + PREV := s] else mem, v.h, v.mm);
      if mem[Sentinel(mal, i) + NEXT] == 0 {
        mem := mem[Sentinel(mal, i) + PREV := Sentinel(mal, i)];
        mem := mem[Sentinel(mal, i) + NEXT := Sentinel(mal, i)];
        assert mem == m0[s + NEXT := s][s + PREV := s];
      }
    }

    method BinChunk(c: int, i: nat)
      requires Core(c) && i < 64 && c in v.h && !v.h[c].used && c != 0 && v.h[c].size > 0
      requires i == BinOf(v.h[c].size) && Linked(mem, Sentinel(mal, i), v.ls[i])
      modifies this`mem, this`binmap, this`freeBytes, this`freeBlockBytes, this`v
      ensures Core(0) && v == old(v).(ls := old(v).ls[i := old(v).ls[i] + [c]])
      ensures Kept(old(mem), mem, Live(v)) && mem.Keys == old(mem.Keys)
    {
      hide Inv, Bitmap, Kept, Untouched, LiveHeap, Or, Pow2, Wrap, Free, BinOf, Linked;
      ghost var m0, v0, s := mem, v, Sentinel(mal, i);
      ghost var L, p := v.ls[i], Node(Sentinel(mal, i), v.ls[i], |v.ls[i]|);
      AppendReads(mem, mal, v, i, c);
      AppendBitmap(binmap, v.ls, i, c);
      AppendStep(mem, mal, v, i, c);
      UntouchedIsKept(mem, Appended(mem, s, p, c), v.h, v.mm);
      SizeWord(Appended(mem, s, p, c), mal, v.(ls := v.ls[i := L + [c]]), 0, c);

      mem := mem[c + NEXT := Sentinel(mal, i)];
      mem := mem[c + PREV := mem[Sentinel(mal, i) + PREV]];
      mem := mem[mem[c + NEXT] + PREV := c];
      mem := mem[mem[c + PREV] + NEXT := c];
      assert mem == Appended(m0, s, p, c);
      if mem[c + PREV] == Sentinel(mal, i) {
        binmap := Or(binmap, Pow2(i));
      }
      freeBlockBytes := Wrap(freeBlockBytes + ClearLow(mem[c + 8]));
      freeBytes := Wrap(freeBytes + ClearLow(mem[c + 8]));
      v := v0.(ls := v0.ls[i := L + [c]]);
      WrapAdd(Free(v.h) - v.h[c].size, v.h[c].size);
    }

    /** `lock_bin(i); bin_chunk(c, i)` for a chunk already marked free. */
    method InsertFree(c: int, i: nat)
      requires Core(c) && c in v.h && !v.h[c].used && c != 0 && v.h[c].size > 0
      requires i < 64 && i == BinOf(v.h[c].size)
      modifies this`mem, this`binmap, this`freeBytes, this`freeBlockBytes, this`v
      ensures Core(0) && v == old(v).(ls := old(v).ls[i := old(v).ls[i] + [c]])
      ensures Kept(old(mem), mem, Live(v)) && mem.Keys == old(mem.Keys)
    {
      hide Core, Kept, LiveHeap, BinOf, Linked;
      ghost var m0 := mem;
      LockBin(i, c);
      ghost var m1 := mem;
      BinChunk(c, i);
      SubLiveSelf(Live(v));
      KeptThen(m0, m1, mem, Live(v), Live(v));
    }

    method Trim(c: int, n: nat)
      requires Core(0) && c in v.h && v.h[c].used && 0 < n <= v.h[c].size < WORD && n % SIZE_ALIGN == 0
      requires c + v.h[c].size in v.h && v.h[c + v.h[c].size].used
      modifies this`mem, this`binmap, this`freeBytes, this`freeBlockBytes, this`v
      ensures Core(0) && v.arena == old(v.arena) && v.mm == old(v.mm)
      ensures c in v.h && v.h[c].used && v.h[c].size == n
      ensures if old(v.h[c].size) == n then v == old(v) && mem == old(mem) else Cut(old(v), v, c, n)
      ensures LiveHeap(v.h) == LiveHeap(old(v.h))[c := n]
      ensures Used(v.h) == Used(old(v.h)) - (old(v.h[c].size) - n)
      ensures Free(v.h) == Free(old(v.h)) + (old(v.h[c].size) - n)
      ensures Kept(old(mem), mem, Live(old(v)) - {c}) && mem.Keys == old(mem.Keys)
      ensures EndOk(end, old(v.h)) ==> EndOk(end, v.h)
    {
      hide Inv, Bitmap, Kept, SubLive, Untouched, LiveHeap, Wrap, Used, Free, BinOf, BinIndex.Index, Linked, EndOk, Split;
      ghost var m0, v0 := mem, v;
      ghost var size := v.h[c].size;
      SizeWord(mem, mal, v, 0, c);
      SizeShape(mem, mal, v, 0, c);
      SmallDifference(size, n);
      var n1 := ClearLow(mem[c + 8]);
      if Wrap(n1 - n) <= DONTCARE {
        TrimNothing(mem, mal, v, c);
        return;
      }
      BinOfSize(size - n);
      SplitTags(v.h, c, n);
      TrimMapped(mem, mal, v, c, n);
      SplitStep(mem, mal, v, c, n);
      TrimAbstract(mem, v, c, n, end);

      var next := c + ClearLow(mem[c + 8]);
      var split := c + n;
      mem := mem[split := SetLow(n)];
      mem := mem[split + 8 := n1 - n];
      mem := mem[next := n1 - n];
      mem := mem[c + 8 := SetLow(n)];
      assert mem == SplitStores(m0, c, n, size);
      v := v0.(h := Split(v0.h, c, n));

      var i := BinIndex.Index(n1 - n);
      ghost var m1 := mem;
      InsertFree(split, i);
      KeptThen(m0, m1, mem, Live(v0) - {c}, Live(v));
    }

    ghost predicate BrkOk()
      reads this`storedBrk
    {
      storedBrk % PAGE_SIZE == 0 && storedBrk < WORD
    }

    /** `__expand_heap`: try the program break, then mmap. */
    method ExpandRegion(n0: nat, os: Os) returns (p: nat, len: nat, ghost pages: Memory)
      requires BrkOk() && n0 > 0
      requires n0 <= WORD - PAGE_SIZE ==> HonestBrk(mem, storedBrk, os, AlignUp(n0, PAGE_SIZE))
      requires n0 <= WORD - PAGE_SIZE ==> HonestMmap(mem, os, MmapLen(AlignUp(n0, PAGE_SIZE), mmapStep))
      modifies this`mem, this`storedBrk, this`mmapStep, this`heapBytes, this`mmapBytes
      ensures BrkOk()
      ensures p == 0 ==> mem == old(mem)
      ensures p == 0 <==> n0 > (WORD - 1) / 2 - PAGE_SIZE ||
                          (os.area == 0 && !(os.brkOk && BrkFits(old(storedBrk), os, AlignUp(n0, PAGE_SIZE))))
      ensures p != 0 ==>
                && p % PAGE_SIZE == 0 && len % PAGE_SIZE == 0 && len >= n0 && p + len < WORD
                && Pages(old(mem), pages, p, len) && mem == old(mem) + pages
      ensures n0 > (WORD - 1) / 2 - PAGE_SIZE ==>
                storedBrk == old(storedBrk) && mmapStep == old(mmapStep) && heapBytes == old(heapBytes) && mmapBytes == old(mmapBytes)
      ensures n0 <= (WORD - 1) / 2 - PAGE_SIZE ==>
                var n := AlignUp(n0, PAGE_SIZE);
                var brk := if old(storedBrk) == 0 then AlignUp(os.sbrk0, PAGE_SIZE) else old(storedBrk);
                if os.brkOk && BrkFits(old(storedBrk), os, n) then
                  && p == brk && len == n && storedBrk == brk + n && heapBytes == Wrap(old(heapBytes) + n)
                  && mmapStep == old(mmapStep) && mmapBytes == old(mmapBytes)
                else
                  && p == os.area && storedBrk == brk && heapBytes == old(heapBytes)
                  && mmapBytes == Wrap(old(mmapBytes) + MmapLen(n, old(mmapStep)))
                  && (p != 0 ==> len == MmapLen(n, old(mmapStep)) && mmapStep == old(mmapStep) + 1)
                  && (p == 0 ==> mmapStep == old(mmapStep))
    {
      hide Pages, Pow2, AlignUp, Wrap;
      var n := n0;
      if n > (WORD - 1) / 2 - PAGE_SIZE {
        return 0, 0, map[];
      }
      AlignUpPage(n);
      AlignUpPage(os.sbrk0);
      n := AlignUp(n, PAGE_SIZE);
      if storedBrk == 0 {
        storedBrk := AlignUp(os.sbrk0, PAGE_SIZE);
      }
      var wouldOverflow := n >= WORD - 1 - storedBrk;
      if !wouldOverflow && os.brkOk {
        PageSum(storedBrk, n);
        storedBrk := storedBrk + n;
        heapBytes := Wrap(heapBytes + n);
        mem := mem + os.brkPages;
        return storedBrk - n, n, os.brkPages;
      }
      MmapLenIs(n, mmapStep);
      var min := Wrap(PAGE_SIZE * Pow2(mmapStep / 2));
      n := if n < min then min else n;
      mmapBytes := Wrap(mmapBytes + n);
      if os.area == 0 {
        return 0, 0, map[];
      }
      mmapStep := mmapStep + 1;
      mem := mem + os.areaPages;
      return os.area, n, os.areaPages;
    }

    /** The header and footer stores of `expand_heap` for the region [p0, p0 + len0). */
    method WriteTags(p0: nat, len0: nat) returns (c: int)
      requires len0 >= 32 && SetLow(len0) == len0 + 1 && SetLow(len0 - 32) == len0 - 31
      modifies this`mem, this`end
      ensures c == GrownChunk(p0, p0 == old(end)) && end == p0 + len0
      ensures mem == ExtendStores(GrownBase(old(mem), p0, p0 == old(end)), c, GrownSize(len0, p0 == old(end)))
    {
      var p, len := p0, len0;
      if p != end {
        len := len - SIZE_ALIGN;
        p := p + SIZE_ALIGN;
        mem := mem[p - 16 := 1];
      }
      end := p + len;
      mem := mem[end - 16 := SetLow(len)];
      mem := mem[end - 8 := 1];
      mem := mem[p - 8 := SetLow(len)];
      c := p - 16;
    }

    /** `expand_heap`: a chunk of at least n bytes at the end of the heap. */
    method ExpandHeap(n: nat, os: Os) returns (c: int)
      requires Core(0) && EndOk(end, v.h) && BrkOk() && Bounded(v.arena)
      requires 0 < n <= BinIndex.MMAP_THRESHOLD
      requires HonestBrk(mem, storedBrk, os, AlignUp(n + SIZE_ALIGN, PAGE_SIZE))
      requires HonestMmap(mem, os, MmapLen(AlignUp(n + SIZE_ALIGN, PAGE_SIZE), mmapStep))
      modifies this`mem, this`storedBrk, this`mmapStep, this`heapBytes, this`mmapBytes
      modifies this`end, this`v, this`obtained, this`segments
      ensures Core(0) && EndOk(end, v.h) && BrkOk() && Bounded(v.arena)
      ensures c == 0 <==> os.area == 0 && !(os.brkOk && BrkFits(old(storedBrk), os, AlignUp(n + SIZE_ALIGN, PAGE_SIZE)))
      ensures c == 0 ==> v == old(v) && mem == old(mem) && obtained == old(obtained) && segments == old(segments)
      ensures c != 0 ==>
                && c in v.h && n <= v.h[c].size < WORD && Grown(old(v), v, c, v.h[c].size)
                && obtained - 32 * segments == old(obtained) - 32 * old(segments) + v.h[c].size
                && Kept(old(mem), mem, Live(old(v)))
      ensures c != 0 ==>
                var bytes := AlignUp(n + SIZE_ALIGN, PAGE_SIZE);
                var p := RegionStart(old(storedBrk), os, bytes);
                var len := RegionLen(old(storedBrk), os, bytes, old(mmapStep));
                && obtained == old(obtained) + len && segments == old(segments) + (if p == old(end) then 0 else 1)
                && len >= 32 && end == p + len && (p == old(end) ==> p - 16 in old(v.h) && old(v.h)[p - 16].size == 0)
                && v == GrownView(old(v), p, len, p == old(end))
                && c == GrownChunk(p, p == old(end)) && v.h[c].size == GrownSize(len, p == old(end))
    {
      hide Inv, Bitmap, Kept, LiveHeap, Pages, Used, Free, HonestBrk, HonestMmap, AlignUp, MmapLen, BrkFits, Bounded, Wrap;
      hide GrownView, Grown, ExtendStores;
      ghost var m0, v0, e0 := mem, v, end;
      var p, len, pages := ExpandRegion(n + SIZE_ALIGN, os);
      if p == 0 {
        return 0;
      }
      GrowAll(m0, mal, v0, pages, p, len, p == end);
      c := WriteTags(p, len);
      v := GrownView(v0, p, len, p == e0);
      obtained := obtained + len;
      segments := segments + if p == e0 then 0 else 1;
      GrownFacts(v0, v, c, GrownSize(len, p == e0));
    }

    /** The slow-path search. Its step discards what `clear_lowest_bit` returns,
        so it ends only because the first bin it visits is never empty. */
    method TakeFromBins(i: nat) returns (c: int, ghost j: nat)
      requires Core(0) && i < 64
      modifies this`mem, this`binmap, this`freeBytes, this`freeBlockBytes, this`v
      ensures Core(0) && mem.Keys == old(mem.Keys) && Kept(old(mem), mem, Live(old(v)))
      ensures c == 0 ==> v == old(v) && NoneFrom(v.ls, i)
      ensures c != 0 ==>
                && FirstNonEmpty(old(v.ls), i, j) && c == old(v.ls)[j][0] && c > 0
                && c in old(v.h) && !old(v.h)[c].used && old(v.h)[c].size > 0 && BinOf(old(v.h)[c].size) == j
                && v == UnbinView(old(v), j, 0)
    {
      hide Core, Kept, LiveHeap, BinOf, Linked, MaskHighBits, FirstSet, NoneFrom;
      c, j := 0, 0;
      var mask := MaskHighBits(binmap, i);
      var found := false;
      CoreMask(i);
      CoreSelfKept();
      while mask != 0 && !found
        invariant Core(0) && mem.Keys == old(mem.Keys) && Kept(old(mem), mem, Live(old(v)))
        invariant !found ==> c == 0 && v == old(v) && mask == MaskHighBits(binmap, i)
        invariant found ==>
                    && FirstNonEmpty(old(v.ls), i, j) && c == old(v.ls)[j][0] && c > 0
                    && c in old(v.h) && !old(v.h)[c].used && old(v.h)[c].size > 0 && BinOf(old(v.h)[c].size) == j
                    && v == UnbinView(old(v), j, 0)
        decreases if found then 0 else 1
      {
        ghost var m1 := mem;
        var b := FirstSet(mask);
        CoreMask(i);
        LockBin(b, 0);
        SubLiveSelf(Live(v));
        KeptThen(old(mem), m1, mem, Live(v), Live(v));
        CoreHead(b);
        var head := mem[Sentinel(mal, b) + NEXT];
        if head != Sentinel(mal, b) {
          ghost var m2 := mem;
          c, j, found := head, b, true;
          Unbin(head, b, 0);
          KeptThen(old(mem), m2, mem, Live(old(v)), Live(old(v)));
        } else {
          var _ := ClearLowestBit(mask);
        }
      }
    }

    lemma {:induction false} CoreMask(i: nat)
      requires Core(0) && i < 64
      ensures MaskHighBits(binmap, i) == 0 ==> NoneFrom(v.ls, i)
      ensures MaskHighBits(binmap, i) != 0 ==> FirstNonEmpty(v.ls, i, FirstSet(MaskHighBits(binmap, i)))
      ensures MaskHighBits(binmap, i) != 0 ==>
                FirstSet(MaskHighBits(binmap, i)) < |v.ls| == 64 && v.ls[FirstSet(MaskHighBits(binmap, i))] != []
    {
      hide Inv, MaskHighBits, FirstSet;
      MaskMeans(binmap, v.ls, i);
    }

    lemma {:induction false} CoreBit(i: nat)
      requires Core(0) && i < 63
      ensures |v.ls| == 64 && (IsBitSet(binmap, i) <==> v.ls[i] != [])
    {
      hide Inv, Bit, IsBitSet;
      IsBitSetIs(binmap, i);
    }

    lemma {:induction false} CoreSelfKept()
      requires Core(0)
      ensures Kept(mem, mem, Live(v))
    {
      hide Shaped, Chained, Apart, Headers, Binned, BinsLinked, Covered, Regions, Mmaps, Untouched;
      assert Ground(mem, mal, v);
      SelfUntouched(mem, mal, v, 0);
      UntouchedIsKept(mem, mem, v.h, v.mm);
    }

    lemma {:induction false} CoreHead(j: nat)
      requires Core(0) && j < 64 && Linked(mem, Sentinel(mal, j), v.ls[j])
      ensures |v.ls| == 64 && Sentinel(mal, j) + NEXT in mem && Sentinel(mal, j) > 0
      ensures v.ls[j] == [] ==> mem[Sentinel(mal, j) + NEXT] == Sentinel(mal, j)
      ensures v.ls[j] != [] ==>
                && mem[Sentinel(mal, j) + NEXT] == v.ls[j][0] != Sentinel(mal, j)
                && v.ls[j][0] in v.h && v.ls[j][0] > 0
                && v.h[v.ls[j][0]].size > 0 && BinOf(v.h[v.ls[j][0]].size) == j
    {
      HeadOfBin(mem, mal, v, j);
      hide Chained, Apart, Headers, Binned, BinsLinked, Covered, Mmaps, Linked;
      if v.ls[j] != [] { ChunkShape(v.h, v.ls[j][0]); }
    }

    /** Everything but the count of allocated bytes. */
    ghost predicate HeapValid()
      reads this`mem, this`v, this`binmap, this`freeBytes, this`freeBlockBytes
      reads this`storedBrk, this`end, this`obtained, this`segments
    {
      && Core(0) && EndOk(end, v.h) && BrkOk() && Bounded(v.arena)
      && Used(v.h) + Free(v.h) == obtained - 32 * segments
    }

    /** The invariant of the allocator between calls. */
    ghost predicate Valid()
      reads this
    {
      HeapValid() && MappedBelow(v.mm) && allocatedBytes == Wrap(Used(v.h) + Mapped(v.mm))
    }

    lemma ValidInv()
      requires Valid()
      ensures Inv(mem, mal, v, 0)
    {
      hide Inv;
    }

    /** The fast path: the head of bin i, if it has exactly the size n. */
    method FastPath(i: nat, n: nat) returns (c: int)
      requires HeapValid() && BinIndex.IsSize(n) && n <= BinIndex.MMAP_THRESHOLD && i == BinIndex.IndexUp(n) && i < 64
      modifies this`mem, this`binmap, this`freeBytes, this`freeBlockBytes, this`v
      ensures HeapValid() && mem.Keys == old(mem.Keys) && Kept(old(mem), mem, Live(old(v)))
      ensures c == 0 ==> v == old(v)
      ensures c != 0 ==> Handed(old(v), v, c, n) && ServedFrom(old(v), v, c, n)
      ensures c != 0 <==> ExactHead(old(v), i, n)
    {
      hide Inv, Bitmap, Kept, LiveHeap, BinOf, Linked, IsBitSet, Bounded, Used, Free, Wrap, BinIndex.Index, BinIndex.IndexUp;
      hide Handed, UnbinView, BestFit, NoFit, ServedFrom, Taken;
      c := 0;
      CoreSelfKept();
      if i < 63 { CoreBit(i); }
      if i < 63 && IsBitSet(binmap, i) {
        ghost var m0, v0 := mem, v;
        LockBin(i, 0);
        CoreHead(i);
        var head := mem[Sentinel(mal, i) + NEXT];
        if head != Sentinel(mal, i) {
          ghost var m1, size := mem, v.h[head].size;
          SizeWord(mem, mal, v, 0, head);
          SizeShape(mem, mal, v, 0, head);
          BoundedSize(mem, mal, v, head);
          GoodFitBin(size, n, i, i);
          SmallDifference(size, n);
          if Wrap(ClearLow(mem[head + 8]) - n) <= DONTCARE {
            c := head;
            UnbinReads(mem, mal, v, i, 0);
            UnbinIsGot(mem, mal, v, i, end);
            FirstIsBest(mem, mal, v, n, i, head);
            TakenIs(v, n, i, head);
            Unbin(head, i, 0);
            SubLiveSelf(Live(v0));
            KeptThen(m0, m1, mem, Live(v0), Live(v0));
          }
        }
      }
    }

    /** A chunk that can be cut to n bytes: from the bins, else from a larger heap. */
    method FindChunk(i: nat, n: nat, os: Os) returns (c: int, ghost grew: bool)
      requires HeapValid() && BinIndex.IsSize(n) && n <= BinIndex.MMAP_THRESHOLD && i == BinIndex.IndexUp(n) && i < 64
      requires HonestBrk(mem, storedBrk, os, AlignUp(n + SIZE_ALIGN, PAGE_SIZE))
      requires HonestMmap(mem, os, MmapLen(AlignUp(n + SIZE_ALIGN, PAGE_SIZE), mmapStep))
      modifies this`mem, this`storedBrk, this`mmapStep, this`heapBytes, this`mmapBytes
      modifies this`end, this`v, this`obtained, this`segments
      modifies this`binmap, this`freeBytes, this`freeBlockBytes
      ensures HeapValid() && Kept(old(mem), mem, Live(old(v)))
      ensures grew ==> TightFit(old(v.h), n)
      ensures !grew ==> obtained == old(obtained) && segments == old(segments) && c != 0
      ensures c == 0 ==> v == old(v) && mem.Keys == old(mem.Keys) && obtained == old(obtained) && segments == old(segments)
      ensures grew && c != 0 ==>
                var bytes := AlignUp(n + SIZE_ALIGN, PAGE_SIZE);
                && obtained == old(obtained) + RegionLen(old(storedBrk), os, bytes, old(mmapStep))
                && segments == old(segments) + (if RegionStart(old(storedBrk), os, bytes) == old(end) then 0 else 1)
      ensures c == 0 <==> grew && os.area == 0 &&
                          !(os.brkOk && BrkFits(old(storedBrk), os, AlignUp(n + SIZE_ALIGN, PAGE_SIZE)))
      ensures c != 0 ==> c in v.h && n <= v.h[c].size < WORD && Got(old(v), v, c, v.h[c].size)
      ensures grew <==> NoFit(old(v.h), n)
      ensures !grew ==> Taken(old(v), v, c, n)
      ensures grew && c != 0 ==>
                var bytes := AlignUp(n + SIZE_ALIGN, PAGE_SIZE);
                var p := RegionStart(old(storedBrk), os, bytes);
                TakenByGrowth(old(v), v, c, n, p, RegionLen(old(storedBrk), os, bytes, old(mmapStep)), p == old(end))
    {
      hide Inv, Bitmap, Kept, LiveHeap, BinOf, Bounded, Used, Free, Wrap, BinIndex.Index, BinIndex.IndexUp;
      hide Got, UnbinView, HonestBrk, HonestMmap, AlignUp, MmapLen, BrkFits, NoneFrom, TightFit, NoFit, BestFit, Taken;
      ghost var m0, v0, j := mem, v, 0;
      c, j := TakeFromBins(i);
      grew := c == 0;
      if c == 0 {
        SearchedAllInv(mem, mal, v, n);
        NoneIsNoFit(mem, mal, v, n);
        HonestKeys(m0, mem, storedBrk, os, AlignUp(n + SIZE_ALIGN, PAGE_SIZE), MmapLen(AlignUp(n + SIZE_ALIGN, PAGE_SIZE), mmapStep));
        ghost var m1 := mem;
        c := ExpandHeap(n, os);
        if c != 0 {
          SubLiveSelf(Live(v0));
          KeptThen(m0, m1, mem, Live(v0), Live(v0));
          GotFacts(v0, v, c, v.h[c].size);
        }
      } else {
        FirstIsBest(m0, mal, v0, n, j, c);
        TakenIs(v0, n, j, c);
        TakenFits(m0, v0, c, n, i, j);
        GotFacts(v0, v, c, v0.h[c].size);
      }
    }

    /** The facts about a chunk just taken from bin j, seen from the state before. */
    lemma {:induction false} TakenFits(m0: Memory, v0: View, c: int, n: nat, i: nat, j: nat)
      requires Inv(m0, mal, v0, 0) && Bounded(v0.arena)
      requires BinIndex.IsSize(n) && n <= BinIndex.MMAP_THRESHOLD && i == BinIndex.IndexUp(n)
      requires FirstNonEmpty(v0.ls, i, j) && c == v0.ls[j][0] && c in v0.h && !v0.h[c].used && v0.h[c].size > 0
      requires BinOf(v0.h[c].size) == j
      ensures n <= v0.h[c].size < WORD && Got(v0, UnbinView(v0, j, 0), c, v0.h[c].size)
      ensures Used(UnbinView(v0, j, 0).h) + Free(UnbinView(v0, j, 0).h) == Used(v0.h) + Free(v0.h)
      ensures EndOk(end, v0.h) ==> EndOk(end, UnbinView(v0, j, 0).h)
      ensures UnbinView(v0, j, 0).arena == v0.arena
    {
      hide Inv, LiveHeap, BinOf, Bounded, Used, Free, BinIndex.IndexUp, BinIndex.Index, Got;
      SizeShape(m0, mal, v0, 0, c);
      BoundedSize(m0, mal, v0, c);
      GoodFitBin(v0.h[c].size, n, i, j);
      UnbinIsGot(m0, mal, v0, j, end);
    }

    /** The heap path of malloc: a chunk of exactly n bytes, or 0. */
    method HeapMalloc(n: nat, os: Os) returns (c: int, ghost grew: bool)
      requires HeapValid() && BinIndex.IsSize(n) && n <= BinIndex.MMAP_THRESHOLD
      requires HonestBrk(mem, storedBrk, os, AlignUp(n + SIZE_ALIGN, PAGE_SIZE))
      requires HonestMmap(mem, os, MmapLen(AlignUp(n + SIZE_ALIGN, PAGE_SIZE), mmapStep))
      modifies this`mem, this`storedBrk, this`mmapStep, this`heapBytes, this`mmapBytes
      modifies this`end, this`v, this`obtained, this`segments
      modifies this`binmap, this`freeBytes, this`freeBlockBytes
      ensures HeapValid() && Kept(old(mem), mem, Live(old(v)))
      ensures grew ==> TightFit(old(v.h), n)
      ensures !grew ==> obtained == old(obtained) && segments == old(segments) && c != 0
      ensures c == 0 ==> v == old(v) && obtained == old(obtained) && segments == old(segments)
      ensures grew && c != 0 ==>
                var bytes := AlignUp(n + SIZE_ALIGN, PAGE_SIZE);
                && obtained == old(obtained) + RegionLen(old(storedBrk), os, bytes, old(mmapStep))
                && segments == old(segments) + (if RegionStart(old(storedBrk), os, bytes) == old(end) then 0 else 1)
      ensures c == 0 <==> grew && os.area == 0 &&
                          !(os.brkOk && BrkFits(old(storedBrk), os, AlignUp(n + SIZE_ALIGN, PAGE_SIZE)))
      ensures c != 0 ==> Handed(old(v), v, c, n)
      ensures grew <==> NoFit(old(v.h), n)
      ensures !grew ==> ServedFrom(old(v), v, c, n)
      ensures grew && c != 0 ==>
                var bytes := AlignUp(n + SIZE_ALIGN, PAGE_SIZE);
                var p := RegionStart(old(storedBrk), os, bytes);
                ServedByGrowth(old(v), v, c, n, p, RegionLen(old(storedBrk), os, bytes, old(mmapStep)), p == old(end))
    {
      hide NoFit, BestFit, Taken, TakenByGrowth, ServedFrom, ServedByGrowth, CutTo, Cut;
      hide Core, Kept, LiveHeap, BinOf, Bounded, Used, Free, Wrap, BinIndex.Index, BinIndex.IndexUp;
      hide Got, Handed, HonestBrk, HonestMmap, AlignUp, MmapLen, BrkFits, TightFit, SubLive;
      ghost var m0, v0 := mem, v;
      BinIndex.IndexUpIs(n);
      var i := BinIndex.IndexUp(n);
      grew := false;
      c := FastPath(i, n);
      if c != 0 {
        ServedFits(v0, v, c, n);
      } else {
        ghost var m1 := mem;
        HonestKeys(m0, mem, storedBrk, os, AlignUp(n + SIZE_ALIGN, PAGE_SIZE), MmapLen(AlignUp(n + SIZE_ALIGN, PAGE_SIZE), mmapStep));
        c, grew := FindChunk(i, n, os);
        SubLiveSelf(Live(v0));
        KeptThen(m0, m1, mem, Live(v0), Live(v0));
        if c != 0 {
          ghost var m2, v2, size := mem, v, v.h[c].size;
          GotFacts(v0, v2, c, size);
          HandedKeeps(v0, v2, c, size);
          Trim(c, n);
          KeptThen(m0, m2, mem, Live(v0), Live(v2) - {c});
          HandedThenTrimmed(v0, v2, v, c, size, n);
          CutToIs(v2, v, c, n);
          if grew {
            ghost var bytes := AlignUp(n + SIZE_ALIGN, PAGE_SIZE);
            ghost var r := RegionStart(old(storedBrk), os, bytes);
            GrowthServes(v0, v2, v, c, n, r, RegionLen(old(storedBrk), os, bytes, old(mmapStep)), r == old(end));
          } else {
            ServedIs(v0, v2, v, c, n);
          }
        }
      }
    }

    /** `lock_bin(i); unbin(c, i)` for a free chunk of the given size. */
    method TakeFree(c: int, size: int)
      requires Core(0) && c in v.h && !v.h[c].used && size == v.h[c].size
      modifies this`mem, this`binmap, this`freeBytes, this`freeBlockBytes, this`v
      ensures Core(0) && v.h == SetUsed(old(v.h), c, true) && v.arena == old(v.arena) && v.mm == old(v.mm)
      ensures v.ls == Dropped(old(v.ls), c)
      ensures Kept(old(mem), mem, Live(old(v))) && SubLive(Live(old(v)), Live(v)) && mem.Keys == old(mem.Keys)
    {
      hide Inv, Bitmap, Kept, SubLive, LiveHeap, BinOf, BinIndex.Index, Linked, Wrap, Free;
      FreeIsListed(mem, mal, v, c);
      ghost var m0, v0 := mem, v;
      var i := BinIndex.Index(size);
      LockBin(i, 0);
      ghost var m1 := mem;
      ghost var k :| 0 <= k < |v.ls[i]| && v.ls[i][k] == c;
      UnbinLive(mem, mal, v, c, i, k);
      UnbinDrops(mem, mal, v, i, k);
      Unbin(c, i, k);
      SubLiveSelf(Live(v0));
      KeptThen(m0, m1, mem, Live(v0), Live(v0));
    }

    method MergePrev(self: int, psize: int) returns (a: int)
      requires Core(0) && self in v.h && psize == PrevFree(v.h, self)
      modifies this`mem, this`binmap, this`freeBytes, this`freeBlockBytes, this`v
      ensures Core(0) && v.arena == old(v.arena) && v.mm == old(v.mm) && mem.Keys == old(mem.Keys)
      ensures PrevMerged(old(v.h), v.h, self, a) && a == self - psize
      ensures v.ls == if a == self then old(v.ls) else Dropped(old(v.ls), a)
      ensures Kept(old(mem), mem, Live(old(v))) && SubLive(Live(old(v)), Live(v))
    {
      hide Inv, Bitmap, Kept, SubLive, LiveHeap, BinOf, Linked, Wrap, Free;
      PrevReads(mem, mal, v, self);
      CoreSelfKept();
      SubLiveSelf(Live(v));
      a := self;
      if psize > 0 && mem[self] % 2 == 0 {
        var prev := self - ClearLow(mem[self]);
        TakeFree(prev, psize);
        a := prev;
      } else {
        PrevUsed(mem, mal, v, self);
      }
    }

    method MergeNext(next: int, nsize: int) returns (z: int)
      requires Core(0) && next in v.h && nsize == NextFree(v.h, next)
      modifies this`mem, this`binmap, this`freeBytes, this`freeBlockBytes, this`v
      ensures Core(0) && v.arena == old(v.arena) && v.mm == old(v.mm) && mem.Keys == old(mem.Keys)
      ensures NextMerged(old(v.h), v.h, next, z) && z == next + nsize
      ensures v.ls == if z == next then old(v.ls) else Dropped(old(v.ls), next)
      ensures Kept(old(mem), mem, Live(old(v))) && SubLive(Live(old(v)), Live(v))
    {
      hide Inv, Bitmap, Kept, SubLive, LiveHeap, BinOf, Linked, Wrap, Free;
      NextReads(mem, mal, v, next);
      CoreSelfKept();
      SubLiveSelf(Live(v));
      z := next;
      if nsize > 0 && mem[next + 8] % 2 == 0 {
        TakeFree(next, nsize);
        NextReads(mem, mal, v, next);
        z := next + ClearLow(mem[next + 8]);
      }
    }

    /** The tail of `__bin_chunk`: write the merged header and bin the block. The
        ghost arguments describe the state before the neighbours were unbinned. */
    method MarkAndBin(a: int, z: int, size: int, ghost m0: Memory, ghost v0: View, ghost h1: Chunks,
                      ghost self: int, ghost next: int)
      requires Core(0) && Inv(m0, mal, v0, 0) && Merged(v0.h, h1, v.h, self, a, next, z)
      requires v.arena == v0.arena && v.mm == v0.mm && size == z - a
      requires EndOk(end, v0.h)
      modifies this`mem, this`binmap, this`freeBytes, this`freeBlockBytes, this`v
      ensures Core(0) && v.arena == v0.arena && v.mm == v0.mm && mem.Keys == old(mem.Keys)
      ensures a in v.h && !v.h[a].used && v.h[a].size == size && v.ls == Queued(old(v.ls), a, BinOf(size))
      ensures LiveHeap(v.h) == LiveHeap(v0.h) - {self} && EndOk(end, v.h)
      ensures Used(v.h) == Used(old(v.h)) - size && Free(v.h) == Free(old(v.h)) + size
      ensures SubLive(Live(v), Live(old(v))) ==> Kept(old(mem), mem, Live(v))
    {
      hide Inv, Bitmap, Kept, SubLive, LiveHeap, BinOf, BinIndex.Index, Linked, Wrap, Used, Free, EndOk, Merged;
      ghost var m1, v2 := mem, v;
      InvTiled(m0, mal, v0);
      FuseEffect(m0, v0, mem, v, mal, h1, self, a, next, z);
      FusedEnd(v0, v, h1, self, a, next, z, end);
      BinOfSize(size);
      var i := BinIndex.Index(size);
      LockBin(i, 0);
      FuseEffect(m0, v0, mem, v, mal, h1, self, a, next, z);
      FuseLinked(mem, mal, v, a, z, i);
      ghost var m2 := mem;
      mem := mem[a + 8 := size];
      mem := mem[z := size];
      v := v2.(h := Fuse(v2.h, a, Gone(self, a, next, z), z));
      ghost var m3 := mem;
      BinChunk(a, i);
      if SubLive(Live(v), Live(v2)) {
        SubLiveSelf(Live(v));
        SubLiveSelf(Live(v2));
        KeptThen(m1, m2, m3, Live(v2), Live(v2));
        KeptSub(m1, m3, Live(v), Live(v2));
        KeptThen(m1, m3, mem, Live(v), Live(v));
      }
    }

    /** Replace the middle of a large free chunk with fresh zero pages. */
    method Reclaim(a: int, z: int, size: int, osize: int) returns (done: bool, lo: int, hi: int)
      requires Core(0) && Bounded(v.arena) && a in v.h && !v.h[a].used && v.h[a].size == size
      requires z == a + size && 0 < osize <= size
      modifies this`mem, this`reclaimedBytes
      ensures Core(0) && mem.Keys == old(mem.Keys) && Kept(old(mem), mem, Live(v))
      ensures done <==> WorthReclaiming(size, osize)
      ensures done ==> WholePages(a, z, lo, hi) && Zeroed(old(mem), mem, lo, hi)
      ensures done ==> reclaimedBytes == Wrap(old(reclaimedBytes) + (hi - lo))
      ensures !done ==> mem == old(mem) && reclaimedBytes == old(reclaimedBytes)
    {
      hide Inv, Bitmap, Kept, LiveHeap, Wrap, Free, Pow2, AlignUp, Align, ShareHighestBit, Bounded, Zeroed, WorthReclaiming;
      CoreSelfKept();
      WorthIs(size, osize);
      done, lo, hi := size > RECLAIM && !ShareHighestBit(size, size - osize), 0, 0;
      if done {
        BoundedSize(mem, mal, v, a);
        CoreChunk(a);
        ReclaimRange(a, z);
        lo := AlignUp(a + SIZE_ALIGN, PAGE_SIZE);
        hi := Align(z - SIZE_ALIGN, PAGE_SIZE);
        ReclaimStep(mem, mal, v, a, lo, hi);
        reclaimedBytes := Wrap(reclaimedBytes + (hi - lo));
        mem := mem + ZeroPages(mem, lo, hi);
      }
    }

    lemma {:induction false} CoreChunk(a: int)
      requires Core(0) && a in v.h
      ensures a > 0
    {
      hide Chained, Apart, Headers, Binned, BinsLinked, Covered, Regions, Mmaps;
      ChunkShape(v.h, a);
    }

    /** `__bin_chunk` up to the binning of the merged block [blk, z). */
    method FreeBlock(self: int) returns (crashed: bool, blk: int, z: int)
      requires HeapValid() && self in v.h && v.h[self].used && v.h[self].size > 0
      modifies this`mem, this`binmap, this`freeBytes, this`freeBlockBytes, this`v, this`allocatedBytes
      ensures !crashed && HeapValid() && v.mm == old(v.mm)
      ensures allocatedBytes == Wrap(old(allocatedBytes) - old(v.h)[self].size)
      ensures LiveHeap(v.h) == LiveHeap(old(v.h)) - {self}
      ensures Used(v.h) == Used(old(v.h)) - old(v.h)[self].size
      ensures Kept(old(mem), mem, Live(v))
      ensures blk in v.h && !v.h[blk].used && v.h[blk].size == z - blk
      ensures blk <= self && self + old(v.h)[self].size <= z && Coalesced(old(v), v, self, blk)
    {
      hide Inv, Bitmap, Kept, SubLive, LiveHeap, Wrap, Used, Free, EndOk, Bounded, Merged, PrevMerged, NextMerged;
      hide Dropped, BinOf;
      ghost var m0, v0 := mem, v;
      FreeReads(mem, mal, v, self);
      var next := self + ClearLow(mem[self + 8]);
      allocatedBytes := Wrap(allocatedBytes - ClearLow(mem[self + 8]));
      crashed := mem[next] != mem[self + 8];
      blk, z := self, next;
      if !crashed {
        PrevReads(mem, mal, v, self);
        NextReads(mem, mal, v, next);
        var osize := ClearLow(mem[self + 8]);
        var psize := if mem[self] % 2 == 1 then 0 else ClearLow(mem[self]);
        var nsize := if mem[next + 8] % 2 == 1 then 0 else ClearLow(mem[next + 8]);
        blk := MergePrev(self, psize);
        ghost var m1, v1 := mem, v;
        NextUnaffected(m0, mal, v0, v.h, self, blk, next);
        z := MergeNext(next, nsize);
        ghost var m2, v2 := mem, v;
        KeptThen(m0, m1, m2, Live(v0), Live(v1));
        MergedOf(m0, mal, v0, v1.h, v2.h, self, blk, next, z);
        UsedIsNotListed(m0, mal, v0, self);
        NextDropped(m1, v1, next, z);
        MarkAndBin(blk, z, osize + psize + nsize, m0, v0, v1.h, self, next);
        MmapNotLiveHeap(m0, mal, v0, self);
        LiveWithout(v0, v, self);
        FreeKept(m0, m2, mem, v0, v1, v2, v);
      }
    }

    lemma {:induction false} NextDropped(m: Memory, v1: View, next: int, z: int)
      requires Inv(m, mal, v1, 0) && next in v1.h && z == next + NextFree(v1.h, next)
      ensures z == next ==> Dropped(v1.ls, next) == v1.ls
    {
      NextReads(m, mal, v1, next);
      hide Inv, Dropped;
      if z == next { UsedIsNotListed(m, mal, v1, next); }
    }

    /** `__bin_chunk`: free a heap chunk. `blk` is the free block it ends up in. */
    method BinFree(self: int) returns (crashed: bool, reclaimed: bool, lo: int, hi: int, blk: int)
      requires HeapValid() && self in v.h && v.h[self].used && v.h[self].size > 0
      modifies this`mem, this`binmap, this`freeBytes, this`freeBlockBytes, this`v, this`allocatedBytes, this`reclaimedBytes
      ensures !crashed && HeapValid() && v.mm == old(v.mm)
      ensures allocatedBytes == Wrap(old(allocatedBytes) - old(v.h)[self].size)
      ensures LiveHeap(v.h) == LiveHeap(old(v.h)) - {self}
      ensures Used(v.h) == Used(old(v.h)) - old(v.h)[self].size
      ensures Kept(old(mem), mem, Live(v))
      ensures blk in v.h && !v.h[blk].used && blk <= self && self + old(v.h)[self].size <= blk + v.h[blk].size
      ensures Coalesced(old(v), v, self, blk)
      ensures reclaimed <==> WorthReclaiming(v.h[blk].size, old(v.h)[self].size)
      ensures reclaimed ==> WholePages(blk, blk + v.h[blk].size, lo, hi) && AllZero(mem, lo, hi)
      ensures reclaimedBytes == if reclaimed then Wrap(old(reclaimedBytes) + (hi - lo)) else old(reclaimedBytes)
    {
      hide Core, Kept, LiveHeap, Wrap, Used, Free, EndOk, Bounded, WorthReclaiming, WholePages, AllZero, Coalesced;
      ghost var m0 := mem;
      CoreSize(self);
      var osize := ClearLow(mem[self + 8]);
      var z;
      crashed, blk, z := FreeBlock(self);
      ghost var m1 := mem;
      reclaimed, lo, hi := Reclaim(blk, z, z - blk, osize);
      SubLiveSelf(Live(v));
      KeptThen(m0, m1, mem, Live(v), Live(v));
    }

    lemma {:induction false} CoreSize(c: int)
      requires Core(0) && c in v.h && v.h[c].size > 0
      ensures c + 8 in mem && ClearLow(mem[c + 8]) == v.h[c].size
    {
      hide Inv;
      SizeWord(mem, mal, v, 0, c);
    }

    /** `unmap_chunk`: give an mmapped chunk back, or crash on an odd `psize`. */
    method UnmapChunk(self: int) returns (crashed: bool)
      requires HeapValid() && (self in v.mm || (self in v.h && !v.h[self].used))
      modifies this`mem, this`v, this`allocatedBytes, this`mmapBytes
      ensures self in old(v.mm) ==>
                && !crashed && HeapValid() && v == old(v).(mm := old(v.mm) - {self})
                && mem == old(mem) - Range(self - 16, self + old(v.mm)[self])
                && Live(v) == Live(old(v)) - {self} && Kept(old(mem), mem, Live(v))
                && allocatedBytes == Wrap(old(allocatedBytes) - old(v.mm)[self])
                && mmapBytes == Wrap(old(mmapBytes) - (old(v.mm)[self] + 16))
                && Mapped(v.mm) == Mapped(old(v.mm)) - old(v.mm)[self]
      ensures self !in old(v.mm) ==>
                && crashed && mem == old(mem) && v == old(v) && mmapBytes == old(mmapBytes)
                && allocatedBytes == Wrap(old(allocatedBytes) - old(v.h)[self].size)
    {
      hide Inv, Bitmap, Kept, LiveHeap, Wrap, Used, Free, EndOk, Bounded, Mapped, Range;
      ghost var m0, v0 := mem, v;
      if self in v.mm {
        MmapReads(mem, mal, v, self);
        UnmapEffect(mem, mal, v, self);
      } else {
        FreedTwice(mem, mal, v, self);
        NextReads(mem, mal, v, self);
      }
      allocatedBytes := Wrap(allocatedBytes - ClearLow(mem[self + 8]));
      var extra := mem[self];
      var base := self - extra;
      var len := ClearLow(mem[self + 8]) + extra;
      crashed := extra % 2 == 1;
      if !crashed {
        mem := mem - Range(base, base + len);
        mmapBytes := Wrap(mmapBytes - len);
        v := v0.(mm := v0.mm - {self});
      }
    }

    /** How the low bit of `csize` tells an mmapped chunk from a heap chunk. */
    lemma {:induction false} FreeCase(self: int)
      requires Core(0) && (self in Live(v) || (self in v.h && !v.h[self].used))
      ensures self + 8 in mem
      ensures self in v.mm ==> self !in v.h
      ensures self in Live(v) <==> self in v.mm || (self in v.h && v.h[self].used && v.h[self].size > 0)
      ensures mem[self + 8] % 2 == 0 ==> self in v.mm || (self in v.h && !v.h[self].used)
      ensures mem[self + 8] % 2 == 1 ==> self !in v.mm && self in v.h && v.h[self].used && v.h[self].size > 0
    {
      hide Inv;
      if self in v.mm {
        MmapReads(mem, mal, v, self);
      } else {
        NextReads(mem, mal, v, self);
      }
    }

    /** `musl_free`. A live pointer is freed; a pointer whose chunk already heads
        a binned free block reaches the crash; null does nothing. A heap chunk ends
        up in the free block blk, whose whole pages [lo, hi) may be given back. */
    method MuslFree(p: int) returns (crashed: bool, ghost blk: int, ghost reclaimed: bool, ghost lo: int, ghost hi: int)
      requires Valid()
      requires p == 0 || p - OVERHEAD in Live(v) || (p - OVERHEAD in v.h && !v.h[p - OVERHEAD].used)
      modifies this
      ensures p != 0 && p - OVERHEAD in old(Live(v)) ==>
                && !crashed && Valid() && Live(v) == old(Live(v)) - {p - OVERHEAD}
                && Kept(old(mem), mem, Live(v))
      ensures p != 0 && p - OVERHEAD in old(Live(v)) && p - OVERHEAD in old(v.h) ==>
                var c, size := p - OVERHEAD, old(v.h)[p - OVERHEAD].size;
                && blk in v.h && !v.h[blk].used && blk <= c && c + size <= blk + v.h[blk].size
                && Coalesced(old(v), v, c, blk)
                && (reclaimed <==> WorthReclaiming(v.h[blk].size, size))
                && (reclaimed ==> WholePages(blk, blk + v.h[blk].size, lo, hi) && AllZero(mem, lo, hi))
                && reclaimedBytes == if reclaimed then Wrap(old(reclaimedBytes) + (hi - lo)) else old(reclaimedBytes)
      ensures p == 0 || p - OVERHEAD !in old(Live(v)) || p - OVERHEAD !in old(v.h) ==> reclaimedBytes == old(reclaimedBytes)
      ensures p == 0 ==> !crashed && Valid() && mem == old(mem) && v == old(v)
      ensures p != 0 && p - OVERHEAD !in old(Live(v)) ==>
                && crashed && mem == old(mem) && v == old(v) && mmapBytes == old(mmapBytes)
                && allocatedBytes == Wrap(old(allocatedBytes) - old(v.h)[p - OVERHEAD].size)
      ensures obtained == old(obtained) && segments == old(segments)
      ensures p != 0 && p - OVERHEAD in old(v.mm) ==>
                var c := p - OVERHEAD;
                && v == old(v).(mm := old(v.mm) - {c})
                && mem == old(mem) - Range(c - 16, c + old(v.mm)[c])
                && mmapBytes == Wrap(old(mmapBytes) - (old(v.mm)[c] + 16))
                && allocatedBytes == Wrap(old(allocatedBytes) - old(v.mm)[c])
    {
      hide Core, Kept, LiveHeap, Wrap, Used, Free, Mapped, EndOk, Bounded, Pow2, SubLive, Range, MappedBelow;
      hide WorthReclaiming, WholePages, AllZero, Coalesced;
      blk, reclaimed, lo, hi := 0, false, 0, 0;
      if p == 0 {
        return false, blk, reclaimed, lo, hi;
      }
      ghost var v0 := v;
      var self := p - OVERHEAD;
      MappedLess(v.mm, self);
      FreeCase(self);
      if mem[self + 8] % 2 == 0 {
        crashed := UnmapChunk(self);
        if self in v0.mm { WrapAdd(Used(v0.h) + Mapped(v0.mm), -v0.mm[self]); }
      } else {
        crashed, reclaimed, lo, hi, blk := BinFree(self);
        LiveWithout(v0, v, self);
        ghost var size: int := v0.h[self].size;
        WrapAdd(Used(v0.h) + Mapped(v0.mm), -size);
      }
    }

    /** The mmap path of malloc. */
    method MmapMalloc(n: nat, os: Os) returns (c: int)
      requires HeapValid() && n + OVERHEAD < WORD && HonestMmap(mem, os, AlignUp(n + OVERHEAD, PAGE_SIZE))
      requires AlignUp(n + OVERHEAD, PAGE_SIZE) > 0 && AlignUp(n + OVERHEAD, PAGE_SIZE) % PAGE_SIZE == 0
      modifies this`mem, this`v, this`mmapBytes, this`allocatedBytes
      ensures HeapValid() && v.h == old(v.h)
      ensures c == 0 <==> os.area == 0
      ensures c == 0 ==>
                && v == old(v) && mem == old(mem)
                && allocatedBytes == old(allocatedBytes) && mmapBytes == old(mmapBytes)
      ensures c != 0 ==>
                var size := AlignUp(n + OVERHEAD, PAGE_SIZE) - OVERHEAD;
                && c == os.area + OVERHEAD > 0 && c % SIZE_ALIGN == 16
                && NewMapping(old(mem), mem, old(v), v, c, size)
                && allocatedBytes == Wrap(old(allocatedBytes) + size)
                && mmapBytes == Wrap(old(mmapBytes) + size + 16)
    {
      hide Inv, Bitmap, Wrap, Used, Free, EndOk, Bounded, AlignUp, Pages, NewMapping, HonestMmap;
      var len := AlignUp(n + OVERHEAD, PAGE_SIZE);
      if os.area == 0 {
        return 0;
      }
      HonestAnswer(mem, os, len);
      var base := os.area;
      MmapEffect(mem, mal, v, os.areaPages, base, len);
      mem := mem + os.areaPages;
      c := base + 16;
      mem := mem[c + 8 := len - 16];
      mem := mem[c := 16];
      mmapBytes := Wrap(mmapBytes + len);
      allocatedBytes := Wrap(allocatedBytes + ClearLow(mem[c + 8]));
      v := v.(mm := v.mm[c := len - 16]);
    }

    /** `musl_malloc`. */
    method MuslMalloc(n0: nat, os: Os) returns (p: int, ghost grew: bool)
      requires Valid() && n0 < WORD && HonestFor(mem, storedBrk, mmapStep, os, n0)
      modifies this
      ensures Valid()
      ensures p == 0 ==> v == old(v)
      ensures p == 0 <==> AdjustSize(n0).Refused? ||
                          (os.area == 0 && (AdjustSize(n0).n > BinIndex.MMAP_THRESHOLD ||
                             (grew && !(os.brkOk && BrkFits(old(storedBrk), os, AlignUp(AdjustSize(n0).n + SIZE_ALIGN, PAGE_SIZE))))))
      ensures Kept(old(mem), mem, Live(old(v)))
      ensures p != 0 ==>
                && p % SIZE_ALIGN == 0 && p > OVERHEAD && p - OVERHEAD !in Live(old(v))
                && Live(v) == Live(old(v))[p - OVERHEAD := ServedSize(n0)]
                && n0 + OVERHEAD <= ServedSize(n0)
      ensures grew ==> AdjustSize(n0).Adjusted? && TightFit(old(v.h), AdjustSize(n0).n)
      ensures !grew || p == 0 ==> obtained == old(obtained) && segments == old(segments)
      ensures grew && p != 0 ==>
                var bytes := AlignUp(AdjustSize(n0).n + SIZE_ALIGN, PAGE_SIZE);
                && obtained == old(obtained) + RegionLen(old(storedBrk), os, bytes, old(mmapStep))
                && segments == old(segments) + (if RegionStart(old(storedBrk), os, bytes) == old(end) then 0 else 1)
      ensures AdjustSize(n0).Adjusted? && AdjustSize(n0).n <= BinIndex.MMAP_THRESHOLD ==>
                var n := AdjustSize(n0).n;
                var bytes := AlignUp(n + SIZE_ALIGN, PAGE_SIZE);
                var r, len := RegionStart(old(storedBrk), os, bytes), RegionLen(old(storedBrk), os, bytes, old(mmapStep));
                && (grew <==> NoFit(old(v.h), n))
                && (!grew ==> p != 0 && ServedFrom(old(v), v, p - OVERHEAD, n))
                && (grew && p != 0 ==> ServedByGrowth(old(v), v, p - OVERHEAD, n, r, len, r == old(end)))
      ensures p != 0 && AdjustSize(n0).n > BinIndex.MMAP_THRESHOLD ==>
                var c := p - OVERHEAD;
                && c == os.area + OVERHEAD && NewMapping(old(mem), mem, old(v), v, c, ServedSize(n0))
                && mmapBytes == Wrap(old(mmapBytes) + ServedSize(n0) + 16)
                && allocatedBytes == Wrap(old(allocatedBytes) + ServedSize(n0))
    {
      hide Core, Kept, LiveHeap, Wrap, Used, Free, Mapped, EndOk, Bounded, AlignUp;
      hide MmapLen, HonestBrk, HonestMmap, TightFit, Handed, BrkFits, MappedBelow, Range, RegionStart, RegionLen;
      hide NoFit, ServedFrom, ServedByGrowth;
      grew := false;
      var adjusted := AdjustSize(n0);
      CoreSelfKept();
      if adjusted.Refused? {
        return 0, false;
      }
      AdjustSizeIs(n0);
      ServedSizeIs(n0);
      var n := adjusted.n;
      ghost var v0 := v;
      if n > BinIndex.MMAP_THRESHOLD {
        var c := MmapMalloc(n, os);
        if c == 0 {
          return 0, false;
        }
        WrapAdd(Used(v0.h) + Mapped(v0.mm), ServedSize(n0));
        p := c + OVERHEAD;
      } else {
        var c;
        c, grew := HeapMalloc(n, os);
        if c == 0 {
          return 0, grew;
        }
        HandedLive(v0, v, c, n);
        CoreLive(c);
        allocatedBytes := Wrap(allocatedBytes + ClearLow(mem[c + 8]));
        WrapAdd(Used(v0.h) + Mapped(v0.mm), n);
        p := c + OVERHEAD;
      }
    }

    lemma {:induction false} CoreLive(c: int)
      requires Core(0) && c in Live(v) && c !in v.mm
      ensures c % SIZE_ALIGN == 16 && c > 0 && c + 8 in mem && ClearLow(mem[c + 8]) == Live(v)[c]
    {
      hide Inv;
      LiveCases(mem, mal, v, c);
      SizeWord(mem, mal, v, 0, c);
    }

    constructor (mal: int)
      requires mal > 0
      ensures Valid() && this.mal == mal && Live(v) == map[]
      ensures v == EmptyView() && obtained == 0 && segments == 0
    {
      this.mal := mal;
      mem := ZeroMap(Range(mal, mal + MAL_SIZE));
      binmap, end, storedBrk, mmapStep := 0, 0, 0, 0;
      allocatedBytes, freeBytes, heapBytes, freeBlockBytes, mmapBytes, reclaimedBytes := 0, 0, 0, 0, 0, 0;
      v := EmptyView();
      obtained, segments := 0, 0;
      new;
      hide Inv, Bitmap, Used, Free, Mapped, ZeroMap;
      InitialInv(mal);
    }

    /** A store by the client into one of its payloads. */
    method Write(p: int, a: int, w: int)
      requires Valid() && p - OVERHEAD in Live(v) && p <= a < p - OVERHEAD + Live(v)[p - OVERHEAD]
      modifies this`mem
      ensures Valid() && a in old(mem) && mem == old(mem)[a := w]
      ensures Kept(old(mem), mem, Live(v) - {p - OVERHEAD})
    {
      hide Inv, Bitmap, Used, Free, Mapped, Kept, LiveHeap;
      WriteEffect(mem, mal, v, p - OVERHEAD, a, w);
      mem := mem[a := w];
    }
  }
}
