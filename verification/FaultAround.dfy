/** The fault-around window of concepts/fault_around: four versions of one kernel
    computation on 64-bit unsigned numbers. */
module FaultAround {
  import opened Sizes
  import opened Bits

  const PTRS_PER_PTE: nat := 512

  datatype Vma = Vma(start: nat, end: nat, pgoff: nat)
  datatype Vmf = Vmf(address: nat, vma: Vma, pgoff: nat)

  /** The page offset that belongs to `page`, if pgoff belongs to `at`. */
  function Offset(pgoff: nat, page: int, at: int): nat { Wrap(pgoff + page - at) }

  lemma OffsetIs(pgoff: nat, page: int, at: int)
    ensures Offset(pgoff, page, at) == Wrap(pgoff - (at - page)) < WORD
  {
    hide Wrap;
  }

  lemma SameOffset(pgoff: nat, page: int, at: int, page': int, at': int)
    requires page - at == page' - at'
    ensures Offset(pgoff, page, at) == Offset(pgoff, page', at')
  {
    hide Wrap;
    assert pgoff + page - at == pgoff + page' - at';
  }

  lemma OffsetPlus(pgoff: nat, lo: int, at: int, last: int, d: nat)
    requires last == lo + d
    ensures Offset(pgoff, last, at) == Wrap(Offset(pgoff, lo, at) + d)
  {
    hide Wrap;
    WrapAdd(pgoff + lo - at, d);
  }

  /** `>> PAGE_SHIFT`, and the number of pages of the address space. */
  function PageOf(address: nat): nat { address / PAGE_SIZE }
  const PAGES: nat := 0x10_0000_0000_0000

  function Max(x: nat, y: nat): nat { if x > y then x else y }
  function Min(x: nat, y: nat): nat { if x < y then x else y }
  function Min3(x: nat, y: nat, z: nat): nat { Min(Min(x, y), z) }

  function PteIndex(address: nat): nat { And(PageOf(address), PTRS_PER_PTE - 1) }
  function VmaPages(v: Vma): nat { Wrap(v.end - v.start) / PAGE_SIZE }

  /** ALIGN_DOWN(x, a): `((x - (a - 1)) + (a - 1)) & ~(a - 1)`. */
  function AlignDown(x: nat, a: nat): nat
    requires 0 < a <= WORD
  {
    And(Wrap(Wrap(x - (a - 1)) + (a - 1)), Not(a - 1))
  }

  /** The original from the clamped start address on. */
  function OriginalAt(f: Vmf, nr: nat, address: nat): (nat, nat) {
    var off := And(PageOf(Wrap(f.address - address)), PTRS_PER_PTE - 1);
    var start := Wrap(f.pgoff - off);
    var end := Wrap(start - And(PageOf(address), PTRS_PER_PTE - 1) + PTRS_PER_PTE - 1);
    (start, Min3(end, Wrap(VmaPages(f.vma) + f.vma.pgoff - 1), Wrap(start + nr - 1)))
  }

  function OriginalStart(f: Vmf, nr: nat): nat {
    var mask := And(Not(Wrap(nr * PAGE_SIZE - 1)), Not(PAGE_SIZE - 1));
    Max(And(f.address, mask), f.vma.start)
  }

  function Original(f: Vmf, bytes: nat): (nat, nat) {
    var nr := bytes / PAGE_SIZE;
    OriginalAt(f, nr, OriginalStart(f, nr))
  }

  /** The three clamps of take 1, in virtual pages; `down` is ALIGN_DOWN(virt, nr). */
  function Take1Pages(virt: nat, pteOff: nat, vs: nat, ve: nat, down: nat, nr: nat): (nat, nat) {
    // clamp to PTE
    var from := Wrap(virt - pteOff);
    var to := Wrap(from + PTRS_PER_PTE - 1);
    // clamp to VMA
    var from1 := Max(from, vs);
    var to1 := Min(to, Wrap(ve - 1));
    // clamp to fault_around_bytes
    var from2 := Max(from1, down);
    (from2, Min(to1, Wrap(from2 + nr - 1)))
  }

  function Take1(f: Vmf, bytes: nat): (nat, nat)
    requires PAGE_SIZE <= bytes < WORD
  {
    var nr := bytes / PAGE_SIZE;
    var virt := PageOf(f.address);
    var w := Take1Pages(virt, PteIndex(f.address), PageOf(f.vma.start), PageOf(f.vma.end), AlignDown(virt, nr), nr);
    (Offset(f.pgoff, w.0, virt), Offset(f.pgoff, w.1, virt))
  }

  /** The clamps of the later versions, as offsets in the page table. */
  function FinalPtes(pteOff: nat, vmaOff: nat, pages: nat, down: nat, nr: nat): (nat, nat) {
    var fromPte := Max(down, Wrap(pteOff - Min(pteOff, vmaOff)));
    (fromPte, Wrap(Min3(Wrap(fromPte + nr), PTRS_PER_PTE, Wrap(pteOff + pages - vmaOff)) - 1))
  }

  /** do_fault_around_take2 and do_fault_around: the same expressions, the second
      with an explicit cast in min3. */
  function Final(f: Vmf, bytes: nat): (nat, nat)
    requires PAGE_SIZE <= bytes < WORD
  {
    var nr := bytes / PAGE_SIZE;
    var pteOff := PteIndex(f.address);
    var w := FinalPtes(pteOff, Wrap(f.pgoff - f.vma.pgoff), VmaPages(f.vma), AlignDown(pteOff, nr), nr);
    (Offset(f.pgoff, w.0, pteOff), Offset(f.pgoff, w.1, pteOff))
  }

  // ---- the specification ----

  /** A page-aligned VMA, an address in it and the matching page offset. */
  predicate Faulting(f: Vmf) {
    && f.vma.start % PAGE_SIZE == 0 && f.vma.end % PAGE_SIZE == 0
    && f.vma.start <= f.address < f.vma.end < WORD && f.vma.pgoff < WORD
    && f.pgoff == Wrap(f.vma.pgoff + (f.address - f.vma.start) / PAGE_SIZE)
  }

  /** A power-of-two page count that fits one page table. */
  predicate PageCount(nr: nat, j: nat) {
    j <= 9 && nr == Pow2(j)
  }

  /** The multiple of n at or below x. */
  function RoundDown(x: nat, n: nat): (r: nat)
    requires n > 0
    ensures r <= x < r + n
  {
    Remainder(x, n);
    x - x % n
  }

  /** First and last virtual page of the window around virtual page vp. */
  function First(vp: nat, vs: nat, nr: nat): nat
    requires nr > 0
  {
    Max(RoundDown(vp, nr), vs)
  }

  function Last(vp: nat, vs: nat, ve: nat, nr: nat): int
    requires nr > 0
  {
    Least(First(vp, vs, nr) + nr - 1, RoundDown(vp, PTRS_PER_PTE) + PTRS_PER_PTE - 1, ve - 1)
  }

  function Least(a: int, b: int, c: int): int {
    if a <= b && a <= c then a else if b <= c then b else c
  }

  /** The window, translated from virtual pages to page offsets. */
  function Window(f: Vmf, nr: nat): (nat, nat)
    requires nr > 0
  {
    var vp, vs, ve := PageOf(f.address), PageOf(f.vma.start), PageOf(f.vma.end);
    (Offset(f.pgoff, First(vp, vs, nr), vp), Offset(f.pgoff, Last(vp, vs, ve, nr), vp))
  }

  // ---- arithmetic ----

  lemma PteIndexIs(address: nat)
    ensures PteIndex(address) == PageOf(address) % PTRS_PER_PTE
  {
    SmallPowers();
    AndLow(PageOf(address), 9);
  }

  lemma SmallPowers()
    ensures Pow2(9) == 512 && Pow2(12) == 4096
  {
    HalfWordIsPow2();
    assert Pow2(3) == 8;
    Pow2Add(3, 9);
  }

  lemma PageCountIs(nr: nat, j: nat)
    requires PageCount(nr, j)
    ensures 1 <= nr <= 512 && nr * Pow2(9 - j) == 512 && nr * PAGE_SIZE == Pow2(j + 12) && j + 12 <= 64
  {
    SmallPowers();
    Pow2Add(j, 9 - j);
    Pow2Add(j, 12);
    Pow2Monotone(j, 9);
  }

  lemma CountBounds(nr: nat, j: nat)
    requires PageCount(nr, j)
    ensures 1 <= nr <= 512
  {
    PageCountIs(nr, j);
  }

  lemma AlignDownIs(x: nat, nr: nat, j: nat)
    requires x < WORD && PageCount(nr, j)
    ensures nr <= WORD && AlignDown(x, nr) == x - x % nr
  {
    CountBounds(nr, j);
    hide AlignDown, Pow2;
    AlignDownPow2(x, j);
  }

  lemma AlignDownPow2(x: nat, k: nat)
    requires x < WORD && k <= 64
    ensures Pow2(k) <= WORD && AlignDown(x, Pow2(k)) == x - x % Pow2(k)
  {
    hide And, Pow2, Wrap;
    AlignIs(x, k);
    WrapBack(x, Pow2(k) - 1);
  }

  /** Subtracting and adding back is the identity modulo 2^64. */
  lemma WrapBack(x: nat, a: nat)
    requires x < WORD
    ensures Wrap(Wrap(x - a) + a) == x
  {
    hide Wrap;
    WrapAdd(x - a, a);
    WrapSmall(x);
  }

  lemma Remainder(x: nat, n: nat)
    requires n > 0
    ensures 0 <= x % n < n && x % n <= x
  {
    Quotient(x, n);
    assert x / n * n >= 0;
  }

  /** Remainders by a divisor of 512. */
  lemma ModMod(x: nat, nr: nat, q: nat)
    requires nr > 0 && nr * q == 512
    ensures (x % 512) % nr == x % nr && x % nr <= x % 512
    ensures x % nr + nr <= x % 512 + nr && (x - x % nr) % nr == 0
  {
    var r := x % 512;
    Quotient(r, nr);
    assert x == 512 * (x / 512) + r;
    MulAssoc(nr, q, x / 512);
    assert x == (q * (x / 512) + r / nr) * nr + r % nr by { MulDistr(q * (x / 512), r / nr, nr); }
    DivUnique(x, nr, q * (x / 512) + r / nr, r % nr);
    DivUnique(x - x % nr, nr, x / nr, 0);
    assert r / nr * nr >= 0;
  }

  lemma MulAssoc(a: int, b: int, c: int)
    ensures a * b * c == (b * c) * a
  {
  }

  lemma MulDistr(a: int, b: int, c: int)
    ensures (a + b) * c == a * c + b * c
  {
  }

  // ---- positions in pages ----

  ghost predicate InPages(f: Vmf, vp: nat, vs: nat, ve: nat) {
    && vp == PageOf(f.address) && vs == PageOf(f.vma.start) && ve == PageOf(f.vma.end)
    && vs <= vp < ve < PAGES
    && f.vma.start == vs * PAGE_SIZE && f.vma.end == ve * PAGE_SIZE
    && f.pgoff == Wrap(f.vma.pgoff + (vp - vs)) && f.vma.pgoff < WORD
    && VmaPages(f.vma) == ve - vs
  }

  lemma InPagesIs(f: Vmf)
    requires Faulting(f)
    ensures InPages(f, PageOf(f.address), PageOf(f.vma.start), PageOf(f.vma.end))
  {
    var vp, vs, ve := PageOf(f.address), PageOf(f.vma.start), PageOf(f.vma.end);
    assert f.vma.start == vs * PAGE_SIZE && f.vma.end == ve * PAGE_SIZE;
    DivUnique(f.address - f.vma.start, PAGE_SIZE, vp - vs, f.address % PAGE_SIZE);
    WrapSmall(f.vma.end - f.vma.start);
    DivUnique(f.vma.end - f.vma.start, PAGE_SIZE, ve - vs, 0);
  }

  /** The window contains the faulting page, has at most nr pages, and stays
      inside the VMA and inside one page table. It starts in the aligned block of
      nr pages around the faulting one, and neither end could lie further out. */
  lemma WindowIsSafe(vp: nat, vs: nat, ve: nat, nr: nat, j: nat)
    requires PageCount(nr, j) && vs <= vp < ve
    ensures var lo, hi := First(vp, vs, nr), Last(vp, vs, ve, nr);
            && vs <= lo <= vp <= hi < ve && hi - lo + 1 <= nr
            && RoundDown(vp, PTRS_PER_PTE) <= lo && hi < RoundDown(vp, PTRS_PER_PTE) + PTRS_PER_PTE
            && RoundDown(vp, nr) <= lo && (lo == vs || lo == RoundDown(vp, nr))
            && (hi == ve - 1 || hi == lo + nr - 1 || hi == RoundDown(vp, PTRS_PER_PTE) + PTRS_PER_PTE - 1)
  {
    PageCountIs(nr, j);
    hide Pow2;
    ModMod(vp, nr, Pow2(9 - j));
    Quotient(vp, nr);
  }

  // ---- take 1 ----

  /** What the window functions compute from the fault, as plain arithmetic. */
  lemma Ingredients(f: Vmf, nr: nat, j: nat)
    requires Faulting(f) && PageCount(nr, j)
    ensures var vp, vs, ve := PageOf(f.address), PageOf(f.vma.start), PageOf(f.vma.end);
            && vs <= vp < ve < PAGES && 1 <= nr <= 512 && vp % nr <= vp % 512
            && PteIndex(f.address) == vp % 512 && VmaPages(f.vma) == ve - vs
            && AlignDown(vp, nr) == vp - vp % nr && AlignDown(vp % 512, nr) == vp % 512 - vp % nr
            && Wrap(f.pgoff - f.vma.pgoff) == vp - vs
  {
    var vp, vs := PageOf(f.address), PageOf(f.vma.start);
    hide Pow2, AlignDown, PteIndex, Wrap, VmaPages, PageOf;
    InPagesIs(f);
    PteIndexIs(f.address);
    BothAligned(vp, nr, j);
    OffsetInVma(f.vma.pgoff, vp - vs);
  }

  lemma BothAligned(vp: nat, nr: nat, j: nat)
    requires PageCount(nr, j) && vp < WORD
    ensures 1 <= nr <= 512 && vp % nr <= vp % 512
    ensures AlignDown(vp, nr) == vp - vp % nr && AlignDown(vp % 512, nr) == vp % 512 - vp % nr
  {
    PageCountIs(nr, j);
    hide Pow2, AlignDown, PageCount;
    AlignDownIs(vp, nr, j);
    AlignDownIs(vp % 512, nr, j);
    ModMod(vp, nr, Pow2(9 - j));
  }

  lemma Take1IsWindow(f: Vmf, bytes: nat, j: nat)
    requires Faulting(f) && PageCount(bytes / PAGE_SIZE, j) && bytes < WORD
    ensures bytes >= PAGE_SIZE && Take1(f, bytes) == Window(f, bytes / PAGE_SIZE)
  {
    hide Pow2, AlignDown, PteIndex, Wrap, Take1Pages, First, Last, Faulting, VmaPages, PageCount, PageOf, Offset;
    var nr := bytes / PAGE_SIZE;
    Ingredients(f, nr, j);
    Clamp1(PageOf(f.address), PageOf(f.vma.start), PageOf(f.vma.end), nr);
  }

  /** The clamps of take 1, without wraparound. */
  lemma Clamp1(vp: nat, vs: nat, ve: nat, nr: nat)
    requires 1 <= nr <= 512 && vs <= vp < ve < PAGES && vp % nr <= vp % 512
    ensures Take1Pages(vp, vp % 512, vs, ve, vp - vp % nr, nr) == (First(vp, vs, nr), Last(vp, vs, ve, nr))
  {
    hide Take1Pages, FinalPtes;
    Remainder(vp, 512);
    Remainder(vp, nr);
    Clamped1(vp, vp % 512, vp % nr, vs, ve, nr);
  }

  /** t entries of the table and r pages of the block lie before page vp. */
  lemma Clamped1(vp: nat, t: nat, r: nat, vs: nat, ve: nat, nr: nat)
    requires 1 <= nr <= 512 && vs <= vp < ve < PAGES && r <= t < 512 && r < nr && t <= vp
    ensures var lo := Max(vp - r, vs);
            Take1Pages(vp, t, vs, ve, vp - r, nr) == (lo, Least(lo + nr - 1, vp - t + 511, ve - 1))
  {
    hide Wrap;
    WrapSmall(vp - t);
    WrapSmall(vp - t + 511);
    WrapSmall(ve - 1);
    WrapSmall(Max(vp - r, vs) + nr - 1);
  }

  // ---- take 2 and the final version ----

  lemma ClampFinal(vp: nat, vs: nat, ve: nat, nr: nat)
    requires 1 <= nr <= 512 && vs <= vp < ve < PAGES && vp % nr <= vp % 512
    ensures var t := vp % 512;
            var w := FinalPtes(t, vp - vs, ve - vs, t - vp % nr, nr);
            w.0 - t == First(vp, vs, nr) - vp && w.1 - t == Last(vp, vs, ve, nr) - vp
  {
    hide Take1Pages, FinalPtes;
    Remainder(vp, 512);
    Remainder(vp, nr);
    ClampedFinal(vp, vp % 512, vp % nr, vs, ve, nr);
  }

  lemma ClampedFinal(vp: nat, t: nat, r: nat, vs: nat, ve: nat, nr: nat)
    requires 1 <= nr <= 512 && vs <= vp < ve < PAGES && r <= t < 512 && r < nr && t <= vp
    ensures var lo := Max(vp - r, vs);
            var w := FinalPtes(t, vp - vs, ve - vs, t - r, nr);
            w.0 - t == lo - vp && w.1 - t == Least(lo + nr - 1, vp - t + 511, ve - 1) - vp
  {
    hide Wrap;
    var k := vp - vs;
    WrapSmall(t - Min(t, k));
    var fromPte := Max(t - r, t - Min(t, k));
    assert fromPte == t - vp + Max(vp - r, vs);
    WrapSmall(fromPte + nr);
    WrapSmall(t + (ve - vs) - k);
    WrapSmall(Min3(fromPte + nr, 512, t + (ve - vs) - k) - 1);
  }

  lemma FinalIsWindow(f: Vmf, bytes: nat, j: nat)
    requires Faulting(f) && PageCount(bytes / PAGE_SIZE, j) && bytes < WORD
    ensures bytes >= PAGE_SIZE && Final(f, bytes) == Window(f, bytes / PAGE_SIZE)
  {
    hide Pow2, AlignDown, PteIndex, Wrap, FinalPtes, First, Last, Faulting, VmaPages, PageCount, PageOf, Offset;
    var nr := bytes / PAGE_SIZE;
    Ingredients(f, nr, j);
    var vp, vs, ve := PageOf(f.address), PageOf(f.vma.start), PageOf(f.vma.end);
    ClampFinal(vp, vs, ve, nr);
    var t := vp % 512;
    var w := FinalPtes(t, vp - vs, ve - vs, t - vp % nr, nr);
    SameOffset(f.pgoff, w.0, t, First(vp, vs, nr), vp);
    SameOffset(f.pgoff, w.1, t, Last(vp, vs, ve, nr), vp);
  }

  lemma OffsetInVma(pgoff: nat, k: nat)
    requires k < WORD
    ensures Wrap(Wrap(pgoff + k) - pgoff) == k
  {
    var q := (pgoff + k) / WORD;
    assert Wrap(pgoff + k) - pgoff == k + (-q) * WORD;
    DivUnique(k + (-q) * WORD, WORD, -q, k);
  }

  // ---- the original ----

  lemma MaskIs(nr: nat, j: nat)
    requires PageCount(nr, j)
    ensures nr * PAGE_SIZE < WORD
    ensures And(Not(Wrap(nr * PAGE_SIZE - 1)), Not(PAGE_SIZE - 1)) == WORD - nr * PAGE_SIZE
  {
    CountBounds(nr, j);
    NotMask(nr * PAGE_SIZE);
    NotMask(PAGE_SIZE);
    WrapSmall(PAGE_SIZE - 1);
    hide And, Pow2, Wrap, PageCount, Not;
    assert Pow2(12) == PAGE_SIZE && Pow2(64) == WORD by { SmallPowers(); WordIsPow2(); }
    AndHigh(WORD - nr * PAGE_SIZE, 64, 12);
    WholePages(nr);
  }

  lemma NotMask(p: nat)
    requires 0 < p < WORD
    ensures Not(Wrap(p - 1)) == WORD - p
  {
    WrapSmall(p - 1);
    hide Wrap;
  }

  lemma WholePages(nr: nat)
    requires nr <= 512
    ensures (WORD - nr * PAGE_SIZE) % PAGE_SIZE == 0
  {
    DivUnique(WORD - nr * PAGE_SIZE, PAGE_SIZE, PAGES - nr, 0);
  }

  lemma MaskedAddress(address: nat, nr: nat, j: nat)
    requires PageCount(nr, j) && address < WORD
    ensures nr * PAGE_SIZE < WORD
    ensures And(address, WORD - nr * PAGE_SIZE) == RoundDown(PageOf(address), nr) * PAGE_SIZE
  {
    PageCountIs(nr, j);
    MaskIs(nr, j);
    WordIsPow2();
    hide And, Pow2;
    AndHigh(address, 64, j + 12);
    var vp := address / PAGE_SIZE;
    ScaledMod(address, nr);
  }

  /** Rounding an address down to nr pages rounds its page number down to nr. */
  lemma ScaledMod(address: nat, nr: nat)
    requires nr > 0
    ensures address - address % (nr * PAGE_SIZE) == RoundDown(PageOf(address), nr) * PAGE_SIZE
  {
    var vp := address / PAGE_SIZE;
    Quotient(vp, nr);
    Quotient(address, PAGE_SIZE);
    var q, r := vp / nr, (vp % nr) * PAGE_SIZE + address % PAGE_SIZE;
    MulMonotone(vp % nr + 1, nr, PAGE_SIZE);
    assert address == q * (nr * PAGE_SIZE) + r by {
      assert vp * PAGE_SIZE == (q * nr + vp % nr) * PAGE_SIZE;
      MulDistr(q * nr, vp % nr, PAGE_SIZE);
      assert q * nr * PAGE_SIZE == q * (nr * PAGE_SIZE);
    }
    DivUnique(address, nr * PAGE_SIZE, q, r);
  }

  /** The three ends that the original compares, as distances from its start. */
  function ToTableEnd(lo: nat): int { PTRS_PER_PTE - 1 - lo % PTRS_PER_PTE }
  function ToVmaEnd(lo: nat, ve: nat): int { ve - 1 - lo }

  /** First page of the window, its page offset, and the distances from it. */
  function Lo(f: Vmf, nr: nat): nat
    requires nr > 0
  {
    First(PageOf(f.address), PageOf(f.vma.start), nr)
  }

  function StartOffset(f: Vmf, nr: nat): nat
    requires nr > 0
  {
    Offset(f.pgoff, Lo(f, nr), PageOf(f.address))
  }

  function TableDistance(f: Vmf, nr: nat): int
    requires nr > 0
  {
    ToTableEnd(Lo(f, nr))
  }

  function VmaDistance(f: Vmf, nr: nat): int
    requires nr > 0
  {
    ToVmaEnd(Lo(f, nr), PageOf(f.vma.end))
  }

  lemma MaskedStart(f: Vmf, nr: nat, j: nat)
    requires Faulting(f) && PageCount(nr, j)
    ensures nr > 0 && OriginalStart(f, nr) == Lo(f, nr) * PAGE_SIZE
    ensures Lo(f, nr) <= PageOf(f.address) < Lo(f, nr) + 512
  {
    var vp, vs := PageOf(f.address), PageOf(f.vma.start);
    hide Pow2, And, Wrap, Faulting, PageCount, VmaPages, PageOf;
    assert f.address < WORD && f.vma.start == vs * PAGE_SIZE && vs <= vp by { InPagesIs(f); InVma(f); }
    CountBounds(nr, j);
    MaskIs(nr, j);
    MaskedAddress(f.address, nr, j);
    LaterStart(vp, vs, nr);
  }

  lemma InVma(f: Vmf)
    requires Faulting(f)
    ensures f.address < WORD
  {
  }

  /** The larger of two page addresses is that of the larger page. */
  lemma LaterStart(vp: nat, vs: nat, nr: nat)
    requires 1 <= nr <= 512 && vs <= vp
    ensures Max(RoundDown(vp, nr) * PAGE_SIZE, vs * PAGE_SIZE) == First(vp, vs, nr) * PAGE_SIZE
    ensures First(vp, vs, nr) <= vp < First(vp, vs, nr) + 512
  {
    hide Max, RoundDown;
    MaxPages(RoundDown(vp, nr), vs);
    MaxIs(RoundDown(vp, nr), vs);
  }

  lemma MaxPages(a: nat, b: nat)
    ensures Max(a * PAGE_SIZE, b * PAGE_SIZE) == Max(a, b) * PAGE_SIZE
  {
  }

  lemma MaxIs(a: nat, b: nat)
    ensures a <= Max(a, b) && b <= Max(a, b) && (Max(a, b) == a || Max(a, b) == b)
  {
  }

  lemma PagesBetween(address: nat, lo: nat)
    requires address < WORD && lo <= PageOf(address) < lo + 512
    ensures And(PageOf(Wrap(address - lo * PAGE_SIZE)), PTRS_PER_PTE - 1) == PageOf(address) - lo
    ensures And(PageOf(lo * PAGE_SIZE), PTRS_PER_PTE - 1) == lo % PTRS_PER_PTE
  {
    var vp := address / PAGE_SIZE;
    DivUnique(address - lo * PAGE_SIZE, PAGE_SIZE, vp - lo, address % PAGE_SIZE);
    WrapSmall(address - lo * PAGE_SIZE);
    SmallPowers();
    hide And, Pow2, Wrap;
    AndLow(vp - lo, 9);
    AndLow(lo, 9);
    DivUnique(vp - lo, 512, 0, vp - lo);
  }

  lemma OriginalIs(f: Vmf, bytes: nat, j: nat)
    requires Faulting(f) && PageCount(bytes / PAGE_SIZE, j) && bytes < WORD
    ensures var nr := bytes / PAGE_SIZE;
            var s := StartOffset(f, nr);
            Original(f, bytes) == (s, Min3(Wrap(s + TableDistance(f, nr)), Wrap(s + VmaDistance(f, nr)), Wrap(s + (nr - 1))))
  {
    var nr := bytes / PAGE_SIZE;
    hide Pow2, Wrap, PageCount, OriginalAt, OriginalStart, Faulting, Lo, StartOffset, TableDistance, VmaDistance, Min3, PageOf;
    MaskedStart(f, nr, j);
    OriginalAtIs(f, nr);
  }

  lemma OriginalAtIs(f: Vmf, nr: nat)
    requires Faulting(f) && nr > 0 && Lo(f, nr) <= PageOf(f.address) < Lo(f, nr) + 512
    ensures var s := StartOffset(f, nr);
            OriginalAt(f, nr, Lo(f, nr) * PAGE_SIZE) ==
            (s, Min3(Wrap(s + TableDistance(f, nr)), Wrap(s + VmaDistance(f, nr)), Wrap(s + (nr - 1))))
  {
    hide And, Wrap, VmaPages, Lo, Faulting, First, Min3, PageOf;
    var vp, vs, ve, lo := PageOf(f.address), PageOf(f.vma.start), PageOf(f.vma.end), Lo(f, nr);
    assert f.address < WORD && f.pgoff == Wrap(f.vma.pgoff + (vp - vs)) && VmaPages(f.vma) == ve - vs by {
      InVma(f);
      InPagesIs(f);
    }
    PagesBetween(f.address, lo);
    EndOfVma(f.vma.pgoff, vp, vs, ve, lo);
    OffsetIs(f.pgoff, lo, vp);
    hide Offset;
    TableEnd(StartOffset(f, nr), lo);
  }

  lemma TableEnd(s: nat, lo: nat)
    ensures s - lo % PTRS_PER_PTE + PTRS_PER_PTE - 1 == s + ToTableEnd(lo)
  {
  }

  lemma EndOfVma(pgoff: nat, vp: int, vs: int, ve: int, lo: int)
    ensures Wrap(Wrap(Wrap(pgoff + (vp - vs)) - (vp - lo)) + (ve - 1 - lo)) == Wrap(ve - vs + pgoff - 1)
  {
    hide Wrap;
    WrapAdd(pgoff + (vp - vs), -(vp - lo));
    WrapAdd(pgoff + (vp - vs) - (vp - lo), ve - 1 - lo);
  }

  predicate NoneOrAll(s: int, d1: int, d2: int, d3: int) {
    || (s + d1 < WORD && s + d2 < WORD && s + d3 < WORD)
    || (s + d1 >= WORD && s + d2 >= WORD && s + d3 >= WORD)
  }

  /** The smallest of three wrapped sums is the wrapped smallest sum exactly when
      none or all of them wrap. */
  lemma MinOfWrapped(s: nat, d1: int, d2: int, d3: int)
    requires s < WORD && 0 <= d1 < WORD && 0 <= d2 < WORD && 0 <= d3 < WORD
    ensures Min3(Wrap(s + d1), Wrap(s + d2), Wrap(s + d3)) == Wrap(s + Min3(d1, d2, d3)) <==> NoneOrAll(s, d1, d2, d3)
  {
    WrapOnce(s, d1);
    WrapOnce(s, d2);
    WrapOnce(s, d3);
    hide Wrap;
  }

  lemma WrapOnce(s: nat, d: int)
    requires s < WORD && 0 <= d < WORD
    ensures Wrap(s + d) == if s + d < WORD then s + d else s + d - WORD
  {
  }

  /** Either none or all of the three ends compared by the original wrap. */
  ghost predicate SameSide(f: Vmf, nr: nat)
    requires nr > 0
  {
    NoneOrAll(StartOffset(f, nr), TableDistance(f, nr), VmaDistance(f, nr), nr - 1)
  }

  lemma WindowFrom(f: Vmf, nr: nat, j: nat)
    requires Faulting(f) && PageCount(nr, j)
    ensures 0 < nr <= 512 && 0 <= TableDistance(f, nr) < WORD && 0 <= VmaDistance(f, nr) < WORD
    ensures var s := StartOffset(f, nr);
            s < WORD && Window(f, nr) == (s, Wrap(s + Min3(TableDistance(f, nr), VmaDistance(f, nr), nr - 1)))
  {
    CountBounds(nr, j);
    hide Faulting, PageCount, Window, Wrap, StartOffset, TableDistance, VmaDistance, Min3, PageOf, Last, First, Offset;
    LastPage(f, nr, j);
    WindowIs(f, nr);
    var vp, vs, ve := PageOf(f.address), PageOf(f.vma.start), PageOf(f.vma.end);
    OffsetPlus(f.pgoff, First(vp, vs, nr), vp, Last(vp, vs, ve, nr), Min3(TableDistance(f, nr), VmaDistance(f, nr), nr - 1));
  }

  /** The last page of the window, as a distance from the first. */
  lemma LastPage(f: Vmf, nr: nat, j: nat)
    requires Faulting(f) && PageCount(nr, j)
    ensures var vp, vs, ve := PageOf(f.address), PageOf(f.vma.start), PageOf(f.vma.end);
            && 0 < nr && 0 <= TableDistance(f, nr) < WORD && 0 <= VmaDistance(f, nr) < WORD
            && Last(vp, vs, ve, nr) == First(vp, vs, nr) + Min3(TableDistance(f, nr), VmaDistance(f, nr), nr - 1)
            && StartOffset(f, nr) == Offset(f.pgoff, First(vp, vs, nr), vp) < WORD
  {
    CountBounds(nr, j);
    hide Faulting, PageCount, PageOf, First, Last, Wrap, ToTableEnd, ToVmaEnd, RoundDown, VmaPages, Min3;
    hide StartOffset, TableDistance, VmaDistance, Offset;
    var vp, vs, ve := PageOf(f.address), PageOf(f.vma.start), PageOf(f.vma.end);
    assert vs <= vp < ve < PAGES by { InPagesIs(f); }
    FirstInTable(vp, vs, ve, nr, j);
    LastFrom(vp, vs, ve, nr);
    Distances(f, nr);
    OffsetIs(f.pgoff, First(vp, vs, nr), vp);
  }

  lemma WindowIs(f: Vmf, nr: nat)
    requires nr > 0
    ensures var vp, vs, ve := PageOf(f.address), PageOf(f.vma.start), PageOf(f.vma.end);
            Window(f, nr) == (Offset(f.pgoff, First(vp, vs, nr), vp), Offset(f.pgoff, Last(vp, vs, ve, nr), vp))
  {
  }

  lemma FirstInTable(vp: nat, vs: nat, ve: nat, nr: nat, j: nat)
    requires PageCount(nr, j) && vs <= vp < ve
    ensures nr > 0 && vs <= First(vp, vs, nr) <= vp && RoundDown(vp, PTRS_PER_PTE) <= First(vp, vs, nr)
  {
    CountBounds(nr, j);
    hide First, Last, PageCount, RoundDown;
    WindowIsSafe(vp, vs, ve, nr, j);
  }

  lemma LastFrom(vp: nat, vs: nat, ve: nat, nr: nat)
    requires nr > 0 && RoundDown(vp, PTRS_PER_PTE) <= First(vp, vs, nr) <= vp < ve
    ensures var lo := First(vp, vs, nr);
            && Last(vp, vs, ve, nr) == lo + Min3(ToTableEnd(lo), ToVmaEnd(lo, ve), nr - 1)
            && 0 <= ToTableEnd(lo) <= 511 && 0 <= ToVmaEnd(lo, ve) < ve
  {
    var lo := First(vp, vs, nr);
    SameTable(vp, lo);
    hide First;
  }

  lemma SameTable(vp: nat, lo: nat)
    requires RoundDown(vp, PTRS_PER_PTE) <= lo <= vp
    ensures lo - lo % PTRS_PER_PTE == RoundDown(vp, PTRS_PER_PTE)
  {
    DivUnique(lo, 512, vp / 512, lo - 512 * (vp / 512));
  }

  /** The original agrees with the other versions exactly when its comparison of
      wrapped offsets is meaningful. */
  lemma AgreeIff(f: Vmf, bytes: nat, j: nat)
    requires Faulting(f) && PageCount(bytes / PAGE_SIZE, j) && bytes < WORD
    ensures bytes >= PAGE_SIZE
    ensures Original(f, bytes).0 == Final(f, bytes).0
    ensures Original(f, bytes) == Final(f, bytes) <==> SameSide(f, bytes / PAGE_SIZE)
  {
    CountBounds(bytes / PAGE_SIZE, j);
    BothResults(f, bytes, bytes / PAGE_SIZE, j);
  }

  lemma BothResults(f: Vmf, bytes: nat, nr: nat, j: nat)
    requires Faulting(f) && nr == bytes / PAGE_SIZE && nr > 0 && PageCount(nr, j) && PAGE_SIZE <= bytes < WORD
    ensures Original(f, bytes).0 == Final(f, bytes).0
    ensures Original(f, bytes) == Final(f, bytes) <==> SameSide(f, nr)
  {
    hide Original, Final, Faulting, PageCount, StartOffset, TableDistance, VmaDistance, Wrap, Min3, NoneOrAll, SameSide, Window;
    OriginalIs(f, bytes, j);
    var orig, final, s := Original(f, bytes), Final(f, bytes), StartOffset(f, nr);
    var d1, d2 := TableDistance(f, nr), VmaDistance(f, nr);
    assert final == (s, Wrap(s + Min3(d1, d2, nr - 1))) && s < WORD && 0 <= d1 < WORD && 0 <= d2 < WORD by {
      FinalIsWindow(f, bytes, j);
      WindowFrom(f, nr, j);
    }
    CountBounds(nr, j);
    SameEnds(orig, final, s, d1, d2, nr - 1);
    SameSideIs(f, nr);
  }

  lemma SameSideIs(f: Vmf, nr: nat)
    requires nr > 0
    ensures SameSide(f, nr) <==> NoneOrAll(StartOffset(f, nr), TableDistance(f, nr), VmaDistance(f, nr), nr - 1)
  {
  }

  lemma SameEnds(orig: (nat, nat), final: (nat, nat), s: nat, d1: int, d2: int, d3: int)
    requires s < WORD && 0 <= d1 < WORD && 0 <= d2 < WORD && 0 <= d3 < WORD
    requires orig == (s, Min3(Wrap(s + d1), Wrap(s + d2), Wrap(s + d3)))
    requires final == (s, Wrap(s + Min3(d1, d2, d3)))
    ensures orig.0 == final.0 && (orig == final <==> NoneOrAll(s, d1, d2, d3))
  {
    hide Wrap, Min3, NoneOrAll;
    MinOfWrapped(s, d1, d2, d3);
  }

  /** In particular for every file offset a kernel can have. */
  lemma AllAgree(f: Vmf, bytes: nat, j: nat)
    requires Faulting(f) && PageCount(bytes / PAGE_SIZE, j) && bytes < WORD
    requires f.vma.pgoff + VmaPages(f.vma) + PTRS_PER_PTE <= WORD
    ensures bytes >= PAGE_SIZE
    ensures Original(f, bytes) == Take1(f, bytes) == Final(f, bytes) == Window(f, bytes / PAGE_SIZE)
  {
    hide Take1, Final, Original, Window, Pow2, Faulting, VmaPages, SameSide, PageCount;
    Take1IsWindow(f, bytes, j);
    FinalIsWindow(f, bytes, j);
    AgreeIff(f, bytes, j);
    SmallOffsets(f, bytes / PAGE_SIZE, j);
  }

  lemma SmallOffsets(f: Vmf, nr: nat, j: nat)
    requires Faulting(f) && PageCount(nr, j) && f.vma.pgoff + VmaPages(f.vma) + PTRS_PER_PTE <= WORD
    ensures nr > 0 && SameSide(f, nr)
  {
    CountBounds(nr, j);
    hide Faulting, VmaPages, First, Wrap, PageCount, ToTableEnd, ToVmaEnd, NoneOrAll, PageOf, RoundDown, SameSide, Offset;
    hide StartOffset, TableDistance, VmaDistance;
    InVmaPages(f);
    var vp, vs, ve := PageOf(f.address), PageOf(f.vma.start), PageOf(f.vma.end);
    FirstInTable(vp, vs, ve, nr, j);
    NothingWraps(f.vma.pgoff, f.pgoff, vp, vs, ve, First(vp, vs, nr), nr);
    Distances(f, nr);
    SameSideIs(f, nr);
  }

  lemma InVmaPages(f: Vmf)
    requires Faulting(f)
    ensures var vp, vs, ve := PageOf(f.address), PageOf(f.vma.start), PageOf(f.vma.end);
            && vs <= vp < ve && VmaPages(f.vma) == ve - vs
            && f.pgoff == Wrap(f.vma.pgoff + (vp - vs))
  {
    hide Faulting, VmaPages, PageOf, Wrap;
    InPagesIs(f);
  }

  lemma Distances(f: Vmf, nr: nat)
    requires nr > 0
    ensures var vp, vs, ve := PageOf(f.address), PageOf(f.vma.start), PageOf(f.vma.end);
            var lo := First(vp, vs, nr);
            && StartOffset(f, nr) == Offset(f.pgoff, lo, vp)
            && TableDistance(f, nr) == ToTableEnd(lo) && VmaDistance(f, nr) == ToVmaEnd(lo, ve)
  {
  }

  lemma NothingWraps(vmaPgoff: nat, pgoff: nat, vp: nat, vs: nat, ve: nat, lo: nat, nr: nat)
    requires vs <= lo <= vp < ve && vmaPgoff + (ve - vs) + PTRS_PER_PTE <= WORD && 1 <= nr <= 512
    requires pgoff == Wrap(vmaPgoff + (vp - vs))
    ensures NoneOrAll(Offset(pgoff, lo, vp), ToTableEnd(lo), ToVmaEnd(lo, ve), nr - 1)
  {
    hide Wrap;
    OffsetIs(pgoff, lo, vp);
    hide Offset;
    WrapAdd(vmaPgoff + (vp - vs), -(vp - lo));
    WrapSmall(vmaPgoff + (lo - vs));
    Remainder(lo, PTRS_PER_PTE);
  }

  /** With a file offset at the top of the 64-bit range the original differs. */
  lemma OriginalMayDiffer()
    ensures var f := Vmf(4096, Vma(4096, 8192, WORD - 1), WORD - 1);
            Faulting(f) && PageCount(2, 1) && Original(f, 8192) != Final(f, 8192)
  {
    var f := Vmf(4096, Vma(4096, 8192, WORD - 1), WORD - 1);
    assert Pow2(1) == 2;
    assert First(1, 1, 2) == 1;
    assert Wrap(f.pgoff - 0) == WORD - 1;
    AgreeIff(f, 8192, 1);
  }

  // ---- the test loop ----

  /** fls64: one more than the index of the highest set bit, 0 for 0. */
  function Fls(x: nat): nat {
    if x == 0 then 0 else 1 + Fls(x / 2)
  }

  function RoundDownPow2(n: nat): nat
    requires n > 0
  {
    Pow2(Fls(n) - 1)
  }

  lemma {:induction false} RoundDownIs(n: nat)
    requires n > 0
    ensures RoundDownPow2(n) <= n < 2 * RoundDownPow2(n)
  {
    assert Fls(0) == 0 && Pow2(0) == 1;
    if n > 1 {
      RoundDownIs(n / 2);
      assert Fls(n / 2) >= 1;
      assert RoundDownPow2(n) == 2 * RoundDownPow2(n / 2);
    } else {
      assert Fls(1) == 1 + Fls(0);
    }
  }

  /** The largest power of two below n, as a multiple of the page size. */
  lemma RoundedPages(n: nat)
    requires PAGE_SIZE <= n < PTRS_PER_PTE * PAGE_SIZE
    ensures RoundDownPow2(n) <= n
    ensures exists j: nat :: PageCount(RoundDownPow2(n) / PAGE_SIZE, j)
  {
    RoundDownIs(n);
    SmallPowers();
    var e := Fls(n) - 1;
    if e < 12 {
      Pow2Monotone(e + 1, 12);
    } else {
      Pow2Add(e - 12, 12);
      Pow2Add(9, 12);
      if e >= 21 { Pow2Monotone(21, e); }
      DivUnique(Pow2(e), PAGE_SIZE, Pow2(e - 12), 0);
      assert PageCount(RoundDownPow2(n) / PAGE_SIZE, e - 12);
    }
  }

  /** Where the number lands in [from, to). */
  ghost function Point(from: nat, to: nat, number: nat): (x: nat)
    requires from < to
    ensures from <= x < to
  {
    from + number % (to - from)
  }

  /** r is mult times x, aligned down. */
  ghost predicate Scaled(x: nat, align: nat, mult: nat, r: nat)
    requires align > 0
  {
    r == mult * x - (mult * x) % align
  }

  lemma ScaledIs(x: nat, to: nat, align: nat, mult: nat)
    requires x < to && mult * to < WORD && (align == 1 || align == PAGE_SIZE)
    ensures mult * x < WORD && Scaled(x, align, mult, AlignDown(mult * x, align))
  {
    MulMonotone(x, to, mult);
    assert mult * x == x * mult <= to * mult == mult * to;
    AlignDownTo(mult * x, align);
  }

  /** One CPU's slot: its random state and its fault. `rand` maps a state to the
      number returned by rand_r and the next state. */
  class Tester {
    const rand: nat -> (nat, nat)
    var seed: nat
    var fault: Vmf

    constructor (rand: nat -> (nat, nat), seed: nat)
      ensures this.rand == rand && this.seed == seed
    {
      this.rand, this.seed := rand, seed;
      fault := Vmf(0, Vma(0, 0, 0), 0);
    }

    /** A number in [from, to) times mult, aligned down. */
    method GetRandom(from: nat, to: nat, align: nat, mult: nat) returns (r: nat)
      requires from < to < WORD && 0 < align && mult * to < WORD && (align == 1 || align == PAGE_SIZE)
      modifies this`seed
      ensures seed == rand(old(seed)).1
      ensures Scaled(Point(from, to, rand(old(seed)).0), align, mult, r)
    {
      var (value, next) := rand(seed);
      seed := next;
      var delta := value % (to - from);
      var x := from + delta;
      ScaledIs(x, to, align, mult);
      hide Scaled, AlignDown;
      r := AlignDown(mult * x, align);
    }

    /** The random state after n numbers. */
    ghost function After(s: nat, n: nat): nat {
      if n == 0 then s else rand(After(s, n - 1)).1
    }

    /** The number drawn next. */
    ghost function Draw(s: nat, n: nat): nat {
      rand(After(s, n)).0
    }

    /** The start and the end of the VMA, of at most 99 pages. */
    method GenVma() returns (start: nat, end: nat)
      modifies this`seed
      ensures seed == After(old(seed), 2)
      ensures start == PAGE_SIZE * Point(0x7_0000_0000, 0x8_0000_0000, Draw(old(seed), 0))
      ensures end == start + PAGE_SIZE * Point(1, 100, Draw(old(seed), 1))
      ensures start % PAGE_SIZE == 0 && end % PAGE_SIZE == 0 && start < end <= start + 99 * PAGE_SIZE && end < WORD
    {
      Afterwards(seed);
      hide After, Draw, Point, Scaled;
      start := GetRandom(0x7_0000_0000, 0x8_0000_0000, 1, PAGE_SIZE);
      var len := GetRandom(1, 100, 1, PAGE_SIZE);
      end := start + len;
      PageMultiples(Point(0x7_0000_0000, 0x8_0000_0000, Draw(old(seed), 0)), Point(1, 100, Draw(old(seed), 1)), start, len);
    }

    /** gen_vmf: the fault that four random numbers give; the four CHECK tests are
        all false. */
    method GenVmf() returns (check: bool)
      modifies this`seed, this`fault
      ensures !check
      ensures Faulting(fault) && fault.address % PAGE_SIZE == 0 && fault.vma.end < WORD
      ensures fault.vma.pgoff < 100 && VmaPages(fault.vma) < 100
      ensures fault.vma.start == PAGE_SIZE * Point(0x7_0000_0000, 0x8_0000_0000, Draw(old(seed), 0))
      ensures fault.vma.end == fault.vma.start + PAGE_SIZE * Point(1, 100, Draw(old(seed), 1))
      ensures var x := Point(fault.vma.start, fault.vma.end, Draw(old(seed), 2)); fault.address == x - x % PAGE_SIZE
      ensures fault.vma.pgoff == Point(0, 100, Draw(old(seed), 3))
      ensures fault.pgoff == fault.vma.pgoff + (fault.address - fault.vma.start) / PAGE_SIZE
      ensures seed == After(old(seed), 4)
    {
      Afterwards(seed);
      hide After, Draw, Point, Scaled, Faulting, VmaPages, Wrap;
      var start, end := GenVma();
      var address := GetRandom(start, end, PAGE_SIZE, 1);
      AddressInVma(start, end, Point(start, end, Draw(old(seed), 2)), address);
      var vmPgoff := GetRandom(0, 100, 1, 1);
      Unscaled(Point(0, 100, Draw(old(seed), 3)), vmPgoff);
      var pgoff := vmPgoff + (address - start) / PAGE_SIZE;
      fault := Vmf(address, Vma(start, end, vmPgoff), pgoff);
      GeneratedFaults(start, end, address, vmPgoff);
      check := fault.vma.start >= fault.vma.end || fault.address < fault.vma.start
            || fault.address >= fault.vma.end
            || fault.pgoff != (fault.address - fault.vma.start) / PAGE_SIZE + fault.vma.pgoff;
    }

    lemma Afterwards(s: nat)
      ensures rand(s) == (Draw(s, 0), After(s, 1)) && rand(After(s, 1)) == (Draw(s, 1), After(s, 2))
      ensures rand(After(s, 2)) == (Draw(s, 2), After(s, 3)) && rand(After(s, 3)) == (Draw(s, 3), After(s, 4))
      ensures rand(After(s, 4)) == (Draw(s, 4), After(s, 5))
    {
      assert After(s, 0) == s;
    }

    /** do_test: it compares the two results for a fault and a power-of-two page
        count; for every random stream neither a CHECK exit nor a MISMATCH. */
    method DoTest() returns (check: bool, mismatch: bool, bytes: nat)
      modifies this`seed, this`fault
      ensures Faulting(fault) && PAGE_SIZE <= bytes < WORD && exists j: nat :: PageCount(bytes / PAGE_SIZE, j)
      ensures var n := Point(PAGE_SIZE, PTRS_PER_PTE * PAGE_SIZE, Draw(old(seed), 4));
              bytes <= n < 2 * bytes
      ensures seed == After(old(seed), 5)
      ensures mismatch <==> Original(fault, bytes) != Final(fault, bytes)
      ensures !check && !mismatch
    {
      hide Original, Final, Window, RoundDownPow2, Faulting, VmaPages, Pow2, PageCount;
      Afterwards(seed);
      check := GenVmf();
      var n := GetRandom(PAGE_SIZE, PTRS_PER_PTE * PAGE_SIZE, 1, 1);
      hide Point;
      Unscaled(Point(PAGE_SIZE, PTRS_PER_PTE * PAGE_SIZE, Draw(old(seed), 4)), n);
      RoundedPages(n);
      RoundDownIs(n);
      bytes := RoundDownPow2(n);
      ghost var j: nat :| PageCount(bytes / PAGE_SIZE, j);
      AllAgree(fault, bytes, j);
      var orig := Original(fault, bytes);
      var curr := Final(fault, bytes);
      mismatch := orig != curr;
    }
  }

  lemma AlignDownTo(x: nat, align: nat)
    requires x < WORD && (align == 1 || align == PAGE_SIZE)
    ensures AlignDown(x, align) == x - x % align
  {
    SmallPowers();
    assert Pow2(0) == 1;
    hide AlignDown, Pow2;
    AlignDownPow2(x, if align == 1 then 0 else 12);
  }

  lemma GeneratedFaults(start: nat, end: nat, address: nat, vmPgoff: nat)
    requires start % PAGE_SIZE == 0 && end % PAGE_SIZE == 0 && address % PAGE_SIZE == 0
    requires end <= start + 99 * PAGE_SIZE && start <= address < end < WORD && vmPgoff < 100
    ensures var vma := Vma(start, end, vmPgoff);
            Faulting(Vmf(address, vma, vmPgoff + (address - start) / PAGE_SIZE)) && VmaPages(vma) < 100
  {
    WrapSmall(vmPgoff + (address - start) / PAGE_SIZE);
    WrapSmall(end - start);
  }

  lemma Unscaled(x: nat, r: nat)
    requires Scaled(x, 1, 1, r)
    ensures r == x
  {
  }

  lemma PageMultiples(x: nat, y: nat, start: nat, len: nat)
    requires 0x7_0000_0000 <= x < 0x8_0000_0000 && Scaled(x, 1, PAGE_SIZE, start)
    requires 1 <= y < 100 && Scaled(y, 1, PAGE_SIZE, len)
    ensures start == PAGE_SIZE * x && len == PAGE_SIZE * y
    ensures start % PAGE_SIZE == 0 && (start + len) % PAGE_SIZE == 0
    ensures start < start + len < WORD && len <= 99 * PAGE_SIZE && len % PAGE_SIZE == 0
  {
    DivUnique(PAGE_SIZE * x, PAGE_SIZE, x, 0);
    DivUnique(PAGE_SIZE * (x + y), PAGE_SIZE, x + y, 0);
    DivUnique(PAGE_SIZE * y, PAGE_SIZE, y, 0);
  }

  lemma AddressInVma(start: nat, end: nat, x: nat, address: nat)
    requires start % PAGE_SIZE == 0 && end % PAGE_SIZE == 0
    requires start <= x < end && Scaled(x, PAGE_SIZE, 1, address)
    ensures start <= address < end && address % PAGE_SIZE == 0 && address == x - x % PAGE_SIZE
  {
    DivUnique(address, PAGE_SIZE, x / PAGE_SIZE, 0);
  }
}
