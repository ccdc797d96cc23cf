/** The abbreviated page tables of pagestat/pagestat.c: the printer with its
    persistent run state, what it prints for a whole table, and a reader that
    recovers from the lines what they say about every page. */
module Pagestat {
  import opened Options
  import opened Sizes
  import opened Bits

  type Entry = e: nat | e < 0x1_0000_0000_0000_0000

  const INVALID: Entry := 0xffff_ffff_ffff_ffff
  const PFN_BITS: nat := 55
  const PFNS: nat := 0x80_0000_0000_0000
  const PFN_MASK: Entry := 0x7f_ffff_ffff_ffff
  const SWAPPED: nat := 62
  const PRESENT: nat := 63

  // ---- pagemap entries ----

  predicate CheckBit(val: nat, bit: nat) {
    And(val, Pow2(bit)) == Pow2(bit)
  }

  predicate HasPfn(val: nat) {
    !CheckBit(val, SWAPPED) && CheckBit(val, PRESENT)
  }

  function GetPfn(val: nat): nat {
    if HasPfn(val) then And(val, PFN_MASK) else INVALID
  }

  function FlagsOf(val: nat): nat {
    And(val, Not(PFN_MASK))
  }

  lemma {:induction false} AndPow2(x: nat, i: nat)
    ensures And(x, Pow2(i)) == if Bit(x, i) then Pow2(i) else 0
  {
    if i == 0 {
      assert Pow2(0) == 1;
    } else {
      AndPow2(x / 2, i - 1);
      assert Pow2(i) / 2 == Pow2(i - 1) && Pow2(i) % 2 == 0;
      if x == 0 { BitZero(i); }
    }
  }

  lemma CheckBitIs(val: nat, bit: nat)
    ensures CheckBit(val, bit) <==> Bit(val, bit)
  {
    AndPow2(val, bit);
  }

  lemma PfnPow2()
    ensures Pow2(PFN_BITS) == PFNS
  {
    HalfWordIsPow2();
    assert Pow2(12) == 2 * Pow2(11);
    hide Pow2;
    Pow2Add(11, 12);
    Pow2Add(23, 32);
  }

  /** The flag bits and the frame number are the two parts of the entry. */
  lemma FieldsAre(val: Entry)
    ensures And(val, PFN_MASK) == val % PFNS
    ensures FlagsOf(val) == val - val % PFNS && FlagsOf(val) < WORD && FlagsOf(val) % PFNS == 0
  {
    hide And, Pow2;
    PfnPow2();
    AndLow(val, PFN_BITS);
    AlignIs(val, PFN_BITS);
    Quotient(val, PFNS);
  }

  /** The fields in arithmetic: a frame number in the low 55 bits of an entry that
      is present and not swapped. */
  lemma FieldsRead(val: Entry)
    ensures HasPfn(val) <==> Bit(val, 63) && !Bit(val, 62)
    ensures GetPfn(val) == if HasPfn(val) then val % 0x80_0000_0000_0000 else WORD - 1
    ensures FlagsOf(val) == val - val % 0x80_0000_0000_0000
  {
    FieldsAre(val);
    hide And, Pow2, Bit;
    CheckBitIs(val, SWAPPED);
    CheckBitIs(val, PRESENT);
  }

  lemma HasPfnOfFlags(val: Entry)
    ensures HasPfn(FlagsOf(val)) == HasPfn(val)
  {
    PfnPow2();
    hide And, Pow2, Bit;
    assert Neg(Pow2(PFN_BITS)) == Not(PFN_MASK);
    MaskHighBitsIs(val, PFN_BITS);
    CheckBitIs(val, SWAPPED);
    CheckBitIs(val, PRESENT);
    CheckBitIs(FlagsOf(val), SWAPPED);
    CheckBitIs(FlagsOf(val), PRESENT);
  }

  lemma {:induction false} OrSplit(x: nat, k: nat, high: nat, low: nat)
    requires low == x % Pow2(k) && high + low == x
    ensures Or(high, low) == x
  {
    if k > 0 {
      var p := Pow2(k - 1);
      ModHalve(x, p);
      Quotient(x / 2, p);
      assert low == 2 * ((x / 2) % p) + x % 2;
      assert low / 2 == (x / 2) % p && low % 2 == x % 2;
      assert high % 2 == 0 && high / 2 + low / 2 == x / 2;
      OrSplit(x / 2, k - 1, high / 2, low / 2);
    }
  }

  /** The word for the last page of a two-page run. */
  function Rebuilt(val: nat): nat {
    if GetPfn(val) == INVALID then FlagsOf(val) else Or(FlagsOf(val), GetPfn(val))
  }

  /** It is the entry itself when that has a frame number; otherwise the low
      bits are lost, so it is the entry exactly when they were clear. */
  lemma RebuiltIs(val: Entry)
    ensures HasPfn(val) ==> Rebuilt(val) == val
    ensures !HasPfn(val) ==> (Rebuilt(val) == val <==> val % PFNS == 0)
    ensures FlagsOf(Rebuilt(val)) == FlagsOf(val)
  {
    FieldsAre(val);
    PfnPow2();
    OrSplit(val, PFN_BITS, FlagsOf(val), val % PFNS);
    FieldsAre(FlagsOf(val));
  }

  // ---- runs ----

  /** `new_val` in print_mapping. */
  predicate NewVal(map': nat, pfn: nat, val: nat) {
    FlagsOf(val) != map' || (GetPfn(val) != pfn && GetPfn(val) != Wrap(pfn + 1))
  }

  /** Entries that count as repetitions: equal but for a frame number that stays
      or goes up by one; without frame numbers, equal flag bits. */
  ghost predicate Repeats(a: nat, b: nat) {
    FlagsOf(a) == FlagsOf(b) && (HasPfn(a) ==> b == a || b == a + 1)
  }

  lemma NewValIs(a: Entry, b: Entry)
    ensures NewVal(FlagsOf(a), GetPfn(a), b) <==> !Repeats(a, b)
  {
    FieldsAre(a);
    FieldsAre(b);
    HasPfnOfFlags(a);
    HasPfnOfFlags(b);
    hide FlagsOf, HasPfn, And;
    assert And(a, PFN_MASK) < PFNS;
    WrapSmall(And(a, PFN_MASK) + 1);
  }

  /** Nothing repeats the reset state. */
  lemma NothingSeen(val: Entry, pfn: nat)
    ensures NewVal(INVALID, pfn, val)
  {
    FieldsAre(val);
  }

  predicate Starts(maps: seq<Entry>, i: nat)
    requires i < |maps|
  {
    i == 0 || NewVal(FlagsOf(maps[i - 1]), GetPfn(maps[i - 1]), maps[i])
  }

  /** Where the run that ends before page i starts. */
  function RunStart(maps: seq<Entry>, i: nat): (s: nat)
    requires 0 < i <= |maps|
    ensures s < i && Starts(maps, s)
    ensures forall k :: s < k < i ==> !Starts(maps, k)
  {
    if Starts(maps, i - 1) then i - 1 else RunStart(maps, i - 1)
  }

  lemma {:induction false} RunFlags(maps: seq<Entry>, s: nat, k: nat)
    requires s <= k < |maps| && forall j :: s < j <= k ==> !Starts(maps, j)
    ensures FlagsOf(maps[k]) == FlagsOf(maps[s])
  {
    hide FlagsOf;
    if s < k {
      RunFlags(maps, s, k - 1);
      assert !Starts(maps, k);
    }
  }

  // ---- lines ----

  datatype Line =
    | Title(start: nat)
    | Mapping(addr: nat, index: nat, val: nat)
    | More(last: nat, repetitions: nat)
    | Separator

  function AddrOf(start: nat, i: int): nat {
    Wrap(start + i * PAGE_SIZE)
  }

  /** print_abbrev in a given run state. */
  function Abbrev(map': nat, pfn: nat, addr: nat, index: nat, count: nat): seq<Line> {
    if map' == INVALID then []
    else if count > 2 then [More(addr, count - 1)]
    else if count == 2 then [Mapping(addr, index, if pfn == INVALID then map' else Or(map', pfn))]
    else []
  }

  /** What ends the run before page i. */
  function Closing(maps: seq<Entry>, start: nat, i: nat): seq<Line>
    requires i <= |maps|
  {
    if i == 0 then []
    else
      var length := i - RunStart(maps, i);
      if length > 2 then [More(AddrOf(start, i - 1), length - 1)]
      else if length == 2 then [Mapping(AddrOf(start, i - 1), i - 1, Rebuilt(maps[i - 1]))]
      else []
  }

  /** The lines of the first i pages, the last run still open. */
  function Printed(maps: seq<Entry>, start: nat, i: nat): seq<Line>
    requires i <= |maps|
  {
    if i == 0 then []
    else if Starts(maps, i - 1) then
      Printed(maps, start, i - 1) + Closing(maps, start, i - 1) + [Mapping(AddrOf(start, i - 1), i - 1, maps[i - 1])]
    else Printed(maps, start, i - 1)
  }

  function Table(maps: seq<Entry>, start: nat): seq<Line> {
    Printed(maps, start, |maps|) + Closing(maps, start, |maps|)
  }

  // ---- reading the lines back ----

  /** What the lines say about one page. */
  datatype Page = Page(index: nat, addr: nat, flags: nat, shown: Option<nat>)

  ghost function Repetition(above: Page, last: nat, count: nat, k: nat): Page {
    Page(above.index + 1 + k, AddrOf(last, k + 1 - count), above.flags, None)
  }

  ghost function ReadLine(r: seq<Page>, line: Line): seq<Page> {
    match line
    case Mapping(addr, index, val) => r + [Page(index, addr, FlagsOf(val), Some(val))]
    case More(last, count) =>
      if r == [] then r else r + seq(count, k requires 0 <= k < count => Repetition(r[|r| - 1], last, count, k))
    case Title(_) => r
    case Separator => r
  }

  ghost function Read(lines: seq<Line>): seq<Page> {
    if lines == [] then [] else ReadLine(Read(lines[..|lines| - 1]), lines[|lines| - 1])
  }

  lemma {:induction false} ReadSnoc(lines: seq<Line>, line: Line)
    ensures Read(lines + [line]) == ReadLine(Read(lines), line)
  {
    hide ReadLine;
    assert (lines + [line])[..|lines|] == lines;
  }

  /** The first page of a run, and the second one of a run of two. */
  ghost predicate ShownAt(maps: seq<Entry>, i: nat)
    requires i < |maps|
  {
    Starts(maps, i) || (Starts(maps, i - 1) && (i + 1 == |maps| || Starts(maps, i + 1)))
  }

  ghost predicate Told(p: Page, maps: seq<Entry>, start: nat, i: nat)
    requires i < |maps|
  {
    && p.index == i && p.addr == AddrOf(start, i) && p.flags == FlagsOf(maps[i])
    && (p.shown.Some? <==> ShownAt(maps, i))
    && (Starts(maps, i) ==> p.shown == Some(maps[i]))
    && (p.shown.Some? && HasPfn(maps[i]) ==> p.shown.value == maps[i])
    && (p.shown.Some? && !HasPfn(maps[i]) ==> p.shown.value == maps[i] || p.shown.value == FlagsOf(maps[i]))
    && (p.shown.None? ==> i > 0 && Repeats(maps[i - 1], maps[i]))
  }

  ghost predicate AllTold(r: seq<Page>, maps: seq<Entry>, start: nat, n: nat)
    requires n <= |maps|
  {
    |r| == n && forall i :: 0 <= i < n ==> Told(r[i], maps, start, i)
  }

  lemma AddrBack(start: nat, i: int, j: int)
    ensures AddrOf(AddrOf(start, i), j) == AddrOf(start, i + j)
  {
    WrapAdd(start + i * PAGE_SIZE, j * PAGE_SIZE);
  }

  /** Inside a run of more than two pages only the first is shown. */
  lemma {:induction false} NotShown(maps: seq<Entry>, s: nat, n: nat, i: nat)
    requires s + 2 < n <= |maps| && s < i < n && forall j :: s < j < n ==> !Starts(maps, j)
    ensures !Starts(maps, i) && !ShownAt(maps, i)
  {
    hide NewVal, FlagsOf, HasPfn;
    if i == s + 1 { assert !Starts(maps, i + 1); } else { assert !Starts(maps, i - 1); }
  }

  lemma {:induction false} RepetitionTold(above: Page, maps: seq<Entry>, start: nat, s: nat, n: nat, k: nat)
    requires s + 2 < n <= |maps| && k < n - 1 - s && Told(above, maps, start, s)
    requires forall j :: s < j < n ==> !Starts(maps, j)
    ensures Told(Repetition(above, AddrOf(start, n - 1), n - 1 - s, k), maps, start, s + 1 + k)
  {
    var i := s + 1 + k;
    hide AddrOf, FlagsOf, HasPfn, NewVal, Repeats, ShownAt;
    NotShown(maps, s, n, i);
    AddrBack(start, n - 1, k + 1 - (n - 1 - s));
    RunFlags(maps, s, i);
    NewValIs(maps[i - 1], maps[i]);
  }

  lemma {:induction false} MoreTold(r: seq<Page>, maps: seq<Entry>, start: nat, s: nat, n: nat)
    requires s + 2 < n <= |maps| && AllTold(r, maps, start, s + 1)
    requires forall j :: s < j < n ==> !Starts(maps, j)
    ensures AllTold(ReadLine(r, More(AddrOf(start, n - 1), n - 1 - s)), maps, start, n)
  {
    hide Told, Starts, AddrOf;
    var r' := ReadLine(r, More(AddrOf(start, n - 1), n - 1 - s));
    forall i | 0 <= i < n ensures Told(r'[i], maps, start, i) {
      if i <= s {
        assert r'[i] == r[i];
      } else {
        RepetitionTold(r[s], maps, start, s, n, i - s - 1);
      }
    }
  }

  lemma {:induction false} SecondTold(r: seq<Page>, maps: seq<Entry>, start: nat, n: nat)
    requires n < |maps| && AllTold(r, maps, start, n) && n > 0 && !Starts(maps, n)
    requires Starts(maps, n - 1) && (n + 1 == |maps| || Starts(maps, n + 1))
    ensures AllTold(ReadLine(r, Mapping(AddrOf(start, n), n, Rebuilt(maps[n]))), maps, start, n + 1)
  {
    hide Starts, AddrOf, FlagsOf, HasPfn, Rebuilt;
    RebuiltIs(maps[n]);
    RebuiltOr(maps[n]);
  }

  lemma RebuiltOr(val: Entry)
    ensures !HasPfn(val) ==> Rebuilt(val) == FlagsOf(val)
  {
  }

  lemma {:induction false} FirstTold(r: seq<Page>, maps: seq<Entry>, start: nat, n: nat)
    requires n < |maps| && AllTold(r, maps, start, n) && Starts(maps, n)
    ensures AllTold(ReadLine(r, Mapping(AddrOf(start, n), n, maps[n])), maps, start, n + 1)
  {
    hide Starts, AddrOf, FlagsOf, HasPfn;
  }

  /** Closing a run accounts for the rest of it. */
  lemma {:induction false} ClosingTold(lines: seq<Line>, maps: seq<Entry>, start: nat, n: nat)
    requires 0 < n <= |maps| && AllTold(Read(lines), maps, start, RunStart(maps, n) + 1)
    requires n == |maps| || Starts(maps, n)
    ensures AllTold(Read(lines + Closing(maps, start, n)), maps, start, n)
  {
    hide Starts, AddrOf, Read, ReadLine, AllTold;
    var s := RunStart(maps, n);
    if n - s > 2 {
      ReadSnoc(lines, More(AddrOf(start, n - 1), n - s - 1));
      MoreTold(Read(lines), maps, start, s, n);
    } else if n - s == 2 {
      ReadSnoc(lines, Mapping(AddrOf(start, n - 1), n - 1, Rebuilt(maps[n - 1])));
      SecondTold(Read(lines), maps, start, n - 1);
    } else {
      assert lines + [] == lines;
    }
  }

  lemma {:induction false} PrintedTold(maps: seq<Entry>, start: nat, n: nat)
    requires 0 < n <= |maps|
    ensures AllTold(Read(Printed(maps, start, n)), maps, start, RunStart(maps, n) + 1)
    decreases n, 0
  {
    hide Starts, AddrOf, ReadLine, Closing;
    if Starts(maps, n - 1) {
      var before := Printed(maps, start, n - 1) + Closing(maps, start, n - 1);
      TableTold(maps, start, n - 1);
      ReadSnoc(before, Mapping(AddrOf(start, n - 1), n - 1, maps[n - 1]));
      FirstTold(Read(before), maps, start, n - 1);
    } else {
      StartsFirst(maps);
      PrintedTold(maps, start, n - 1);
    }
  }

  lemma StartsFirst(maps: seq<Entry>)
    requires maps != []
    ensures Starts(maps, 0)
  {
  }

  lemma {:induction false} TableTold(maps: seq<Entry>, start: nat, n: nat)
    requires n <= |maps| && (n == |maps| || Starts(maps, n))
    ensures AllTold(Read(Printed(maps, start, n) + Closing(maps, start, n)), maps, start, n)
    decreases n, 1
  {
    if n > 0 {
      hide Starts, AddrOf, ReadLine, Closing, Read, AllTold;
      PrintedTold(maps, start, n);
      ClosingTold(Printed(maps, start, n), maps, start, n);
    }
  }

  /** The lines of a table account for every page exactly once, in order, with
      its address and flag bits; the pages whose entries are shown are the first of
      each run and the second of a run of two, with those entries, and a page that
      is not shown repeats the page before it. */
  lemma {:induction false} TableReadsBack(maps: seq<Entry>, start: nat)
    ensures AllTold(Read(Table(maps, start)), maps, start, |maps|)
  {
    hide Starts, AddrOf, ReadLine, Closing, Read, AllTold, Printed;
    TableTold(maps, start, |maps|);
  }

  // ---- the printer ----

  /** struct pagestat, as far as printing uses it. */
  datatype Mapped = Mapped(ignored: bool, vmaStart: nat, vmSize: nat, pagemaps: seq<Entry>)

  function CountVirtPages(ps: Mapped): nat {
    Wrap(ps.vmSize * 1024) / PAGE_SIZE
  }

  /** Four kilobytes to a page. */
  lemma VirtPagesAre(ps: Mapped)
    requires ps.vmSize * 1024 < WORD
    ensures CountVirtPages(ps) == ps.vmSize / 4
  {
    WrapSmall(ps.vmSize * 1024);
    var q, r := ps.vmSize / 4, ps.vmSize % 4;
    DivUnique(ps.vmSize * 1024, PAGE_SIZE, q, r * 1024);
  }

  function Lines(ps: Mapped): seq<Line> {
    [Title(ps.vmaStart)] + Table(ps.pagemaps, ps.vmaStart)
  }

  function AllLines(pss: seq<Option<Mapped>>): seq<Line> {
    if pss == [] || pss[0].None? then []
    else (if pss[0].value.ignored then [] else Lines(pss[0].value) + [Separator]) + AllLines(pss[1..])
  }

  // ---- reading the whole output back ----

  datatype Group = Group(start: nat, pages: seq<Page>)

  datatype Output = Output(groups: seq<Group>, current: Option<Group>)

  /** A title begins a group, a separator ends it. */
  ghost function NextLine(o: Output, line: Line): Output {
    match line
    case Title(start) => Output(o.groups, Some(Group(start, [])))
    case Separator => if o.current.None? then o else Output(o.groups + [o.current.value], None)
    case _ =>
      if o.current.None? then o
      else var g := o.current.value; Output(o.groups, Some(Group(g.start, ReadLine(g.pages, line))))
  }

  ghost function ReadAll(lines: seq<Line>): Output {
    if lines == [] then Output([], None) else NextLine(ReadAll(lines[..|lines| - 1]), lines[|lines| - 1])
  }

  lemma {:induction false} ReadAllSnoc(lines: seq<Line>, line: Line)
    ensures ReadAll(lines + [line]) == NextLine(ReadAll(lines), line)
  {
    hide NextLine;
    assert (lines + [line])[..|lines|] == lines;
  }

  ghost predicate Inside(lines: seq<Line>) {
    forall k :: 0 <= k < |lines| ==> lines[k].Mapping? || lines[k].More?
  }

  lemma {:induction false} PrintedInside(maps: seq<Entry>, start: nat, i: nat)
    requires i <= |maps|
    ensures Inside(Printed(maps, start, i)) && Inside(Closing(maps, start, i))
  {
    hide Starts, AddrOf, Rebuilt;
    if i > 0 { PrintedInside(maps, start, i - 1); }
  }

  lemma {:induction false} TableInside(maps: seq<Entry>, start: nat)
    ensures Inside(Table(maps, start))
  {
    PrintedInside(maps, start, |maps|);
    hide Printed, Closing;
  }

  /** Lines after a title belong to its group. */
  lemma {:induction false} GroupGrows(before: seq<Line>, start: nat, lines: seq<Line>)
    requires Inside(lines)
    ensures ReadAll(before + [Title(start)] + lines) == Output(ReadAll(before).groups, Some(Group(start, Read(lines))))
  {
    hide ReadAll, Read, ReadLine;
    ReadAllSnoc(before, Title(start));
    if lines == [] {
      assert before + [Title(start)] + lines == before + [Title(start)];
      ReadNothing();
    } else {
      var n := |lines| - 1;
      GroupGrows(before, start, lines[..n]);
      assert before + [Title(start)] + lines == before + [Title(start)] + lines[..n] + [lines[n]];
      assert lines == lines[..n] + [lines[n]];
      ReadAllSnoc(before + [Title(start)] + lines[..n], lines[n]);
      ReadSnoc(lines[..n], lines[n]);
    }
  }

  lemma {:induction false} ReadNothing()
    ensures Read([]) == []
  {
  }

  /** The mappings to be printed: those before the first missing one, without the
      ignored ones. */
  ghost function Shown(pss: seq<Option<Mapped>>): seq<Mapped> {
    if pss == [] || pss[0].None? then []
    else (if pss[0].value.ignored then [] else [pss[0].value]) + Shown(pss[1..])
  }

  ghost predicate GroupTold(g: Group, ps: Mapped) {
    g.start == ps.vmaStart && AllTold(g.pages, ps.pagemaps, ps.vmaStart, |ps.pagemaps|)
  }

  lemma {:induction false} LinesRead(before: seq<Line>, ps: Mapped) returns (g: Group)
    ensures GroupTold(g, ps)
    ensures ReadAll(before + (Lines(ps) + [Separator])) == Output(ReadAll(before).groups + [g], None)
  {
    hide ReadAll, AllTold, Read, Table, Inside;
    var table := Table(ps.pagemaps, ps.vmaStart);
    TableReadsBack(ps.pagemaps, ps.vmaStart);
    TableInside(ps.pagemaps, ps.vmaStart);
    GroupGrows(before, ps.vmaStart, table);
    ReadAllSnoc(before + [Title(ps.vmaStart)] + table, Separator);
    assert before + ([Title(ps.vmaStart)] + table + [Separator]) == before + [Title(ps.vmaStart)] + table + [Separator];
    g := Group(ps.vmaStart, Read(table));
  }

  ghost predicate GroupsTold(gs: seq<Group>, shown: seq<Mapped>) {
    |gs| == |shown| && forall k :: 0 <= k < |gs| ==> GroupTold(gs[k], shown[k])
  }

  /** Whatever is printed before, the output of pagestat_print_all reads back as one
      group for each mapping to be printed, in order: its start and its pages. */
  lemma {:induction false} AllReadsBack(before: seq<Line>, pss: seq<Option<Mapped>>) returns (gs: seq<Group>)
    ensures GroupsTold(gs, Shown(pss))
    ensures ReadAll(before + AllLines(pss)).groups == ReadAll(before).groups + gs
    decreases pss
  {
    hide ReadAll, GroupTold, Lines;
    if pss == [] || pss[0].None? {
      gs := [];
      assert before + [] == before;
    } else if pss[0].value.ignored {
      gs := AllReadsBack(before, pss[1..]);
      assert [] + AllLines(pss[1..]) == AllLines(pss[1..]) && [] + Shown(pss[1..]) == Shown(pss[1..]);
    } else {
      var ps := pss[0].value;
      var mine := Lines(ps) + [Separator];
      var g := LinesRead(before, ps);
      var rest := AllReadsBack(before + mine, pss[1..]);
      gs := [g] + rest;
      assert before + (mine + AllLines(pss[1..])) == before + mine + AllLines(pss[1..]);
      assert ReadAll(before).groups + [g] + rest == ReadAll(before).groups + ([g] + rest);
    }
  }

  class Printer {
    var lastMap: nat
    var lastPfn: nat
    var lastAddr: nat
    var lastIndex: nat
    var count: nat
    /** What has been printed. */
    var out: seq<Line>

    ghost predicate Reset()
      reads this
    {
      lastMap == INVALID && lastPfn == 0 && lastIndex == 0 && count == 0
    }

    ghost predicate After(maps: seq<Entry>, start: nat, i: nat)
      requires i <= |maps|
      reads this
    {
      if i == 0 then Reset()
      else
        && lastMap == FlagsOf(maps[i - 1]) && lastPfn == GetPfn(maps[i - 1])
        && lastAddr == AddrOf(start, i - 1) && lastIndex == i - 1
        && count == i - RunStart(maps, i)
    }

    constructor ()
      ensures Reset() && out == []
    {
      lastMap, lastPfn, lastAddr, lastIndex, count := INVALID, 0, 0, 0, 0;
      out := [];
    }

    method PrintAbbrev()
      modifies this`out
      ensures out == old(out) + Abbrev(lastMap, lastPfn, lastAddr, lastIndex, count)
    {
      if lastMap == INVALID {
        return;
      }
      if count > 2 {
        out := out + [More(lastAddr, count - 1)];
      } else if count == 2 {
        out := out + [Mapping(lastAddr, lastIndex, if lastPfn == INVALID then lastMap else Or(lastMap, lastPfn))];
      }
    }

    method PrintMapping(addr: nat, val: nat, index: nat, abbrev: bool)
      modifies this
      ensures lastMap == FlagsOf(val) && lastPfn == GetPfn(val) && lastAddr == addr && lastIndex == index
      ensures var fresh' := NewVal(old(lastMap), old(lastPfn), val);
              && count == (if abbrev && fresh' then 1 else old(count) + 1)
              && out == old(out)
                 + (if abbrev && fresh' then Abbrev(old(lastMap), old(lastPfn), old(lastAddr), old(lastIndex), old(count)) else [])
                 + (if abbrev && !fresh' then [] else [Mapping(addr, index, val)])
    {
      var pfn := GetPfn(val);
      var newVal := NewVal(lastMap, lastPfn, val);
      if abbrev && newVal {
        PrintAbbrev();
        count := 0;
      }
      lastMap := FlagsOf(val);
      lastPfn := pfn;
      lastAddr := addr;
      lastIndex := index;
      count := count + 1;
      if abbrev && !newVal {
        return;
      }
      out := out + [Mapping(addr, index, val)];
    }

    method Terminate()
      modifies this
      ensures Reset()
      ensures out == old(out) + Abbrev(old(lastMap), old(lastPfn), old(lastAddr), old(lastIndex), old(count))
    {
      PrintAbbrev();
      lastMap, lastIndex, lastPfn, count := INVALID, 0, 0, 0;
    }

    lemma {:induction false} AbbrevIsClosing(maps: seq<Entry>, start: nat, i: nat)
      requires i <= |maps| && After(maps, start, i)
      ensures Abbrev(lastMap, lastPfn, lastAddr, lastIndex, count) == Closing(maps, start, i)
    {
      if i > 0 {
        FieldsAre(maps[i - 1]);
      }
    }

    /** One step of the loop, from the state after i pages. */
    method PrintPage(ps: Mapped, addr: nat, i: nat, ghost base: seq<Line>)
      requires i < |ps.pagemaps| && After(ps.pagemaps, ps.vmaStart, i)
      requires addr == AddrOf(ps.vmaStart, i) && out == base + Printed(ps.pagemaps, ps.vmaStart, i)
      modifies this
      ensures After(ps.pagemaps, ps.vmaStart, i + 1)
      ensures out == base + Printed(ps.pagemaps, ps.vmaStart, i + 1)
    {
      hide AddrOf, FlagsOf, GetPfn, Abbrev, Closing;
      ghost var maps, start := ps.pagemaps, ps.vmaStart;
      AbbrevIsClosing(maps, start, i);
      NothingSeen(maps[i], 0);
      PrintMapping(addr, ps.pagemaps[i], i, true);
      assert base + Printed(maps, start, i) + Closing(maps, start, i) + [Mapping(AddrOf(start, i), i, maps[i])]
          == base + (Printed(maps, start, i) + Closing(maps, start, i) + [Mapping(AddrOf(start, i), i, maps[i])]);
    }

    /** pagestat_print, from the reset state: the table of the mapping, and the
        reset state again. */
    method Print(ps: Option<Mapped>) returns (ok: bool)
      requires Reset() && (ps.Some? ==> |ps.value.pagemaps| == CountVirtPages(ps.value))
      modifies this
      ensures Reset() && ok == (ps.Some? && !ps.value.ignored)
      ensures out == old(out) + if ok then Lines(ps.value) else []
    {
      if ps.None? || ps.value.ignored {
        return false;
      }
      hide Printed, Closing, Abbrev, FlagsOf, GetPfn, RunStart, After, Lines;
      var p := ps.value;
      LinesAre(p, out);
      out := out + [Title(p.vmaStart)];
      ResetIsAfter(p);
      PrintPages(p);
      AbbrevIsClosing(p.pagemaps, p.vmaStart, |p.pagemaps|);
      Terminate();
      ok := true;
    }

    lemma ResetIsAfter(ps: Mapped)
      requires Reset()
      ensures After(ps.pagemaps, ps.vmaStart, 0)
    {
    }

    /** The loop of pagestat_print. */
    method PrintPages(ps: Mapped)
      requires After(ps.pagemaps, ps.vmaStart, 0) && |ps.pagemaps| == CountVirtPages(ps)
      modifies this
      ensures After(ps.pagemaps, ps.vmaStart, |ps.pagemaps|)
      ensures out == old(out) + Printed(ps.pagemaps, ps.vmaStart, |ps.pagemaps|)
    {
      hide Printed, AddrOf, Wrap, After, CountVirtPages;
      var addr, i, pages := Wrap(ps.vmaStart), 0, CountVirtPages(ps);
      AddrFirst(ps.vmaStart);
      PrintedNone(ps.pagemaps, ps.vmaStart);
      while i < pages
        invariant i <= pages && addr == AddrOf(ps.vmaStart, i)
        invariant After(ps.pagemaps, ps.vmaStart, i)
        invariant out == old(out) + Printed(ps.pagemaps, ps.vmaStart, i)
      {
        PrintPage(ps, addr, i, old(out));
        AddrBack(ps.vmaStart, i, 1);
        AddrNext(addr);
        i, addr := i + 1, Wrap(addr + PAGE_SIZE);
      }
    }

    /** pagestat_print_all: the maps up to the first missing one. Each is printed
        as if it were the only one. */
    method PrintAll(pss: seq<Option<Mapped>>)
      requires Reset()
      requires forall i :: 0 <= i < |pss| && pss[i].Some? ==> |pss[i].value.pagemaps| == CountVirtPages(pss[i].value)
      modifies this
      ensures Reset() && out == old(out) + AllLines(pss)
    {
      hide Lines, CountVirtPages;
      var i := 0;
      ghost var base := out;
      while i < |pss| && pss[i].Some?
        invariant i <= |pss| && Reset() && out + AllLines(pss[i..]) == base + AllLines(pss)
      {
        ghost var before := out;
        ghost var mine := if pss[i].value.ignored then [] else Lines(pss[i].value) + [Separator];
        assert pss[i..][1..] == pss[i + 1..] && pss[i..][0] == pss[i];
        var ok := Print(pss[i]);
        if ok {
          out := out + [Separator];
        }
        assert out == before + mine;
        assert before + (mine + AllLines(pss[i + 1..])) == before + mine + AllLines(pss[i + 1..]);
        i := i + 1;
      }
      assert AllLines(pss[i..]) == [];
      assert out + [] == out;
    }
  }

  lemma {:induction false} LinesAre(ps: Mapped, base: seq<Line>)
    ensures var maps, start := ps.pagemaps, ps.vmaStart;
            base + Lines(ps) == base + [Title(start)] + Printed(maps, start, |maps|) + Closing(maps, start, |maps|)
  {
    hide Printed, Closing;
  }

  lemma AddrFirst(start: nat)
    ensures AddrOf(start, 0) == Wrap(start)
  {
  }

  lemma AddrNext(addr: nat)
    ensures AddrOf(addr, 1) == Wrap(addr + PAGE_SIZE)
  {
  }

  lemma {:induction false} PrintedNone(maps: seq<Entry>, start: nat)
    ensures Printed(maps, start, 0) == []
  {
  }
}
