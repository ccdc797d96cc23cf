/** Netlink attributes (sections 2.2 and 2.3.2 of RFC 3549): the tree that a
    sequence of attr/nest/done calls describes, its encoding, and the walk by
    aligned lengths that reads it back. */
module Netlink {
  import opened Options
  import Bits

  type Byte = b: int | 0 <= b < 256

  const HDR: nat := 4

  datatype Attr =
    | Leaf(typ: nat, data: seq<Byte>)
    | Nest(typ: nat, children: seq<Attr>)

  /** NLMSG_ALIGN: `(len + 3) & ~3`. */
  function Align(len: nat): nat {
    (len + 3) / 4 * 4
  }

  lemma AlignIs(len: nat)
    requires len + 3 < Bits.WORD
    ensures Align(len) == Bits.And(len + 3, Bits.Not(3))
    ensures Align(len) % 4 == 0 && len <= Align(len) < len + 4
  {
    assert Bits.Pow2(2) == 4;
    hide Bits.And, Bits.Pow2, Align;
    Bits.AlignIs(len + 3, 2);
    AlignDigits(len);
  }

  lemma AlignDigits(len: nat)
    ensures Align(len) == (len + 3) - (len + 3) % 4
    ensures Align(len) % 4 == 0 && len <= Align(len) < len + 4
  {
    var x := len + 3;
    assert x == x / 4 * 4 + x % 4;
    Bits.DivUnique(x / 4 * 4, 4, x / 4, 0);
  }

  function Le16(v: nat): (b: seq<Byte>)
    ensures |b| == 2
  {
    [v % 256, v / 256 % 256]
  }

  /** Little-endian: the low byte first. */
  lemma Le16Is(v: nat)
    ensures var b := Le16(v); (b[0] as int) + 256 * (b[1] as int) == v % 65536
  {
    var q, r := v / 65536, v % 65536;
    Bits.DivUnique(v, 256, 256 * q + r / 256, r % 256);
    Bits.DivUnique(v / 256, 256, q, r / 256);
  }

  function FromLe16(b: seq<Byte>): nat
    requires |b| >= 2
  {
    (b[0] as int) + 256 * (b[1] as int)
  }

  function Zeros(n: nat): (z: seq<Byte>)
    ensures |z| == n && forall i :: 0 <= i < n ==> z[i] == 0
  {
    seq(n, _ => 0)
  }

  function Header(len: nat, typ: nat): (h: seq<Byte>)
    ensures |h| == HDR
  {
    Le16(len) + Le16(typ)
  }

  function Encode(a: Attr): (b: seq<Byte>)
    ensures |b| >= HDR
    decreases a
  {
    match a
    case Leaf(typ, data) =>
      Header(HDR + |data|, typ) + data + Zeros(Align(HDR + |data|) - (HDR + |data|))
    case Nest(typ, children) =>
      var body := EncodeAll(children);
      Header(HDR + |body|, typ) + body
  }

  function EncodeAll(s: seq<Attr>): (b: seq<Byte>)
    decreases s
  {
    if s == [] then [] else Encode(s[0]) + EncodeAll(s[1..])
  }

  /** Attributes end on a four-byte boundary. */
  lemma {:induction false} EncodeAligned(a: Attr)
    ensures |Encode(a)| % 4 == 0
    decreases a
  {
    hide Align;
    if a.Nest? {
      EncodeAllAligned(a.children);
      SumAligned(0, |EncodeAll(a.children)|);
    } else {
      AlignDigits(HDR + |a.data|);
    }
  }

  lemma {:induction false} EncodeAllAligned(s: seq<Attr>)
    ensures |EncodeAll(s)| % 4 == 0
    decreases s
  {
    if s != [] {
      hide Encode;
      EncodeAligned(s[0]);
      EncodeAllAligned(s[1..]);
      BothAligned(|Encode(s[0])|, |EncodeAll(s[1..])|);
    }
  }

  lemma BothAligned(x: nat, y: nat)
    requires x % 4 == 0 && y % 4 == 0
    ensures (x + y) % 4 == 0
  {
  }

  lemma SumAligned(x: nat, y: nat)
    requires x % 4 == 0 && y % 4 == 0
    ensures (x + HDR + y) % 4 == 0
  {
    BothAligned(x, HDR);
    BothAligned(x + HDR, y);
  }

  /** Every length fits the 16-bit field, as it does in a 4096-byte buffer. */
  ghost predicate Fits(a: Attr)
    decreases a
  {
    && a.typ < 65536 && |Encode(a)| < 65536
    && (a.Nest? ==> forall i :: 0 <= i < |a.children| ==> Fits(a.children[i]))
  }

  // ---- reading ----

  function LenAt(b: seq<Byte>): nat
    requires |b| >= HDR
  {
    FromLe16(b)
  }

  function TypeAt(b: seq<Byte>): nat
    requires |b| >= HDR
  {
    FromLe16(b[2..])
  }

  /** The walk: one attribute, then on by its aligned length. `isNest(path)` says
      whether the attribute reached by that path of types holds attributes. */
  function Decode(b: seq<Byte>, isNest: seq<nat> -> bool, path: seq<nat>): Option<seq<Attr>>
    decreases |b|
  {
    if b == [] then Some([])
    else if |b| < HDR then None
    else
      var len := LenAt(b);
      if len < HDR || Align(len) > |b| then None
      else
        var payload := b[HDR..len];
        var rest := Decode(b[Align(len)..], isNest, path);
        if rest.None? then None
        else if isNest(path + [TypeAt(b)]) then
          var inner := Decode(payload, isNest, path + [TypeAt(b)]);
          if inner.None? then None else Some([Nest(TypeAt(b), inner.value)] + rest.value)
        else Some([Leaf(TypeAt(b), payload)] + rest.value)
  }

  ghost predicate Conforms(a: Attr, isNest: seq<nat> -> bool, path: seq<nat>)
    decreases a
  {
    && (isNest(path + [a.typ]) <==> a.Nest?)
    && (a.Nest? ==> forall i :: 0 <= i < |a.children| ==> Conforms(a.children[i], isNest, path + [a.typ]))
  }

  lemma Le16RoundTrip(v: nat)
    requires v < 65536
    ensures FromLe16(Le16(v)) == v
  {
  }

  /** What the walk sees at the start of an encoded attribute. */
  ghost function Body(a: Attr): seq<Byte> {
    if a.Leaf? then a.data else EncodeAll(a.children)
  }

  lemma {:induction false} Anatomy(a: Attr)
    ensures var n := HDR + |Body(a)|;
            Encode(a) == Header(n, a.typ) + Body(a) + Zeros(Align(n) - n) && Align(n) == |Encode(a)|
  {
    hide EncodeAll, Header;
    if a.Nest? {
      EncodeAllAligned(a.children);
      var n := HDR + |Body(a)|;
      AlignFixed(n);
      assert Encode(a) == Header(n, a.typ) + Body(a);
      assert Header(n, a.typ) + Body(a) + Zeros(0) == Header(n, a.typ) + Body(a);
    }
  }

  lemma AlignFixed(n: nat)
    requires n % 4 == 0
    ensures Align(n) == n
  {
  }

  /** The bytes of an encoded attribute: length and type with the low byte first,
      the payload, and zeros up to the next multiple of four. */
  lemma {:induction false} EncodeBytes(a: Attr)
    requires Fits(a)
    ensures var b, n := Encode(a), HDR + |Body(a)|;
            && n <= |b| < n + 4 && |b| % 4 == 0
            && (b[0] as int) + 256 * (b[1] as int) == n && (b[2] as int) + 256 * (b[3] as int) == a.typ
            && b[HDR..n] == Body(a) && forall k :: n <= k < |b| ==> b[k] == 0
  {
    var n := HDR + |Body(a)|;
    assert a.typ < 65536 && |Encode(a)| < 65536;
    hide Fits, Encode, Body, Le16, Align;
    Anatomy(a);
    AlignDigits(n);
    HeaderBytes(n, a.typ, Body(a), Align(n) - n);
  }

  lemma {:induction false} HeaderBytes(n: nat, typ: nat, body: seq<Byte>, k: nat)
    requires n < 65536 && typ < 65536 && n == HDR + |body|
    ensures var b := Header(n, typ) + body + Zeros(k);
            && (b[0] as int) + 256 * (b[1] as int) == n && (b[2] as int) + 256 * (b[3] as int) == typ
            && b[HDR..n] == body && forall i :: n <= i < |b| ==> b[i] == 0
  {
    Le16Is(n);
    Le16Is(typ);
    hide Le16;
    var h := Header(n, typ);
    assert h[0] == Le16(n)[0] && h[1] == Le16(n)[1] && h[2] == Le16(typ)[0] && h[3] == Le16(typ)[1];
  }

  lemma {:induction false} HeaderReads(a: Attr, rest: seq<Byte>)
    requires Fits(a)
    ensures var b := Encode(a) + rest;
            var len := LenAt(b);
            && TypeAt(b) == a.typ && len >= HDR && Align(len) == |Encode(a)|
            && b[Align(len)..] == rest && b[HDR..len] == Body(a)
  {
    Anatomy(a);
    hide Encode, Body;
    var b, len := Encode(a) + rest, HDR + |Body(a)|;
    Le16RoundTrip(len);
    Le16RoundTrip(a.typ);
    assert b[..2] == Le16(len) && b[2..4] == Le16(a.typ);
    assert LenAt(b) == len && TypeAt(b) == a.typ;
    assert b[HDR..len] == Body(a);
    assert b[Align(len)..] == rest;
  }

  /** Decoding an encoded forest gives it back, whatever the schema says of each path of types. */
  lemma {:induction false} RoundTrip(s: seq<Attr>, isNest: seq<nat> -> bool, path: seq<nat>)
    requires forall i :: 0 <= i < |s| ==> Fits(s[i]) && Conforms(s[i], isNest, path)
    ensures Decode(EncodeAll(s), isNest, path) == Some(s)
    decreases s
  {
    hide Encode, Decode;
    if s != [] {
      var a, rest := s[0], EncodeAll(s[1..]);
      RoundTrip(s[1..], isNest, path);
      if a.Nest? {
        RoundTrip(a.children, isNest, path + [a.typ]);
      }
      DecodeOne(a, rest, isNest, path);
      assert s == [a] + s[1..];
    } else {
      DecodeNone(isNest, path);
    }
  }

  lemma DecodeNone(isNest: seq<nat> -> bool, path: seq<nat>)
    ensures Decode([], isNest, path) == Some([])
  {
  }

  /** One step of the walk, over an encoded attribute. */
  lemma {:induction false} DecodeOne(a: Attr, rest: seq<Byte>, isNest: seq<nat> -> bool, path: seq<nat>)
    requires Fits(a) && (isNest(path + [a.typ]) <==> a.Nest?)
    requires a.Nest? ==> Decode(EncodeAll(a.children), isNest, path + [a.typ]) == Some(a.children)
    ensures Decode(rest, isNest, path).Some? ==>
              Decode(Encode(a) + rest, isNest, path) == Some([a] + Decode(rest, isNest, path).value)
  {
    HeaderReads(a, rest);
    hide Encode, LenAt, TypeAt, Align, Fits, EncodeAll;
    assert |Encode(a) + rest| >= HDR;
  }

  // ---- forests under construction ----

  lemma {:induction false} EncodeAppend(s: seq<Attr>, a: Attr)
    ensures EncodeAll(s + [a]) == EncodeAll(s) + Encode(a)
  {
    hide Encode;
    if s == [] {
      assert [a][1..] == [];
    } else {
      EncodeAppend(s[1..], a);
      assert (s + [a])[1..] == s[1..] + [a];
      assert Encode(s[0]) + (EncodeAll(s[1..]) + Encode(a)) == Encode(s[0]) + EncodeAll(s[1..]) + Encode(a);
    }
  }

  /** levels[0] are the finished attributes, levels[i + 1] those inside the i-th
      open nest, whose type is types[i] and whose length is not yet written. */
  ghost function Open(levels: seq<seq<Attr>>, types: seq<nat>): (b: seq<Byte>)
    requires |levels| == |types| + 1
  {
    var n := |types|;
    if n == 0 then EncodeAll(levels[0])
    else Open(levels[..n], types[..n - 1]) + Header(0, types[n - 1]) + EncodeAll(levels[n])
  }

  lemma {:induction false} OpenAligned(levels: seq<seq<Attr>>, types: seq<nat>)
    requires |levels| == |types| + 1
    ensures |Open(levels, types)| % 4 == 0
  {
    hide EncodeAll;
    var n := |types|;
    EncodeAllAligned(levels[0]);
    if n > 0 {
      OpenAligned(levels[..n], types[..n - 1]);
      EncodeAllAligned(levels[n]);
      SumAligned(|Open(levels[..n], types[..n - 1])|, |EncodeAll(levels[n])|);
    }
  }

  /** The innermost level with one attribute more. */
  ghost function Push(levels: seq<seq<Attr>>, a: Attr): (r: seq<seq<Attr>>)
    requires |levels| > 0
    ensures |r| == |levels|
  {
    levels[|levels| - 1 := levels[|levels| - 1] + [a]]
  }

  lemma {:induction false} OpenPush(levels: seq<seq<Attr>>, types: seq<nat>, a: Attr)
    requires |levels| == |types| + 1
    ensures Open(Push(levels, a), types) == Open(levels, types) + Encode(a)
  {
    var n := |types|;
    EncodeAppend(levels[n], a);
    if n > 0 {
      assert Push(levels, a)[..n] == levels[..n];
    }
  }

  lemma {:induction false} OpenNest(levels: seq<seq<Attr>>, types: seq<nat>, typ: nat)
    requires |levels| == |types| + 1
    ensures Open(levels + [[]], types + [typ]) == Open(levels, types) + Header(0, typ)
  {
    var n := |types|;
    assert (levels + [[]])[..n + 1] == levels && (types + [typ])[..n] == types;
  }

  /** Writing the length of the innermost nest closes it. */
  lemma {:induction false} OpenClose(levels: seq<seq<Attr>>, types: seq<nat>)
    requires |levels| == |types| + 1 && |types| > 0
    ensures var n := |types|;
            var p := Open(levels[..n], types[..n - 1]);
            var body := EncodeAll(levels[n]);
            && Open(levels, types) == p + Header(0, types[n - 1]) + body
            && Open(Push(levels[..n], Nest(types[n - 1], levels[n])), types[..n - 1])
               == p + Header(HDR + |body|, types[n - 1]) + body
  {
    var n := |types|;
    var a := Nest(types[n - 1], levels[n]);
    OpenPush(levels[..n], types[..n - 1], a);
    var p, body := Open(levels[..n], types[..n - 1]), EncodeAll(levels[n]);
    assert p + (Header(HDR + |body|, types[n - 1]) + body) == p + Header(HDR + |body|, types[n - 1]) + body;
  }

  ghost predicate AllFit(levels: seq<seq<Attr>>) {
    forall i, k :: 0 <= i < |levels| && 0 <= k < |levels[i]| ==> Fits(levels[i][k])
  }

  lemma Le16Mod(v: nat)
    ensures Le16(v % 65536) == Le16(v)
  {
    var q, r := v / 65536, v % 65536;
    assert v == 256 * (256 * q + r / 256) + r % 256;
    assert v / 256 == 256 * q + r / 256;
  }

  /** Replace the bytes of b from `at` on. */
  function Patched(b: seq<Byte>, at: nat, bytes: seq<Byte>): (r: seq<Byte>)
    requires at + |bytes| <= |b|
    ensures |r| == |b|
  {
    b[..at] + bytes + b[at + |bytes|..]
  }

  lemma {:induction false} PatchTwice(b: seq<Byte>, at: nat, x: seq<Byte>, y: seq<Byte>)
    requires at + |x| + |y| <= |b|
    ensures Patched(Patched(b, at, x), at + |x|, y) == Patched(b, at, x + y)
  {
    var c := Patched(b, at, x);
    assert c[..at + |x|] == b[..at] + x;
    assert c[at + |x| + |y|..] == b[at + |x| + |y|..];
  }

  /** The attributes written so far are `bytes`; the rest of the buffer is zero. */
  ghost predicate BytesOk(b: seq<Byte>, base: nat, pos: nat, bytes: seq<Byte>) {
    && |b| == 4096 && base <= pos <= 4096 && b[base..pos] == bytes
    && forall i :: pos <= i < 4096 ==> b[i] == 0
  }

  /** The header fields after the stores of netlink_attr. */
  lemma {:induction false} AttrFields(b: seq<Byte>, at: nat, typ: nat, data: seq<Byte>)
    requires |b| == 4096 && at + HDR + |data| <= 4096
    ensures var c := Patched(Patched(Patched(b, at, Le16(HDR + |data|)), at + 2, Le16(typ)), at + HDR, data);
            && (c[at] as int) + 256 * (c[at + 1] as int) == HDR + |data|
            && (c[at + 2] as int) + 256 * (c[at + 3] as int) == typ % 65536
            && c[at + HDR..at + HDR + |data|] == data
            && forall k :: 0 <= k < |b| && !(at <= k < at + HDR + |data|) ==> c[k] == b[k]
  {
    Le16Is(HDR + |data|);
    Le16Is(typ);
    hide Le16;
    PatchTwice(b, at, Le16(HDR + |data|), Le16(typ));
    PatchTwice(b, at, Le16(HDR + |data|) + Le16(typ), data);
  }

  lemma {:induction false} FieldPatched(b: seq<Byte>, at: nat, v: nat)
    requires at + 2 <= |b|
    ensures var c := Patched(b, at, Le16(v));
            && (c[at] as int) + 256 * (c[at + 1] as int) == v % 65536
            && forall k :: 0 <= k < |b| && k != at && k != at + 1 ==> c[k] == b[k]
  {
    Le16Is(v);
    hide Le16;
  }

  lemma AlignRoom(pos: nat, len: nat)
    requires pos % 4 == 0 && pos + len <= 4096
    ensures pos + Align(len) <= 4096 && len <= Align(len)
  {
  }

  lemma {:induction false} AttrBytes(b: seq<Byte>, base: nat, pos: nat, bytes: seq<Byte>, typ: nat, data: seq<Byte>)
    requires BytesOk(b, base, pos, bytes) && pos % 4 == 0 && pos + HDR + |data| <= 4096
    ensures pos + Align(HDR + |data|) <= 4096
    ensures var b1 := Patched(b, pos, Le16(HDR + |data|));
            var b2 := Patched(b1, pos + 2, Le16(typ));
            var b3 := Patched(b2, pos + HDR, data);
            BytesOk(b3, base, pos + Align(HDR + |data|), bytes + Encode(Leaf(typ, data)))
  {
    var head := Header(HDR + |data|, typ);
    var n := Align(HDR + |data|);
    PatchTwice(b, pos, Le16(HDR + |data|), Le16(typ));
    PatchTwice(b, pos, head, data);
    AppendBytes(b, base, pos, bytes, head + data);
    AlignRoom(pos, HDR + |data|);
    hide BytesOk, Patched, Align, Header;
    ExtendZeros(Patched(b, pos, head + data), base, pos + |head + data|, bytes + (head + data), n - |head + data|);
    assert bytes + (head + data) + Zeros(n - |head + data|) == bytes + Encode(Leaf(typ, data));
  }

  lemma {:induction false} AppendBytes(b: seq<Byte>, base: nat, pos: nat, bytes: seq<Byte>, x: seq<Byte>)
    requires BytesOk(b, base, pos, bytes) && pos + |x| <= 4096
    ensures BytesOk(Patched(b, pos, x), base, pos + |x|, bytes + x)
  {
    var c := Patched(b, pos, x);
    assert c[base..pos] == b[base..pos];
    assert c[pos..pos + |x|] == x;
    assert c[base..pos + |x|] == c[base..pos] + c[pos..pos + |x|];
    forall i | pos + |x| <= i < 4096 ensures c[i] == 0 {
      assert c[i] == b[i];
    }
  }

  lemma {:induction false} ExtendZeros(b: seq<Byte>, base: nat, pos: nat, bytes: seq<Byte>, k: nat)
    requires BytesOk(b, base, pos, bytes) && pos + k <= 4096
    ensures BytesOk(b, base, pos + k, bytes + Zeros(k))
  {
    ZeroSlice(b, pos, pos + k);
    assert b[base..pos + k] == b[base..pos] + b[pos..pos + k];
  }

  lemma {:induction false} ZeroSlice(b: seq<Byte>, lo: nat, hi: nat)
    requires lo <= hi <= |b| && forall i :: lo <= i < |b| ==> b[i] == 0
    ensures b[lo..hi] == Zeros(hi - lo)
  {
  }

  lemma {:induction false} NestBytes(b: seq<Byte>, base: nat, pos: nat, bytes: seq<Byte>, typ: nat)
    requires BytesOk(b, base, pos, bytes) && pos + HDR <= 4096
    ensures BytesOk(Patched(b, pos + 2, Le16(typ)), base, pos + HDR, bytes + Header(0, typ))
  {
    ExtendZeros(b, base, pos, bytes, 2);
    AppendBytes(b, base, pos + 2, bytes + Zeros(2), Le16(typ));
    assert Le16(0) == Zeros(2);
    assert bytes + Zeros(2) + Le16(typ) == bytes + Header(0, typ);
  }

  lemma {:induction false} DoneBytes(b: seq<Byte>, base: nat, pos: nat, p: seq<Byte>, typ: nat, body: seq<Byte>)
    requires BytesOk(b, base, pos, p + Header(0, typ) + body)
    ensures base + |p| + 2 <= 4096 && pos - (base + |p|) == HDR + |body|
    ensures BytesOk(Patched(b, base + |p|, Le16(HDR + |body|)), base, pos, p + Header(HDR + |body|, typ) + body)
  {
    hide Le16;
    var x := Le16(HDR + |body|);
    assert p + Header(0, typ) + body == p + Le16(0) + (Le16(typ) + body);
    OverwriteBytes(b, base, pos, p, Le16(0), Le16(typ) + body, x);
    assert p + Header(HDR + |body|, typ) + body == p + x + (Le16(typ) + body);
  }

  lemma {:induction false} PatchedSlices(b: seq<Byte>, at: nat, y: seq<Byte>, lo: nat, hi: nat)
    requires lo <= at && at + |y| <= hi <= |b|
    ensures var c := Patched(b, at, y);
            c[lo..at] == b[lo..at] && c[at..at + |y|] == y && c[at + |y|..hi] == b[at + |y|..hi]
  {
  }

  lemma {:induction false} SubSlice(b: seq<Byte>, lo: nat, hi: nat, i: nat, j: nat)
    requires lo <= hi <= |b| && i <= j <= hi - lo
    ensures b[lo..hi][i..j] == b[lo + i..lo + j]
  {
    var c := b[lo..hi];
    forall k | 0 <= k < j - i ensures c[i..j][k] == b[lo + i..lo + j][k] {
      assert c[i + k] == b[lo + i + k];
    }
  }

  lemma {:induction false} OverwriteBytes(b: seq<Byte>, base: nat, pos: nat, p: seq<Byte>, x: seq<Byte>, q: seq<Byte>, y: seq<Byte>)
    requires BytesOk(b, base, pos, p + x + q) && |x| == |y|
    ensures base + |p| + |y| <= |b|
    ensures BytesOk(Patched(b, base + |p|, y), base, pos, p + y + q)
  {
    var at := base + |p|;
    var c := Patched(b, at, y);
    assert |b[base..pos]| == |p| + |x| + |q|;
    ThreeParts(b, base, pos, p, x, q);
    PatchedSlices(b, at, y, base, pos);
    assert c[base..pos] == c[base..at] + c[at..at + |y|] + c[at + |y|..pos];
    forall i | pos <= i < 4096 ensures c[i] == 0 {
      assert c[i] == b[i];
    }
  }

  lemma {:induction false} ThreeParts(b: seq<Byte>, base: nat, pos: nat, p: seq<Byte>, x: seq<Byte>, q: seq<Byte>)
    requires base <= pos <= |b| && b[base..pos] == p + x + q
    ensures base + |p| + |x| <= |b| && pos == base + |p| + |x| + |q|
    ensures b[base..base + |p|] == p && b[base + |p| + |x|..pos] == q
  {
    var n := pos - base;
    assert |b[base..pos]| == n == |p| + |x| + |q|;
    SubSlice(b, base, pos, 0, |p|);
    SubSlice(b, base, pos, |p| + |x|, n);
    assert (p + x + q)[..|p|] == p && (p + x + q)[|p| + |x|..] == q;
  }

  lemma {:induction false} PushFits(levels: seq<seq<Attr>>, a: Attr)
    requires AllFit(levels) && |levels| > 0 && Fits(a)
    ensures AllFit(Push(levels, a))
  {
  }

  const NLM_F_REQUEST: nat := 1
  const NLM_F_ACK: nat := 4

  function Flags(flags: nat): nat {
    Bits.Or(Bits.Or(NLM_F_REQUEST, NLM_F_ACK), flags)
  }

  /** A request that asks for an acknowledgement, whatever else it asks for. */
  lemma FlagsBits(flags: nat, k: nat)
    ensures Bits.Bit(Flags(flags), k) <==> k == 0 || k == 2 || Bits.Bit(flags, k)
  {
    Bits.BitOr(Bits.Or(1, 4), flags, k);
    Bits.BitOr(1, 4, k);
    assert Bits.Pow2(0) == 1 && Bits.Pow2(2) == 4;
    Bits.BitPow2(0, k);
    Bits.BitPow2(2, k);
    hide Bits.Bit, Bits.Or, Bits.Pow2;
  }

  /** struct nlmsg and the functions that fill it. */
  class Nlmsg {
    const buf: array<Byte>
    const nested: array<nat>
    var pos: nat
    var nesting: nat
    /** Where the attributes start, and the forest written so far. */
    ghost var base: nat
    ghost var levels: seq<seq<Attr>>
    ghost var types: seq<nat>

    ghost predicate Valid()
      reads this, buf, nested
    {
      && buf.Length == 4096 && nested.Length == 8 && nesting <= 8
      && |levels| == nesting + 1 && |types| == nesting && AllFit(levels)
      && (forall i :: 0 <= i < nesting ==> types[i] < 65536)
      && base % 4 == 0 && base >= 16 && BytesOk(buf[..], base, pos, Open(levels, types))
      && (forall i :: 0 <= i < nesting ==> nested[i] == base + |Open(levels[..i + 1], types[..i])|)
    }

    /** memcpy into the buffer. */
    method Copy(at: nat, bytes: seq<Byte>)
      requires at + |bytes| <= buf.Length
      modifies buf
      ensures buf[..] == Patched(old(buf[..]), at, bytes)
    {
      var i := 0;
      while i < |bytes|
        invariant 0 <= i <= |bytes|
        invariant forall k :: 0 <= k < i ==> buf[at + k] == bytes[k]
        invariant forall k :: 0 <= k < buf.Length && !(at <= k < at + i) ==> buf[k] == old(buf[k])
      {
        buf[at + i] := bytes[i];
        i := i + 1;
      }
      assert buf[..] == Patched(old(buf[..]), at, bytes);
    }

    /** A store to a 16-bit field. */
    method Store16(at: nat, v: nat)
      requires at + 2 <= buf.Length
      modifies buf
      ensures buf[..] == Patched(old(buf[..]), at, Le16(v))
      ensures (buf[at] as int) + 256 * (buf[at + 1] as int) == v % 65536
      ensures forall k :: 0 <= k < buf.Length && k != at && k != at + 1 ==> buf[k] == old(buf[k])
    {
      FieldPatched(buf[..], at, v);
      hide Patched, Le16;
      Copy(at, Le16(v));
      assert forall k :: 0 <= k < buf.Length ==> buf[..][k] == buf[k];
    }

    /** netlink_init: a zeroed buffer, the message header and the fixed part. */
    constructor (typ: nat, flags: nat, data: seq<Byte>)
      requires 16 + |data| <= 4096
      ensures Valid() && fresh(buf) && fresh(nested) && levels == [[]] && types == []
      ensures base == pos == 16 + Align(|data|)
      ensures (buf[4] as int) + 256 * (buf[5] as int) == typ % 65536
      ensures (buf[6] as int) + 256 * (buf[7] as int) == Flags(flags) % 65536
      ensures buf[..4] == Zeros(4) && buf[8..16] == Zeros(8) && buf[16..16 + |data|] == data
    {
      buf := new Byte[4096](_ => 0);
      nested := new nat[8](_ => 0);
      pos, nesting := 16 + Align(|data|), 0;
      base := 16 + Align(|data|);
      levels, types := [[]], [];
      new;
      hide Patched, Le16, BytesOk, Flags;
      InitBytes(typ, Flags(flags), data);
      assert buf[..] == Zeros(4096);
      FillHeader(typ, Flags(flags), data);
      Le16Is(typ);
      Le16Is(Flags(flags));
      ghost var head := Zeros(4) + Le16(typ) + Le16(Flags(flags)) + Zeros(8);
      assert forall k :: 0 <= k < 16 ==> buf[k] == buf[..16][k] == head[k];
      assert Open(levels, types) == [];
    }

    method FillHeader(typ: nat, flags: nat, data: seq<Byte>)
      requires buf.Length == 4096 && buf[..] == Zeros(4096) && 16 + |data| <= 4096
      modifies buf
      ensures BytesOk(buf[..], 16 + Align(|data|), 16 + Align(|data|), [])
      ensures buf[..16] == Zeros(4) + Le16(typ) + Le16(flags) + Zeros(8) && buf[16..16 + |data|] == data
    {
      hide Patched, Le16, BytesOk;
      InitBytes(typ, flags, data);
      Copy(4, Le16(typ));
      Copy(6, Le16(flags));
      Copy(16, data);
      assert buf[..][..16] == buf[..16] && buf[..][16..16 + |data|] == buf[16..16 + |data|];
    }

    /** The stores of netlink_attr. */
    method WriteAttr(at: nat, typ: nat, data: seq<Byte>)
      requires buf.Length == 4096 && at + HDR + |data| <= 4096
      modifies buf
      ensures buf[..] == Patched(Patched(Patched(old(buf[..]), at, Le16(HDR + |data|)), at + 2, Le16(typ)), at + HDR, data)
      ensures (buf[at] as int) + 256 * (buf[at + 1] as int) == HDR + |data|
      ensures (buf[at + 2] as int) + 256 * (buf[at + 3] as int) == typ % 65536
      ensures buf[at + HDR..at + HDR + |data|] == data
      ensures forall k :: 0 <= k < 4096 && !(at <= k < at + HDR + |data|) ==> buf[k] == old(buf[k])
    {
      AttrFields(buf[..], at, typ, data);
      hide Patched, Le16;
      Copy(at, Le16(HDR + |data|));
      Copy(at + 2, Le16(typ));
      if |data| > 0 {
        Copy(at + HDR, data);
      } else {
        PatchNothing(buf[..], at + HDR, data);
      }
      assert buf[..][at + HDR..at + HDR + |data|] == buf[at + HDR..at + HDR + |data|];
      assert forall k :: 0 <= k < 4096 ==> buf[..][k] == buf[k];
    }

    /** netlink_attr. */
    method Attribute(typ: nat, data: seq<Byte>)
      requires Valid() && pos + HDR + |data| <= 4096
      modifies buf, this`pos, this`levels
      ensures Valid() && types == old(types) && base == old(base) && nesting == old(nesting)
      ensures levels == Push(old(levels), Leaf(typ % 65536, data))
      ensures var at := old(pos);
              && (buf[at] as int) + 256 * (buf[at + 1] as int) == HDR + |data|
              && (buf[at + 2] as int) + 256 * (buf[at + 3] as int) == typ % 65536
              && buf[at + HDR..at + HDR + |data|] == data
              && forall k :: 0 <= k < 4096 && !(at <= k < at + HDR + |data|) ==> buf[k] == old(buf[k])
    {
      hide AllFit, Open, BytesOk, Patched, Le16, Encode, Push;
      ghost var a := Leaf(typ % 65536, data);
      ghost var l0, b0 := levels, buf[..];
      Le16Mod(typ);
      PosAligned();
      AttrBytes(buf[..], base, pos, Open(levels, types), typ % 65536, data);
      LeafFits(typ % 65536, data);
      OpenPush(levels, types, a);
      PushFits(levels, a);
      WriteAttr(pos, typ, data);
      pos := pos + Align(HDR + |data|);
      levels := Push(levels, a);
      forall i | 0 <= i < nesting ensures nested[i] == base + |Open(levels[..i + 1], types[..i])| {
        PushPrefix(l0, a, i);
      }
    }

    lemma {:induction false} PosAligned()
      requires Valid()
      ensures pos % 4 == 0 && pos == base + |Open(levels, types)| && pos <= 4096
    {
      OpenAligned(levels, types);
    }

    /** netlink_nest. */
    method BeginNest(typ: nat)
      requires Valid() && pos + HDR <= 4096 && nesting < 8
      modifies buf, nested, this`pos, this`nesting, this`levels, this`types
      ensures Valid() && base == old(base) && nesting == old(nesting) + 1
      ensures levels == old(levels) + [[]] && types == old(types) + [typ % 65536]
      ensures var at := old(pos);
              && nested[old(nesting)] == at && pos == at + HDR
              && (buf[at + 2] as int) + 256 * (buf[at + 3] as int) == typ % 65536
              && forall k :: 0 <= k < 4096 && k != at + 2 && k != at + 3 ==> buf[k] == old(buf[k])
    {
      hide AllFit, Open, BytesOk, Patched, Le16;
      Le16Mod(typ);
      PosAligned();
      NestBytes(buf[..], base, pos, Open(levels, types), typ % 65536);
      OpenNest(levels, types, typ % 65536);
      NestFits(levels);
      ghost var l0, t0 := levels, types;
      var attr := pos;
      Store16(attr + 2, typ);
      pos := pos + HDR;
      nested[nesting] := attr;
      nesting := nesting + 1;
      levels, types := levels + [[]], types + [typ % 65536];
      forall i | 0 <= i < nesting ensures nested[i] == base + |Open(levels[..i + 1], types[..i])| {
        assert i < |t0| ==> levels[..i + 1] == l0[..i + 1] && types[..i] == t0[..i];
        assert i == |t0| ==> levels[..i + 1] == l0[..i + 1] == l0 && types[..i] == t0;
      }
    }

    /** netlink_done: the length of the innermost open attribute. */
    method EndNest()
      requires Valid() && nesting > 0
      modifies buf, this`nesting, this`levels, this`types
      ensures Valid() && base == old(base) && nesting == old(nesting) - 1 && pos == old(pos)
      ensures types == old(types)[..nesting]
      ensures levels == Push(old(levels)[..nesting + 1], Nest(old(types)[nesting], old(levels)[nesting + 1]))
      ensures var at := nested[nesting];
              && at + HDR <= pos && (buf[at] as int) + 256 * (buf[at + 1] as int) == pos - at
              && forall k :: 0 <= k < 4096 && k != at && k != at + 1 ==> buf[k] == old(buf[k])
    {
      hide AllFit, BytesOk, Patched, Le16, Push, EncodeAll, Open;
      ghost var n, l0, t0 := nesting, levels, types;
      ghost var a := Nest(types[n - 1], levels[n]);
      PosAligned();
      OpenClose(levels, types);
      DoneBytes(buf[..], base, pos, Open(levels[..n], types[..n - 1]), types[n - 1], EncodeAll(levels[n]));
      CloseFits(levels, types, pos - base);
      nesting := nesting - 1;
      var attr := nested[nesting];
      Store16(attr, pos - attr);
      levels, types := Push(levels[..n], a), types[..n - 1];
      forall i | 0 <= i < nesting ensures nested[i] == base + |Open(levels[..i + 1], types[..i])| {
        CloseKeeps(l0, t0, a, i);
      }
    }

    /** The checks and the length store of netlink_send_ext. */
    method Seal() returns (ok: bool)
      requires Valid()
      modifies buf
      ensures ok <==> nesting == 0
      ensures ok ==> Valid() && buf[base..pos] == EncodeAll(levels[0])
      ensures ok ==> (buf[0] as int) + 256 * (buf[1] as int) + 65536 * (buf[2] as int) + 16777216 * (buf[3] as int) == pos
      ensures !ok ==> buf[..] == old(buf[..])
      ensures buf[4..] == old(buf[4..])
    {
      hide AllFit, Patched;
      ok := !(pos > 4096 || nesting != 0);
      if ok {
        SealBytes(buf[..], base, pos, Open(levels, types));
        Le16Is(pos);
        hide Le16;
        Copy(0, Le16(pos) + Zeros(2));
        assert forall k :: 0 <= k < 4 ==> buf[k] == buf[..4][k];
        assert buf[..][..4] == buf[..4] && buf[..][base..pos] == buf[base..pos];
        assert buf[..][4..] == buf[4..] && old(buf[..])[4..] == old(buf[4..]);
      }
    }
  }

  lemma {:induction false} SealBytes(b: seq<Byte>, base: nat, pos: nat, bytes: seq<Byte>)
    requires BytesOk(b, base, pos, bytes) && base >= 16
    ensures var c := Patched(b, 0, Le16(pos) + Zeros(2));
            BytesOk(c, base, pos, bytes) && c[..4] == Le16(pos) + Zeros(2) && c[4..] == b[4..]
  {
    var c := Patched(b, 0, Le16(pos) + Zeros(2));
    assert c[base..pos] == b[base..pos];
    forall i | pos <= i < 4096 ensures c[i] == 0 {
      assert c[i] == b[i];
    }
  }

  lemma {:induction false} PatchNothing(b: seq<Byte>, at: nat, bytes: seq<Byte>)
    requires at <= |b| && bytes == []
    ensures Patched(b, at, bytes) == b
  {
  }

  lemma {:induction false} LeafFits(typ: nat, data: seq<Byte>)
    requires typ < 65536 && |data| <= 4096
    ensures Fits(Leaf(typ, data))
  {
  }

  /** The message header of netlink_init. */
  lemma {:induction false} InitBytes(typ: nat, flags: nat, data: seq<Byte>)
    requires 16 + |data| <= 4096
    ensures 16 + Align(|data|) <= 4096
    ensures var b := Patched(Patched(Patched(Zeros(4096), 4, Le16(typ)), 6, Le16(flags)), 16, data);
            && b[..16] == Zeros(4) + Le16(typ) + Le16(flags) + Zeros(8) && b[16..16 + |data|] == data
            && BytesOk(b, 16 + Align(|data|), 16 + Align(|data|), [])
  {
    var h := Patched(Zeros(4096), 4, Le16(typ) + Le16(flags));
    PatchTwice(Zeros(4096), 4, Le16(typ), Le16(flags));
    var b := Patched(h, 16, data);
    assert h[..16] == Zeros(4) + Le16(typ) + Le16(flags) + Zeros(8);
    assert b[..16] == h[..16];
    assert b[16 + |data|..] == h[16 + |data|..];
    forall i | 16 + Align(|data|) <= i < 4096 ensures b[i] == 0 {
      assert b[i] == b[16 + |data|..][i - 16 - |data|];
    }
  }

  lemma {:induction false} NestFits(levels: seq<seq<Attr>>)
    requires AllFit(levels)
    ensures AllFit(levels + [[]])
  {
  }

  lemma {:induction false} CloseFits(levels: seq<seq<Attr>>, types: seq<nat>, size: int)
    requires |levels| == |types| + 1 && |types| > 0 && AllFit(levels) && types[|types| - 1] < 65536
    requires |Open(levels, types)| == size <= 4096
    ensures AllFit(Push(levels[..|types|], Nest(types[|types| - 1], levels[|types|])))
  {
    var n := |types|;
    var a := Nest(types[n - 1], levels[n]);
    assert |Encode(a)| == HDR + |EncodeAll(levels[n])|;
    assert Fits(a);
    PushFits(levels[..n], a);
  }

  /** Finishing an attribute leaves the outer levels, and so the recorded
      positions of the open nests, as they are. */
  lemma {:induction false} PushPrefix(levels: seq<seq<Attr>>, a: Attr, i: nat)
    requires i + 1 < |levels|
    ensures Push(levels, a)[..i + 1] == levels[..i + 1]
  {
  }

  /** So does closing one: levels and types below it stay. */
  lemma {:induction false} CloseKeeps(levels: seq<seq<Attr>>, types: seq<nat>, a: Attr, i: nat)
    requires |levels| == |types| + 1 && i + 1 < |types|
    ensures var n := |types|; Push(levels[..n], a)[..i + 1] == levels[..i + 1] && types[..n - 1][..i] == types[..i]
  {
    PushPrefix(levels[..|types|], a, i);
  }

  // ---- sequences of calls ----

  datatype Op = PutAttr(typ: nat, data: seq<Byte>) | PutNest(typ: nat) | PutDone

  /** The calls that write a forest: an attr for a leaf, nest ... done around the
      calls for the children. */
  ghost function Script(a: Attr): seq<Op>
    decreases a
  {
    match a
    case Leaf(typ, data) => [PutAttr(typ, data)]
    case Nest(typ, children) => [PutNest(typ)] + ScriptAll(children) + [PutDone]
  }

  ghost function ScriptAll(s: seq<Attr>): seq<Op>
    decreases s
  {
    if s == [] then [] else Script(s[0]) + ScriptAll(s[1..])
  }

  /** What the builder records after each call. */
  datatype Draft = Draft(levels: seq<seq<Attr>>, types: seq<nat>)

  ghost predicate DraftOk(d: Draft) {
    |d.levels| == |d.types| + 1
  }

  /** May the call be made: something is open to be closed, eight levels at most,
      and the buffer has room. */
  ghost predicate Allowed(base: nat, d: Draft, op: Op)
    requires DraftOk(d)
  {
    match op
    case PutAttr(typ, data) => base + |Open(d.levels, d.types)| + HDR + |data| <= 4096
    case PutNest(typ) => base + |Open(d.levels, d.types)| + HDR <= 4096 && |d.types| < 8
    case PutDone => |d.types| > 0
  }

  ghost function Apply(d: Draft, op: Op): (r: Draft)
    requires DraftOk(d)
    ensures DraftOk(r)
  {
    match op
    case PutAttr(typ, data) => Draft(Push(d.levels, Leaf(typ % 65536, data)), d.types)
    case PutNest(typ) => Draft(d.levels + [[]], d.types + [typ % 65536])
    case PutDone =>
      var n := |d.types|;
      if n == 0 then d
      else Draft(Push(d.levels[..n], Nest(d.types[n - 1], d.levels[n])), d.types[..n - 1])
  }

  const EMPTY: Draft := Draft([[]], [])

  ghost function Exec(ops: seq<Op>): (d: Draft)
    ensures DraftOk(d)
  {
    if ops == [] then EMPTY else Apply(Exec(ops[..|ops| - 1]), ops[|ops| - 1])
  }

  ghost predicate AllAllowed(base: nat, ops: seq<Op>) {
    forall k :: 0 <= k < |ops| ==> Allowed(base, Exec(ops[..k]), ops[k])
  }

  /** One call, if it is allowed. */
  method Call(msg: Nlmsg, op: Op) returns (ok: bool)
    requires msg.Valid()
    modifies msg, msg.buf, msg.nested
    ensures msg.Valid() && msg.base == old(msg.base)
    ensures ok <==> Allowed(old(msg.base), Draft(old(msg.levels), old(msg.types)), op)
    ensures Draft(msg.levels, msg.types) ==
            if ok then Apply(Draft(old(msg.levels), old(msg.types)), op) else Draft(old(msg.levels), old(msg.types))
  {
    hide Open, AllFit, BytesOk, Push;
    msg.PosAligned();
    ok := false;
    match op {
      case PutAttr(typ, data) =>
        if msg.pos + HDR + |data| <= 4096 {
          msg.Attribute(typ, data);
          ok := true;
        }
      case PutNest(typ) =>
        if msg.pos + HDR <= 4096 && msg.nesting < 8 {
          msg.BeginNest(typ);
          ok := true;
        }
      case PutDone =>
        if msg.nesting > 0 {
          msg.EndNest();
          ok := true;
        }
    }
  }

  /** Make the calls in order, up to the first one that is not allowed. */
  method Build(msg: Nlmsg, ops: seq<Op>) returns (ok: bool)
    requires msg.Valid() && Draft(msg.levels, msg.types) == EMPTY
    modifies msg, msg.buf, msg.nested
    ensures msg.Valid() && msg.base == old(msg.base)
    ensures ok <==> AllAllowed(msg.base, ops)
    ensures ok ==> Draft(msg.levels, msg.types) == Exec(ops)
  {
    hide Open, AllFit, BytesOk, Apply, Allowed, Exec, Nlmsg.Valid;
    ok := true;
    ExecNone();
    for i := 0 to |ops|
      invariant msg.Valid() && msg.base == old(msg.base) && ok
      invariant Draft(msg.levels, msg.types) == Exec(ops[..i])
      invariant forall k :: 0 <= k < i ==> Allowed(msg.base, Exec(ops[..k]), ops[k])
    {
      assert ops[..i + 1][..i] == ops[..i] && ops[..i + 1][i] == ops[i];
      ExecSnoc(ops[..i + 1], i);
      ok := Call(msg, ops[i]);
      if !ok {
        return;
      }
    }
    assert ops[..|ops|] == ops;
  }

  // ---- the calls determine the forest, and the forest the calls ----

  ghost function OpenScript(d: Draft): seq<Op>
    requires DraftOk(d)
    decreases |d.types|
  {
    var n := |d.types|;
    if n == 0 then ScriptAll(d.levels[0])
    else OpenScript(Draft(d.levels[..n], d.types[..n - 1])) + [PutNest(d.types[n - 1])] + ScriptAll(d.levels[n])
  }

  lemma {:induction false} ScriptAppend(s: seq<Attr>, a: Attr)
    ensures ScriptAll(s + [a]) == ScriptAll(s) + Script(a)
  {
    hide Script;
    if s == [] {
      assert [a][1..] == [];
    } else {
      ScriptAppend(s[1..], a);
      assert (s + [a])[1..] == s[1..] + [a];
      assert Script(s[0]) + (ScriptAll(s[1..]) + Script(a)) == Script(s[0]) + ScriptAll(s[1..]) + Script(a);
    }
  }

  lemma {:induction false} OpenScriptPush(d: Draft, a: Attr)
    requires DraftOk(d)
    ensures OpenScript(Draft(Push(d.levels, a), d.types)) == OpenScript(d) + Script(a)
  {
    hide Script, ScriptAll;
    var n := |d.types|;
    ScriptAppend(d.levels[n], a);
    if n > 0 {
      assert Push(d.levels, a)[..n] == d.levels[..n];
    }
  }

  lemma NoScript()
    ensures ScriptAll([]) == []
  {
  }

  /** Each call is the next word of the script. */
  lemma {:induction false} ApplyScript(d: Draft, op: Op)
    requires DraftOk(d) && (op.PutDone? ==> |d.types| > 0) && (!op.PutDone? ==> op.typ < 65536)
    ensures OpenScript(Apply(d, op)) == OpenScript(d) + [op]
  {
    hide Push, ScriptAll, OpenScript;
    match op
    case PutAttr(typ, data) => OpenScriptPush(d, Leaf(typ, data));
    case PutNest(typ) => NestScript(d, typ);
    case PutDone => DoneScript(d);
  }

  lemma {:induction false} NestScript(d: Draft, typ: nat)
    requires DraftOk(d)
    ensures OpenScript(Draft(d.levels + [[]], d.types + [typ])) == OpenScript(d) + [PutNest(typ)]
  {
    hide ScriptAll;
    var n := |d.types|;
    assert (d.levels + [[]])[..n + 1] == d.levels && (d.types + [typ])[..n] == d.types;
    NoScript();
  }

  lemma {:induction false} DoneScript(d: Draft)
    requires DraftOk(d) && |d.types| > 0
    ensures OpenScript(Apply(d, PutDone)) == OpenScript(d) + [PutDone]
  {
    hide Push, ScriptAll;
    var n := |d.types|;
    var outer := Draft(d.levels[..n], d.types[..n - 1]);
    var a := Nest(d.types[n - 1], d.levels[n]);
    OpenScriptPush(outer, a);
    assert OpenScript(outer) + ([PutNest(d.types[n - 1])] + ScriptAll(d.levels[n]) + [PutDone])
        == OpenScript(outer) + [PutNest(d.types[n - 1])] + ScriptAll(d.levels[n]) + [PutDone];
  }

  ghost predicate WellTyped(ops: seq<Op>) {
    forall k :: 0 <= k < |ops| && !ops[k].PutDone? ==> ops[k].typ < 65536
  }

  lemma {:induction false} AllowedFront(base: nat, ops: seq<Op>)
    requires AllAllowed(base, ops) && ops != [] && WellTyped(ops)
    ensures var n := |ops| - 1;
            && AllAllowed(base, ops[..n]) && WellTyped(ops[..n])
            && (ops[n].PutDone? ==> |Exec(ops[..n]).types| > 0) && (!ops[n].PutDone? ==> ops[n].typ < 65536)
  {
    hide Open, Exec, Apply;
    var n := |ops| - 1;
    var front := ops[..n];
    forall k | 0 <= k < n ensures Allowed(base, Exec(front[..k]), front[k]) {
      assert front[..k] == ops[..k];
      assert Allowed(base, Exec(ops[..k]), ops[k]);
    }
    assert Allowed(base, Exec(ops[..n]), ops[n]);
  }

  lemma {:induction false} EmptyScript()
    ensures OpenScript(EMPTY) == []
  {
  }

  lemma {:induction false} ExecSnoc(ops: seq<Op>, n: nat)
    requires |ops| == n + 1
    ensures Exec(ops) == Apply(Exec(ops[..n]), ops[n])
  {
    hide Apply;
  }

  lemma {:induction false} ExecNone()
    ensures Exec([]) == EMPTY
  {
  }

  /** The calls made so far can be read off what the builder has recorded. */
  lemma {:induction false} ExecScript(base: nat, ops: seq<Op>)
    requires AllAllowed(base, ops) && WellTyped(ops)
    ensures OpenScript(Exec(ops)) == ops
  {
    hide AllAllowed, WellTyped, Apply, OpenScript, Exec;
    if ops == [] {
      EmptyScript();
      ExecNone();
    } else {
      var n := |ops| - 1;
      AllowedFront(base, ops);
      ExecScript(base, ops[..n]);
      ApplyScript(Exec(ops[..n]), ops[n]);
      ExecSnoc(ops, n);
      assert ops == ops[..n] + [ops[n]];
    }
  }

  /** Add the attributes s to the innermost level. */
  ghost function PushAll(levels: seq<seq<Attr>>, s: seq<Attr>): (r: seq<seq<Attr>>)
    requires |levels| > 0
    ensures |r| == |levels|
  {
    levels[|levels| - 1 := levels[|levels| - 1] + s]
  }

  ghost predicate TypesFit(a: Attr)
    decreases a
  {
    a.typ < 65536 && (a.Nest? ==> forall i :: 0 <= i < |a.children| ==> TypesFit(a.children[i]))
  }

  /** The calls for an attribute add that attribute. */
  lemma {:induction false} ScriptRuns(ops: seq<Op>, a: Attr)
    requires TypesFit(a)
    ensures var d := Exec(ops); Exec(ops + Script(a)) == Draft(Push(d.levels, a), d.types)
    decreases a
  {
    hide Exec, ScriptAll, Apply, Push, PushAll;
    if a.Leaf? {
      ExecThen(ops, PutAttr(a.typ, a.data));
      ApplyLeaf(Exec(ops), a);
    } else {
      var begun := ops + [PutNest(a.typ)];
      var inner := begun + ScriptAll(a.children);
      ExecThen(ops, PutNest(a.typ));
      ScriptAllRuns(begun, a.children);
      ExecThen(inner, PutDone);
      ApplyNest(Exec(ops), a);
      assert ops + ([PutNest(a.typ)] + ScriptAll(a.children) + [PutDone]) == inner + [PutDone];
    }
  }

  lemma {:induction false} ScriptAllRuns(ops: seq<Op>, s: seq<Attr>)
    requires forall i :: 0 <= i < |s| ==> TypesFit(s[i])
    ensures var d := Exec(ops); Exec(ops + ScriptAll(s)) == Draft(PushAll(d.levels, s), d.types)
    decreases s
  {
    hide Exec, Script, Apply;
    var d := Exec(ops);
    if s == [] {
      assert ops + [] == ops;
      var n := |d.levels| - 1;
      assert d.levels[n] + s == d.levels[n];
      assert PushAll(d.levels, s) == d.levels;
    } else {
      ScriptRuns(ops, s[0]);
      ScriptAllRuns(ops + Script(s[0]), s[1..]);
      assert ops + (Script(s[0]) + ScriptAll(s[1..])) == ops + Script(s[0]) + ScriptAll(s[1..]);
      var n := |d.levels| - 1;
      assert d.levels[n] + [s[0]] + s[1..] == d.levels[n] + s;
    }
  }

  lemma {:induction false} ExecThen(ops: seq<Op>, op: Op)
    ensures Exec(ops + [op]) == Apply(Exec(ops), op)
  {
    hide Apply;
    assert (ops + [op])[..|ops|] == ops;
  }

  lemma {:induction false} ApplyLeaf(d: Draft, a: Attr)
    requires DraftOk(d) && a.Leaf? && a.typ < 65536
    ensures Apply(d, PutAttr(a.typ, a.data)) == Draft(Push(d.levels, a), d.types)
  {
  }

  lemma {:induction false} ApplyNest(d: Draft, a: Attr)
    requires DraftOk(d) && a.Nest? && a.typ < 65536
    ensures var begun := Apply(d, PutNest(a.typ));
            Apply(Draft(PushAll(begun.levels, a.children), begun.types), PutDone) == Draft(Push(d.levels, a), d.types)
  {
    var n := |d.types|;
    var l := PushAll(d.levels + [[]], a.children);
    assert l[..n + 1] == d.levels;
    assert l[n + 1] == a.children;
    assert (d.types + [a.typ])[..n] == d.types;
  }

  /** The script of a forest writes that forest: with ExecScript, the sequences of
      calls that balance and the forests determine each other. */
  lemma {:induction false} ForestRuns(s: seq<Attr>)
    requires forall i :: 0 <= i < |s| ==> TypesFit(s[i])
    ensures Exec(ScriptAll(s)) == Draft([s], [])
  {
    ScriptAllRuns([], s);
    hide ScriptAll, Exec;
    ExecNone();
    assert [] + ScriptAll(s) == ScriptAll(s);
    var one: seq<seq<Attr>> := [[]];
    assert one[0] + s == s;
    assert PushAll(one, s) == [s];
  }

  /** Any balanced sequence of calls that fits is the script of exactly one
      forest, and the bytes it leaves decode to that forest. */
  method BuildAndRead(msg: Nlmsg, ops: seq<Op>, isNest: seq<nat> -> bool) returns (ghost forest: seq<Attr>)
    requires msg.Valid() && Draft(msg.levels, msg.types) == EMPTY
    requires AllAllowed(msg.base, ops) && WellTyped(ops) && Exec(ops).types == []
    modifies msg, msg.buf, msg.nested
    ensures msg.Valid() && msg.nesting == 0 && msg.pos % 4 == 0
    ensures ScriptAll(forest) == ops
    ensures msg.buf[msg.base..msg.pos] == EncodeAll(forest)
    ensures (forall i :: 0 <= i < |forest| ==> Conforms(forest[i], isNest, [])) ==>
              Decode(msg.buf[msg.base..msg.pos], isNest, []) == Some(forest)
  {
    ExecScript(msg.base, ops);
    var ok := Build(msg, ops);
    msg.PosAligned();
    forest := msg.levels[0];
    assert msg.buf[..][msg.base..msg.pos] == msg.buf[msg.base..msg.pos];
    if forall i :: 0 <= i < |forest| ==> Conforms(forest[i], isNest, []) {
      RoundTrip(forest, isNest, []);
    }
  }

  // ---- the walk in netlink_query_family_id ----

  /** The first attribute of the wanted type, or none. */
  ghost function FirstOf(s: seq<Attr>, want: nat): Option<Attr> {
    if s == [] then None else if s[0].typ == want then Some(s[0]) else FirstOf(s[1..], want)
  }

  ghost function IdOf(a: Option<Attr>): nat {
    if a.Some? && |Body(a.value)| >= 2 then FromLe16(Body(a.value)) else 0
  }

  /** How the loop ends on the n bytes received into the buffer b. `Stuck`: it
      meets an attribute of length 0 and never moves on. `Outside`: it reads past
      the end of the buffer. */
  datatype Outcome = Walked(id: nat) | Stuck | Outside

  function WalkFrom(b: seq<Byte>, n: nat, attr: nat, want: nat): Outcome
    requires n <= |b|
    decreases n - attr
  {
    if attr >= n then Walked(0)
    else if attr + HDR > |b| then Outside
    else if FromLe16(b[attr + 2..]) == want then
      if attr + HDR + 2 <= |b| then Walked(FromLe16(b[attr + HDR..])) else Outside
    else if FromLe16(b[attr..]) == 0 then Stuck
    else WalkFrom(b, n, attr + Align(FromLe16(b[attr..])), want)
  }

  /** At attr the loop reads a header of another type and moves on. */
  ghost predicate Moves(b: seq<Byte>, n: nat, want: nat, attr: nat) {
    && attr < n && attr + HDR <= |b|
    && FromLe16(b[attr + 2..]) != want && FromLe16(b[attr..]) > 0
  }

  /** At attr it ends: all n bytes are behind it, or it reads the wanted value. */
  ghost predicate Ends(b: seq<Byte>, n: nat, want: nat, attr: nat) {
    attr >= n || (attr + HDR + 2 <= |b| && FromLe16(b[attr + 2..]) == want)
  }

  /** At attr it reads a header of another type and length 0, so it stays there. */
  ghost predicate Stays(b: seq<Byte>, n: nat, want: nat, attr: nat) {
    && attr < n && attr + HDR <= |b|
    && FromLe16(b[attr + 2..]) != want && FromLe16(b[attr..]) == 0
  }

  /** The headers that the loop visits, one aligned length after the other. */
  ghost predicate Visits(b: seq<Byte>, n: nat, from: nat, want: nat, ps: seq<nat>) {
    && |ps| > 0 && ps[0] == from
    && forall i :: 0 <= i < |ps| - 1 ==>
         Moves(b, n, want, ps[i]) && ps[i + 1] == ps[i] + Align(FromLe16(b[ps[i]..]))
  }

  ghost predicate EndsAfter(b: seq<Byte>, n: nat, from: nat, want: nat, ps: seq<nat>) {
    Visits(b, n, from, want, ps) && Ends(b, n, want, ps[|ps| - 1])
  }

  ghost predicate StaysAfter(b: seq<Byte>, n: nat, from: nat, want: nat, ps: seq<nat>) {
    Visits(b, n, from, want, ps) && Stays(b, n, want, ps[|ps| - 1])
  }

  /** The loop goes on from the last header visited. */
  lemma {:induction false} VisitsDecide(b: seq<Byte>, n: nat, from: nat, want: nat, ps: seq<nat>)
    requires n <= |b| && Visits(b, n, from, want, ps)
    ensures WalkFrom(b, n, from, want) == WalkFrom(b, n, ps[|ps| - 1], want)
    decreases |ps|
  {
    hide FromLe16, Align;
    if |ps| > 1 {
      assert Moves(b, n, want, ps[0]);
      assert Visits(b, n, ps[1], want, ps[1..]);
      VisitsDecide(b, n, ps[1], want, ps[1..]);
    }
  }

  /** The headers up to the one where it does not move on. */
  lemma {:induction false} AllVisited(b: seq<Byte>, n: nat, from: nat, want: nat) returns (ps: seq<nat>)
    requires n <= |b|
    ensures Visits(b, n, from, want, ps) && !Moves(b, n, want, ps[|ps| - 1])
    decreases n - from
  {
    ps := [from];
    if Moves(b, n, want, from) {
      var len := FromLe16(b[from..]);
      AlignDigits(len);
      hide FromLe16, Align, Moves;
      var rest := AllVisited(b, n, from + Align(len), want);
      ps := [from] + rest;
      forall i | 0 <= i < |ps| - 1
        ensures Moves(b, n, want, ps[i]) && ps[i + 1] == ps[i] + Align(FromLe16(b[ps[i]..]))
      {
        assert i > 0 ==> Moves(b, n, want, rest[i - 1]) && rest[i] == rest[i - 1] + Align(FromLe16(b[rest[i - 1]..]));
      }
    }
  }

  /** The loop ends inside the buffer exactly if the headers it visits lead to the
      wanted one or past the n bytes; it runs for ever exactly if they lead to one
      of another type and length 0. Otherwise it reads past the buffer. */
  lemma {:induction false} WalkEndsIff(b: seq<Byte>, n: nat, from: nat, want: nat)
    requires n <= |b|
    ensures WalkFrom(b, n, from, want).Walked? <==> exists ps: seq<nat> :: EndsAfter(b, n, from, want, ps)
    ensures WalkFrom(b, n, from, want).Stuck? <==> exists ps: seq<nat> :: StaysAfter(b, n, from, want, ps)
  {
    hide FromLe16, Align, Visits;
    var all := AllVisited(b, n, from, want);
    VisitsDecide(b, n, from, want, all);
    if WalkFrom(b, n, from, want).Walked? { assert EndsAfter(b, n, from, want, all); }
    if WalkFrom(b, n, from, want).Stuck? { assert StaysAfter(b, n, from, want, all); }
    if ps: seq<nat> :| EndsAfter(b, n, from, want, ps) { VisitsDecide(b, n, from, want, ps); }
    if ps: seq<nat> :| StaysAfter(b, n, from, want, ps) { VisitsDecide(b, n, from, want, ps); }
  }

  lemma {:induction false} IdAtEnd(b: seq<Byte>, n: nat, from: nat, want: nat, ps: seq<nat>)
    requires n <= |b| && EndsAfter(b, n, from, want, ps)
    ensures var last := ps[|ps| - 1];
            && (last < n ==> last + 6 <= |b|)
            && WalkFrom(b, n, from, want)
               == Walked(if last >= n then 0 else (b[last + 4] as int) + 256 * (b[last + 5] as int))
  {
    VisitsDecide(b, n, from, want, ps);
    hide Visits, Align;
    var last := ps[|ps| - 1];
    assert last < n ==> FromLe16(b[last + HDR..]) == (b[last + 4] as int) + 256 * (b[last + 5] as int);
  }

  lemma {:induction false} EveryEnd(b: seq<Byte>, n: nat, from: nat, want: nat)
    requires n <= |b| && exists ps: seq<nat> :: EndsAfter(b, n, from, want, ps)
    ensures WalkFrom(b, n, from, want).Walked?
    ensures forall ps: seq<nat> :: EndsAfter(b, n, from, want, ps) ==>
              var last := ps[|ps| - 1];
              WalkFrom(b, n, from, want).id == if last >= n then 0 else (b[last + 4] as int) + 256 * (b[last + 5] as int)
  {
    WalkEndsIff(b, n, from, want);
    hide WalkFrom;
    forall ps: seq<nat> | EndsAfter(b, n, from, want, ps)
      ensures var last := ps[|ps| - 1];
              WalkFrom(b, n, from, want).id == if last >= n then 0 else (b[last + 4] as int) + 256 * (b[last + 5] as int)
    {
      IdAtEnd(b, n, from, want, ps);
    }
  }

  /** The loop, on every reply on which it ends inside the buffer: the value after
      the header where it ends, 0 if all n bytes are behind that. */
  method FindId(b: seq<Byte>, n: nat, from: nat, want: nat) returns (id: nat)
    requires n <= |b| && exists ps: seq<nat> :: EndsAfter(b, n, from, want, ps)
    ensures WalkFrom(b, n, from, want) == Walked(id)
    ensures forall ps: seq<nat> :: EndsAfter(b, n, from, want, ps) ==>
              var last := ps[|ps| - 1];
              id == if last >= n then 0 else (b[last + 4] as int) + 256 * (b[last + 5] as int)
  {
    hide EndsAfter, FromLe16, Align;
    EveryEnd(b, n, from, want);
    ghost var walk := WalkFrom(b, n, from, want);
    id := 0;
    var attr := from;
    while attr < n
      invariant id == 0 && WalkFrom(b, n, attr, want) == walk
      decreases n - attr
    {
      if FromLe16(b[attr + 2..]) == want {
        id := FromLe16(b[attr + HDR..]);
        return;
      }
      AlignDigits(FromLe16(b[attr..]));
      attr := attr + Align(FromLe16(b[attr..]));
    }
  }

  /** On well-formed attributes it ends, with the 16-bit value of the first one of
      type `want`, or 0 if there is none. */
  lemma {:induction false} FirstIsFound(b: seq<Byte>, n: nat, from: nat, want: nat, s: seq<Attr>)
    requires from <= n <= |b| && b[from..n] == EncodeAll(s)
    requires forall i :: 0 <= i < |s| ==> Fits(s[i]) && (s[i].typ == want ==> |Body(s[i])| >= 2)
    ensures WalkFrom(b, n, from, want) == Walked(IdOf(FirstOf(s, want)))
    decreases s
  {
    hide Encode, Fits, Body, FromLe16, Align;
    if s != [] {
      var c := b[..n];
      assert c[from..] == b[from..n];
      WalkReads(c, from, s);
      SameReads(b, n, from);
      if s[0].typ != want {
        FirstIsFound(b, n, from + Align(FromLe16(b[from..])), want, s[1..]);
      } else {
        SameReads(b, n, from + 2);
      }
    }
  }

  /** Cutting the buffer off at n changes no field before n. */
  lemma SameReads(b: seq<Byte>, n: nat, at: nat)
    requires at + HDR <= n <= |b|
    ensures FromLe16(b[..n][at..]) == FromLe16(b[at..]) && FromLe16(b[..n][at + 2..]) == FromLe16(b[at + 2..])
  {
  }

  /** The loop never ends on a zeroed header after the generic netlink header. */
  lemma ZeroIsStuck(want: nat)
    requires want > 0
    ensures WalkFrom(Zeros(4096), 24, 20, want) == Stuck
  {
    var b := Zeros(4096);
    assert b[22..][0] == b[22] == 0 && b[22..][1] == b[23] == 0;
    assert b[20..][0] == b[20] == 0 && b[20..][1] == b[21] == 0;
  }

  lemma {:induction false} WalkReads(b: seq<Byte>, attr: nat, rest: seq<Attr>)
    requires attr < |b| && b[attr..] == EncodeAll(rest) && rest != [] && Fits(rest[0])
    ensures attr + HDR <= |b| && FromLe16(b[attr + 2..]) == rest[0].typ
    ensures attr < attr + Align(FromLe16(b[attr..])) <= |b| && FromLe16(b[attr..]) > 0
    ensures b[attr + Align(FromLe16(b[attr..]))..] == EncodeAll(rest[1..])
    ensures |Body(rest[0])| >= 2 ==> attr + HDR + 2 <= |b| && FromLe16(b[attr + HDR..]) == FromLe16(Body(rest[0]))
  {
    var c := b[attr..];
    HeaderReads(rest[0], EncodeAll(rest[1..]));
    hide Encode, Body, Fits, EncodeAll;
    var len := LenAt(c);
    assert c[Align(len)..] == b[attr + Align(len)..];
    assert c[2..] == b[attr + 2..];
    assert c[HDR..] == b[attr + HDR..];
    if |Body(rest[0])| >= 2 {
      assert c[HDR..len][..2] == c[HDR..][..2];
    }
  }
}
