/** The page scans of random/scan.c. A page is its index in memmap; the fields of
    struct page are arrays over those indices. */
module Scan {
  import opened Bits

  // ---- permutations of the pages ----

  function Iota(n: nat): (s: seq<nat>)
    ensures |s| == n && forall i :: 0 <= i < n ==> s[i] == i
  {
    seq(n, i => i)
  }

  /** s holds every page exactly once. */
  ghost predicate Permutes(s: seq<nat>, n: nat) {
    multiset(s) == multiset(Iota(n))
  }

  lemma {:induction false} CountIota(n: nat, x: nat)
    ensures multiset(Iota(n))[x] == if x < n then 1 else 0
  {
    if n > 0 {
      assert Iota(n) == Iota(n - 1) + [n - 1];
      CountIota(n - 1, x);
    }
  }

  lemma {:induction false} OccursTwice(s: seq<nat>, i: nat, j: nat)
    requires i < j < |s| && s[i] == s[j]
    ensures multiset(s)[s[i]] >= 2
  {
    assert s == s[..j] + [s[j]] + s[j + 1..];
    assert multiset(s) == multiset(s[..j]) + multiset{s[j]} + multiset(s[j + 1..]);
    assert s[..j][i] in multiset(s[..j]);
  }

  lemma {:induction false} PermutesMeans(s: seq<nat>, n: nat)
    requires Permutes(s, n)
    ensures |s| == n
    ensures forall i :: 0 <= i < n ==> s[i] < n
    ensures forall i, j :: 0 <= i < j < n ==> s[i] != s[j]
    ensures forall x: nat {:trigger x in s} :: x < n ==> x in s
  {
    assert |s| == |multiset(s)| == |multiset(Iota(n))| == |Iota(n)|;
    forall i | 0 <= i < n ensures s[i] < n {
      CountIota(n, s[i]);
      assert s[i] in multiset(s);
    }
    forall i, j | 0 <= i < j < n ensures s[i] != s[j] {
      CountIota(n, s[i]);
      if s[i] == s[j] { OccursTwice(s, i, j); }
    }
    forall x: nat | x < n ensures x in s {
      CountIota(n, x);
      assert x in multiset(s);
    }
  }

  // ---- sums ----

  ghost function Total(s: seq<nat>, age: seq<nat>): nat
    requires forall i :: 0 <= i < |s| ==> s[i] < |age|
  {
    if s == [] then 0 else Total(s[..|s| - 1], age) + age[s[|s| - 1]]
  }

  lemma {:induction false} TotalConcat(s: seq<nat>, t: seq<nat>, age: seq<nat>)
    requires forall i :: 0 <= i < |s| ==> s[i] < |age|
    requires forall i :: 0 <= i < |t| ==> t[i] < |age|
    ensures Total(s + t, age) == Total(s, age) + Total(t, age)
  {
    if t == [] {
      assert s + t == s;
    } else {
      var n := |t| - 1;
      assert (s + t)[..|s| + n] == s + t[..n];
      TotalConcat(s, t[..n], age);
    }
  }

  lemma {:induction false} TotalMiddle(a: seq<nat>, x: nat, b: seq<nat>, age: seq<nat>)
    requires x < |age|
    requires forall i :: 0 <= i < |a| ==> a[i] < |age|
    requires forall i :: 0 <= i < |b| ==> b[i] < |age|
    ensures Total(a + [x] + b, age) == Total(a + b, age) + age[x]
  {
    assert Total([x], age) == age[x] by { assert [x][..0] == []; }
    TotalConcat(a, b, age);
    TotalConcat(a + [x], b, age);
    TotalConcat(a, [x], age);
  }

  lemma {:induction false} DropOne(a: seq<nat>, x: nat, b: seq<nat>)
    ensures multiset(a + b) == multiset(a + [x] + b) - multiset{x}
  {
  }

  lemma {:induction false} Around(s: seq<nat>, k: nat)
    requires k < |s|
    ensures s == s[..k] + [s[k]] + s[k + 1..]
    ensures multiset(s[..k] + s[k + 1..]) == multiset(s) - multiset{s[k]}
  {
    assert s == s[..k] + [s[k]] + s[k + 1..];
    DropOne(s[..k], s[k], s[k + 1..]);
  }

  lemma {:induction false} Place(s: seq<nat>, t: seq<nat>, n: nat) returns (k: nat)
    requires multiset(s) == multiset(t) && n < |s|
    ensures k < |t| && t[k] == s[n]
  {
    assert s[n] in multiset(s);
    assert s[n] in t;
    k :| 0 <= k < |t| && t[k] == s[n];
  }

  lemma {:induction false} TakeOut(s: seq<nat>, t: seq<nat>) returns (k: nat)
    requires multiset(s) == multiset(t) && |s| > 0
    ensures k < |t| && t[k] == s[|s| - 1] && t == t[..k] + [t[k]] + t[k + 1..]
    ensures multiset(s[..|s| - 1]) == multiset(t[..k] + t[k + 1..])
  {
    var n := |s| - 1;
    k := Place(s, t, n);
    Around(t, k);
    Around(s, n);
    assert s[..n] + s[n + 1..] == s[..n];
  }

  /** The order of the pages does not matter to their total. */
  lemma {:induction false} TotalPermuted(s: seq<nat>, t: seq<nat>, age: seq<nat>)
    requires multiset(s) == multiset(t)
    requires forall i :: 0 <= i < |s| ==> s[i] < |age|
    requires forall i :: 0 <= i < |t| ==> t[i] < |age|
    ensures Total(s, age) == Total(t, age)
  {
    if s == [] {
      assert |multiset(t)| == 0;
    } else {
      var k := TakeOut(s, t);
      TotalPermuted(s[..|s| - 1], t[..k] + t[k + 1..], age);
      TotalMiddle(t[..k], t[k], t[k + 1..], age);
    }
  }

  function Gauss(n: nat): nat {
    n * (n - 1) / 2
  }

  lemma GaussStep(n: nat)
    ensures Gauss(n + 1) == Gauss(n) + n
  {
    assert (n + 1) * n == n * (n - 1) + 2 * n;
  }

  /** Aged by position, the pages total 0 + 1 + ... + (n - 1). */
  lemma {:induction false} TotalByPosition(s: seq<nat>, age: seq<nat>, n: nat)
    requires n <= |s| && forall i :: 0 <= i < |s| ==> s[i] < |age| && age[s[i]] == i
    ensures Total(s[..n], age) == Gauss(n)
  {
    if n > 0 {
      assert s[..n][..n - 1] == s[..n - 1];
      TotalByPosition(s, age, n - 1);
      GaussStep(n - 1);
    }
  }

  lemma {:induction false} TotalSnoc(s: seq<nat>, k: nat, age: seq<nat>)
    requires k < |s| && forall i :: 0 <= i < |s| ==> s[i] < |age|
    ensures Total(s[..k + 1], age) == Total(s[..k], age) + age[s[k]]
  {
    assert s[..k + 1][..k] == s[..k];
  }

  lemma WrapSum(total: nat, x: nat)
    ensures Wrap(Wrap(total) + x) == Wrap(total + x)
  {
    WrapAdd(total, x);
  }

  // ---- the shuffle ----

  lemma {:induction false} SwapPermutes(s: seq<nat>, i: nat, j: nat, n: nat)
    requires Permutes(s, n) && j <= i < |s|
    ensures Permutes(s[j := s[i]][i := s[j]], n)
  {
    var t := s[j := s[i]][i := s[j]];
    assert multiset(t) == multiset(s);
  }

  /** `page->next` follows `order`, cyclically, and `page->age` is the position. */
  ghost predicate Ring(order: seq<nat>, next: seq<nat>, age: seq<nat>) {
    var n := |order|;
    && |next| == |age| == n
    && (forall i :: 0 <= i < n ==> order[i] < n)
    && (forall i :: 0 <= i < n ==> age[order[i]] == i)
    && (forall i :: 0 <= i < n ==> next[order[i]] == order[if i + 1 == n then 0 else i + 1])
  }

  /** `(i - 1) % count` on unsigned longs. */
  function Before(i: nat, n: nat): nat
    requires n > 0
  {
    Wrap(i - 1) % n
  }

  /** `prev` inverts `next` at position i, except that at the first position it
      does so only when the count divides 2^64. */
  lemma {:induction false} BeforeIs(i: nat, n: nat)
    requires i < n <= WORD
    ensures i > 0 ==> Before(i, n) == i - 1
    ensures i == 0 ==> Before(i, n) == if WORD % n == 0 then n - 1 else WORD % n - 1
  {
    if i > 0 {
      WrapSmall(i - 1);
      DivideSmall(i - 1, n);
    } else {
      assert Wrap(-1) == WORD - 1;
      var q, r := (WORD - 1) / n, (WORD - 1) % n;
      assert WORD == q * n + r + 1;
      if r == n - 1 {
        assert WORD == (q + 1) * n;
        MultipleMod(q + 1, n);
      } else {
        Remainder(q, n, r + 1);
      }
    }
  }

  /** `prev` inverts `next` on every page exactly if the count divides 2^64. */
  lemma {:induction false} PrevInverts(o: seq<nat>, next: seq<nat>, prev: seq<nat>, age: seq<nat>)
    requires Permutes(o, |o|) && 0 < |o| <= WORD && Ring(o, next, age) && BackLinks(o, prev)
    ensures forall x: nat :: x < |o| ==> next[x] < |o|
    ensures (forall x: nat :: x < |o| ==> prev[next[x]] == x) <==> WORD % |o| == 0
  {
    var n := |o|;
    PermutesMeans(o, n);
    hide Permutes, Before;
    forall x: nat | x < n ensures next[x] < n && (x != o[n - 1] ==> prev[next[x]] == x) {
      assert x in o;
      var i :| 0 <= i < n && o[i] == x;
      BeforeIs(if i + 1 == n then 0 else i + 1, n);
    }
    BeforeIs(0, n);
    assert next[o[n - 1]] == o[0] && prev[o[0]] == o[Before(0, n)];
  }

  /** With three pages the first page is its own predecessor. */
  lemma {:induction false} ThreePages(o: seq<nat>, next: seq<nat>, prev: seq<nat>, age: seq<nat>)
    requires Permutes(o, 3) && |o| == 3 && Ring(o, next, age) && BackLinks(o, prev)
    ensures o[0] < 3 && o[2] < 3 && prev[o[0]] == o[0] && next[o[2]] == o[0] && o[0] != o[2]
  {
    PermutesMeans(o, 3);
    hide Permutes;
    assert Wrap(-1) == WORD - 1 && (WORD - 1) % 3 == 0;
  }

  lemma DivideSmall(x: nat, n: nat)
    requires x < n
    ensures x % n == x
  {
  }

  lemma MultipleMod(q: nat, n: nat)
    requires n > 0
    ensures q * n % n == 0
  {
    Remainder(q, n, 0);
  }

  lemma Remainder(q: nat, n: nat, r: nat)
    requires r < n
    ensures (q * n + r) % n == r
  {
    DivUnique(q * n + r, n, q, r);
  }

  /** `mrand48() % (i + 1)`. */
  function Pick(random: nat -> nat, i: nat): (j: nat)
    ensures j <= i
  {
    random(i) % (i + 1)
  }

  function Swapped(s: seq<nat>, i: nat, j: nat): (r: seq<nat>)
    requires i < |s| && j < |s|
    ensures |r| == |s|
  {
    s[j := s[i]][i := s[j]]
  }

  /** s after the first i - 1 swaps. */
  ghost function Shuffled(s: seq<nat>, random: nat -> nat, i: nat): (r: seq<nat>)
    requires 1 <= i <= |s|
    ensures |r| == |s|
  {
    if i == 1 then s else Swapped(Shuffled(s, random, i - 1), i - 1, Pick(random, i - 1))
  }

  /** The draws of the first n - 1 swaps are in range. */
  ghost predicate InRange(random: nat -> nat, n: nat) {
    forall i :: 1 <= i < n ==> random(i) <= i
  }

  /** The position drawn for i is the one of 0 .. i that the random number is
      congruent to. */
  lemma {:induction false} PickIs(random: nat -> nat, i: nat, j: nat, q: nat)
    requires j <= i && random(i) == q * (i + 1) + j
    ensures Pick(random, i) == j
  {
    Remainder(q, i + 1, j);
  }

  ghost predicate Agree(random: nat -> nat, random': nat -> nat, n: nat) {
    forall i :: 1 <= i < n ==> random(i) == random'(i)
  }

  /** Only the numbers drawn so far matter. */
  lemma {:induction false} SameDraws(s: seq<nat>, random: nat -> nat, random': nat -> nat, i: nat)
    requires 1 <= i <= |s| && Agree(random, random', i)
    ensures Shuffled(s, random, i) == Shuffled(s, random', i)
  {
    if i > 1 {
      SameDraws(s, random, random', i - 1);
    }
  }

  /** The pages from position i on have not moved after i - 1 swaps. */
  lemma {:induction false} RestStays(s: seq<nat>, random: nat -> nat, i: nat, k: nat)
    requires 1 <= i <= k < |s|
    ensures Shuffled(s, random, i)[k] == s[k]
  {
    if i > 1 {
      RestStays(s, random, i - 1, k);
    }
  }

  lemma {:induction false} SwapBack(s: seq<nat>, i: nat, j: nat)
    requires j <= i < |s|
    ensures Swapped(Swapped(s, i, j), i, j) == s && multiset(Swapped(s, i, j)) == multiset(s)
  {
  }

  /** p is an arrangement of s that differs from it only in the first i positions. */
  ghost predicate SameFrom(s: seq<nat>, p: seq<nat>, i: nat) {
    i <= |s| == |p| && multiset(p) == multiset(s) && p[i..] == s[i..]
  }

  /** Any order that differs from s only in the first i positions comes up. */
  lemma {:induction false} OrderComesUp(s: seq<nat>, p: seq<nat>, i: nat) returns (random: nat -> nat)
    requires 1 <= i <= |s| && SameFrom(s, p, i)
    ensures Shuffled(s, random, i) == p && InRange(random, i)
    decreases i
  {
    if i == 1 {
      FirstFollows(s, p);
      random := k => 0;
    } else {
      hide *;
      var j, p' := Unswap(s, p, i - 1);
      var random' := OrderComesUp(s, p', i - 1);
      random := Extended(random', i - 1, j);
      LastDraw(s, random', random, i);
    }
  }

  lemma {:induction false} Unswap(s: seq<nat>, p: seq<nat>, i: nat) returns (j: nat, p': seq<nat>)
    requires 1 <= i < |s| && SameFrom(s, p, i + 1)
    ensures j <= i && |p'| == |s| && SameFrom(s, p', i) && Swapped(p', i, j) == p
  {
    j := PlaceBefore(s, p, i + 1);
    p' := Swapped(p, i, j);
    SwapBack(p, i, j);
    RestAfterSwap(s, p, i + 1, j);
  }

  lemma {:induction false} Extended(random: nat -> nat, i: nat, j: nat) returns (random': nat -> nat)
    requires j <= i && InRange(random, i)
    ensures InRange(random', i + 1) && Agree(random, random', i) && random'(i) == j
  {
    random' := k => if k == i then j else random(k);
  }

  /** What the last of i - 1 swaps does to the order before it. */
  lemma {:induction false} LastDraw(s: seq<nat>, random: nat -> nat, random': nat -> nat, i: nat)
    requires 2 <= i <= |s| && InRange(random', i) && Agree(random, random', i - 1)
    ensures random'(i - 1) < i
    ensures Shuffled(s, random', i) == Swapped(Shuffled(s, random, i - 1), i - 1, random'(i - 1))
  {
    SameDraws(s, random, random', i - 1);
    PickIs(random', i - 1, random'(i - 1), 0);
    hide Swapped, Pick;
  }

  /** If all but the first are in place, so is the first. */
  lemma {:induction false} FirstFollows(s: seq<nat>, p: seq<nat>)
    requires 1 <= |s| && SameFrom(s, p, 1)
    ensures p == s
  {
    var j := PlaceBefore(s, p, 1);
    assert s == [s[0]] + s[1..] && p == [p[0]] + p[1..];
  }

  /** The page that belongs at i - 1 is among the first i of p. */
  lemma {:induction false} PlaceBefore(s: seq<nat>, p: seq<nat>, i: nat) returns (j: nat)
    requires 1 <= i <= |s| && SameFrom(s, p, i)
    ensures j < i && p[j] == s[i - 1]
  {
    var a, b, rest := s[..i], p[..i], s[i..];
    assert s == a + rest && p == b + rest;
    SameStart(a, b, rest);
    j := Place(a, b, i - 1);
  }

  lemma {:induction false} SameStart(a: seq<nat>, b: seq<nat>, rest: seq<nat>)
    requires multiset(a + rest) == multiset(b + rest)
    ensures multiset(a) == multiset(b)
  {
    assert multiset(a) + multiset(rest) == multiset(b) + multiset(rest);
    assert multiset(a) == multiset(a) + multiset(rest) - multiset(rest);
    assert multiset(b) == multiset(b) + multiset(rest) - multiset(rest);
  }

  lemma {:induction false} RestAfterSwap(s: seq<nat>, p: seq<nat>, i: nat, j: nat)
    requires 1 < i <= |s| && SameFrom(s, p, i) && j < i && p[j] == s[i - 1]
    ensures Swapped(p, i - 1, j)[i - 1..] == s[i - 1..]
  {
    var x, y := Swapped(p, i - 1, j)[i - 1..], s[i - 1..];
    assert x == [p[j]] + p[i..];
    assert y == [s[i - 1]] + s[i..];
  }

  /** Every permutation of the pages is the result of some random stream in range. */
  lemma {:induction false} EveryOrder(p: seq<nat>, n: nat)
    requires n > 0 && Permutes(p, n)
    ensures exists random: nat -> nat :: InRange(random, n) && Shuffled(Iota(n), random, n) == p
  {
    PermutesMeans(p, n);
    assert p[n..] == [] == Iota(n)[n..];
    hide Shuffled;
    var random := OrderComesUp(Iota(n), p, n);
  }

  ghost predicate Different(s: seq<nat>) {
    forall i, j :: 0 <= i < j < |s| ==> s[i] != s[j]
  }

  lemma {:induction false} ShuffledDiffers(s: seq<nat>, random: nat -> nat, i: nat)
    requires 1 <= i <= |s| && Different(s)
    ensures Different(Shuffled(s, random, i))
  {
    if i > 1 {
      ShuffledDiffers(s, random, i - 1);
      var r, j := Shuffled(s, random, i - 1), Pick(random, i - 1);
      SwapDiffers(r, i - 1, j);
      hide Swapped, Different;
    }
  }

  lemma {:induction false} SwapDiffers(s: seq<nat>, i: nat, j: nat)
    requires j <= i < |s| && Different(s)
    ensures Different(Swapped(s, i, j))
  {
  }

  /** From the order one can read off the numbers that were drawn. */
  lemma {:induction false} DrawsFollow(s: seq<nat>, random: nat -> nat, random': nat -> nat, i: nat, k: nat)
    requires 1 <= k < i <= |s| && Different(s) && InRange(random, i) && InRange(random', i)
    requires Shuffled(s, random, i) == Shuffled(s, random', i)
    ensures random(k) == random'(k)
  {
    hide Shuffled, Different, InRange;
    LastDrawFollows(s, random, random', i);
    if k < i - 1 {
      FewerInRange(random, i);
      FewerInRange(random', i);
      DrawsFollow(s, random, random', i - 1, k);
    }
  }

  lemma {:induction false} AgreesWithItself(random: nat -> nat, i: nat)
    ensures Agree(random, random, i)
  {
  }

  lemma {:induction false} FewerInRange(random: nat -> nat, i: nat)
    requires i > 0 && InRange(random, i)
    ensures InRange(random, i - 1)
  {
  }

  lemma {:induction false} LastDrawFollows(s: seq<nat>, random: nat -> nat, random': nat -> nat, i: nat)
    requires 2 <= i <= |s| && Different(s) && InRange(random, i) && InRange(random', i)
    requires Shuffled(s, random, i) == Shuffled(s, random', i)
    ensures random(i - 1) == random'(i - 1) && Shuffled(s, random, i - 1) == Shuffled(s, random', i - 1)
  {
    hide InRange, Agree, Shuffled, Swapped, Different, Pick;
    AgreesWithItself(random, i - 1);
    AgreesWithItself(random', i - 1);
    LastDraw(s, random, random, i);
    LastDraw(s, random', random', i);
    var r, r' := Shuffled(s, random, i - 1), Shuffled(s, random', i - 1);
    RestStays(s, random, i - 1, i - 1);
    RestStays(s, random', i - 1, i - 1);
    ShuffledDiffers(s, random, i - 1);
    SameSwap(r, r', i - 1, random(i - 1), random'(i - 1));
  }

  lemma {:induction false} SameSwap(r: seq<nat>, r': seq<nat>, i: nat, j: nat, j': nat)
    requires j <= i < |r| == |r'| && j' <= i && r[i] == r'[i] && Different(r)
    requires Swapped(r, i, j) == Swapped(r', i, j')
    ensures j == j' && r == r'
  {
    SwapDiffers(r, i, j);
    var p := Swapped(r, i, j);
    assert p[j] == r[i] && p[j'] == r'[i];
    SwapBack(r, i, j);
    SwapBack(r', i, j');
  }

  /** Two streams in range that differ in a draw give different orders. */
  lemma {:induction false} OrdersDiffer(n: nat, random: nat -> nat, random': nat -> nat, k: nat)
    requires 1 <= k < n && InRange(random, n) && InRange(random', n) && random(k) != random'(k)
    ensures Shuffled(Iota(n), random, n) != Shuffled(Iota(n), random', n)
  {
    if Shuffled(Iota(n), random, n) == Shuffled(Iota(n), random', n) {
      DrawsFollow(Iota(n), random, random', n, k);
    }
  }

  /** Knuth's shuffle: whatever the random numbers, a permutation. */
  method Permute(order: array<nat>, random: nat -> nat)
    requires 0 < order.Length <= WORD && Permutes(order[..], order.Length)
    modifies order
    ensures Permutes(order[..], order.Length)
    ensures order[..] == Shuffled(old(order[..]), random, order.Length)
  {
    hide Permutes, Shuffled;
    ghost var s, n := order[..], order.Length;
    ShuffledNone(s, random);
    var i := 1;
    while i < order.Length
      invariant 1 <= i <= n == order.Length == |s|
      invariant Permutes(order[..], n)
      invariant order[..] == Shuffled(s, random, i)
    {
      ShuffleStep(order, random, i, s);
      i := i + 1;
    }
  }

  method ShuffleStep(order: array<nat>, random: nat -> nat, i: nat, ghost s: seq<nat>)
    requires 1 <= i < order.Length == |s| && Permutes(order[..], |s|) && order[..] == Shuffled(s, random, i)
    modifies order
    ensures Permutes(order[..], |s|) && order[..] == Shuffled(s, random, i + 1)
  {
    hide Permutes, Shuffled, Pick;
    var j := Pick(random, i);
    SwapPermutes(order[..], i, j, |s|);
    ShuffledNext(s, random, i);
    SwapPages(order, i, j);
  }

  method SwapPages(order: array<nat>, i: nat, j: nat)
    requires j <= i < order.Length
    modifies order
    ensures order[..] == old(order[..])[j := old(order[i])][i := old(order[j])]
  {
    var page := order[j];
    order[j] := order[i];
    order[i] := page;
  }

  lemma {:induction false} ShuffledNone(s: seq<nat>, random: nat -> nat)
    requires s != []
    ensures Shuffled(s, random, 1) == s
  {
  }

  lemma {:induction false} ShuffledNext(s: seq<nat>, random: nat -> nat, i: nat)
    requires 1 <= i < |s|
    ensures Shuffled(s, random, i + 1) == Swapped(Shuffled(s, random, i), i, Pick(random, i))
  {
  }

  ghost predicate Arranged(o: seq<nat>) {
    (forall i :: 0 <= i < |o| ==> o[i] < |o|) && (forall i, j :: 0 <= i < j < |o| ==> o[i] != o[j])
  }

  /** Field f of the first i pages of the order is as in `want`. */
  ghost predicate Stored(o: seq<nat>, f: seq<nat>, want: seq<nat>, i: nat) {
    |f| == |o| == |want| && i <= |o| && forall k :: 0 <= k < i ==> o[k] < |o| && f[o[k]] == want[k]
  }

  lemma {:induction false} StoreNext(o: seq<nat>, f: seq<nat>, want: seq<nat>, i: nat)
    requires Arranged(o) && Stored(o, f, want, i) && i < |o|
    ensures Stored(o, f[o[i] := want[i]], want, i + 1)
  {
  }

  ghost function Following(o: seq<nat>): (r: seq<nat>)
    requires |o| > 0
    ensures |r| == |o|
  {
    o[1..] + [o[0]]
  }

  ghost function Preceding(o: seq<nat>): (r: seq<nat>)
    requires |o| > 0
    ensures |r| == |o|
  {
    seq(|o|, i requires 0 <= i < |o| => o[Before(i, |o|)])
  }

  lemma {:induction false} RingStored(o: seq<nat>, next: seq<nat>, prev: seq<nat>, age: seq<nat>)
    requires |o| > 0 && Arranged(o) && Stored(o, next, Following(o), |o|) && Stored(o, age, Iota(|o|), |o|)
    requires Stored(o, prev, Preceding(o), |o|)
    ensures Ring(o, next, age)
    ensures BackLinks(o, prev)
  {
    hide Before;
    var n := |o|;
    forall i | 0 <= i < n ensures next[o[i]] == o[if i + 1 == n then 0 else i + 1] {
      assert Following(o)[i] == o[if i + 1 == n then 0 else i + 1];
    }
  }

  lemma {:induction false} After(o: seq<nat>, i: nat)
    requires i < |o|
    ensures o[(i + 1) % |o|] == Following(o)[i]
  {
    if i + 1 < |o| { DivideSmall(i + 1, |o|); }
  }

  /** `page->prev`, from the last page to the first. */
  ghost predicate BackLinks(o: seq<nat>, prev: seq<nat>) {
    |prev| == |o| && forall i :: 0 <= i < |o| ==> o[i] < |prev| && prev[o[i]] == o[Before(i, |o|)]
  }

  lemma {:induction false} PermutesArranged(o: seq<nat>)
    requires Permutes(o, |o|)
    ensures Arranged(o)
  {
    PermutesMeans(o, |o|);
  }

  method LinkPages(order: array<nat>, next: array<nat>, prev: array<nat>, age: array<nat>)
    requires Permutes(order[..], order.Length) && 0 < order.Length <= WORD
    requires next.Length == prev.Length == age.Length == order.Length
    requires order != next && order != prev && order != age && next != prev && next != age && prev != age
    modifies next, prev, age
    ensures Ring(order[..], next[..], age[..]) && BackLinks(order[..], prev[..])
  {
    hide Permutes, Before, Stored, Following, Preceding, Ring, BackLinks, Arranged;
    var n := order.Length;
    ghost var o := order[..];
    PermutesArranged(o);
    StoredNone(o, next[..], Following(o));
    StoredNone(o, prev[..], Preceding(o));
    StoredNone(o, age[..], Iota(n));
    for i := 0 to n
      invariant order[..] == o
      invariant Stored(o, next[..], Following(o), i)
      invariant Stored(o, prev[..], Preceding(o), i)
      invariant Stored(o, age[..], Iota(n), i)
    {
      LinkPage(order, next, prev, age, i, o);
    }
    RingStored(o, next[..], prev[..], age[..]);
  }

  method LinkPage(order: array<nat>, next: array<nat>, prev: array<nat>, age: array<nat>, i: nat, ghost o: seq<nat>)
    requires i < order.Length && order[..] == o && Arranged(o)
    requires Stored(o, next[..], Following(o), i)
    requires Stored(o, prev[..], Preceding(o), i)
    requires Stored(o, age[..], Iota(order.Length), i)
    requires order != next && order != prev && order != age && next != prev && next != age && prev != age
    modifies next, prev, age
    ensures Stored(o, next[..], Following(o), i + 1)
    ensures Stored(o, prev[..], Preceding(o), i + 1)
    ensures Stored(o, age[..], Iota(order.Length), i + 1)
  {
    hide Before, Stored, Following, Preceding;
    var n := order.Length;
    After(o, i);
    PrecedingAt(o, i);
    StoredShape(o, next[..], Following(o), i);
    StoredShape(o, prev[..], Preceding(o), i);
    StoredShape(o, age[..], Iota(n), i);
    StoreNext(o, next[..], Following(o), i);
    StoreNext(o, prev[..], Preceding(o), i);
    StoreNext(o, age[..], Iota(n), i);
    assert order[i] == o[i] && order[(i + 1) % n] == o[(i + 1) % n] && order[Before(i, n)] == o[Before(i, n)];
    ghost var next', prev', age' := next[..], prev[..], age[..];
    var page := order[i];
    next[page] := order[(i + 1) % n];
    prev[page] := order[Before(i, n)];
    age[page] := i;
    assert next[..] == next'[o[i] := Following(o)[i]];
    assert prev[..] == prev'[o[i] := Preceding(o)[i]];
    assert age[..] == age'[o[i] := i];
  }

  lemma {:induction false} StoredShape(o: seq<nat>, f: seq<nat>, want: seq<nat>, i: nat)
    requires Stored(o, f, want, i)
    ensures |f| == |o| == |want|
  {
  }

  lemma {:induction false} StoredNone(o: seq<nat>, f: seq<nat>, want: seq<nat>)
    requires |f| == |o| == |want|
    ensures Stored(o, f, want, 0)
  {
  }

  lemma {:induction false} PrecedingAt(o: seq<nat>, i: nat)
    requires i < |o|
    ensures Before(i, |o|) < |o| && Preceding(o)[i] == o[Before(i, |o|)]
  {
  }

  // ---- the three scans ----

  method PhysicalScan(age: array<nat>) returns (total: nat)
    ensures total == Wrap(Total(Iota(age.Length), age[..]))
  {
    total := 0;
    var pages := Iota(age.Length);
    assert pages[..0] == [];
    for i := 0 to age.Length
      invariant total == Wrap(Total(pages[..i], age[..]))
    {
      TotalSnoc(pages, i, age[..]);
      WrapSum(Total(pages[..i], age[..]), age[i]);
      total := Wrap(total + age[i]);
    }
    assert pages[..age.Length] == pages;
  }

  method ArrayScan(order: array<nat>, age: array<nat>) returns (total: nat)
    requires forall i :: 0 <= i < order.Length ==> order[..][i] < age.Length
    ensures total == Wrap(Total(order[..], age[..]))
  {
    total := 0;
    assert order[..][..0] == [];
    for i := 0 to order.Length
      invariant total == Wrap(Total(order[..][..i], age[..]))
    {
      TotalSnoc(order[..], i, age[..]);
      WrapSum(Total(order[..][..i], age[..]), age[order[i]]);
      total := Wrap(total + age[order[i]]);
    }
    assert order[..][..order.Length] == order[..];
  }

  /** The order in which the list is met from position k on. */
  ghost function Rotate(order: seq<nat>, k: nat): seq<nat>
    requires k <= |order|
  {
    order[k..] + order[..k]
  }

  lemma {:induction false} RotatePermutes(order: seq<nat>, k: nat, n: nat)
    requires Permutes(order, n) && k <= |order|
    ensures Permutes(Rotate(order, k), n)
  {
    assert order == order[..k] + order[k..];
    assert multiset(Rotate(order, k)) == multiset(order);
  }

  lemma {:induction false} RotateLinks(order: seq<nat>, next: seq<nat>, age: seq<nat>, k: nat, j: nat)
    requires Ring(order, next, age) && k < |order| && j < |order|
    ensures var r := Rotate(order, k);
            r[j] < |next| && next[r[j]] == r[if j + 1 == |order| then 0 else j + 1]
  {
    var n, r := |order|, Rotate(order, k);
    var i := if k + j < n then k + j else k + j - n;
    assert r[j] == order[i];
    assert next[order[i]] == order[if i + 1 == n then 0 else i + 1];
  }

  /** met is one turn of the list from page 0: every page once. */
  ghost predicate Turn(met: seq<nat>, next: seq<nat>) {
    && |met| == |next| > 0 && met[0] == 0 && Permutes(met, |next|)
    && (forall j :: 0 <= j < |met| ==> met[j] < |next|)
    && (forall j :: 0 <= j < |met| ==> next[met[j]] == met[if j + 1 == |met| then 0 else j + 1])
  }

  lemma {:induction false} OneTurn(order: seq<nat>, next: seq<nat>, age: seq<nat>) returns (met: seq<nat>)
    requires Ring(order, next, age) && Permutes(order, |order|) && |order| > 0
    ensures Turn(met, next)
  {
    PermutesMeans(order, |order|);
    assert 0 in order;
    var k :| 0 <= k < |order| && order[k] == 0;
    met := Rotate(order, k);
    RotatePermutes(order, k, |order|);
    forall j | 0 <= j < |order| ensures met[j] < |next| && next[met[j]] == met[if j + 1 == |order| then 0 else j + 1] {
      RotateLinks(order, next, age, k, j);
    }
  }

  lemma {:induction false} TurnAt(met: seq<nat>, next: seq<nat>, j: nat)
    requires Turn(met, next) && j < |met|
    ensures met[j] < |next| && next[met[j]] == met[if j + 1 == |met| then 0 else j + 1]
    ensures met[j] == 0 <==> j == 0
  {
    PermutesMeans(met, |next|);
    hide Permutes;
    assert met[0] == 0;
  }

  lemma {:induction false} TurnSnoc(met: seq<nat>, next: seq<nat>, age: seq<nat>, j: nat)
    requires Turn(met, next) && |age| == |next| && j < |met|
    ensures forall i :: 0 <= i < |met| ==> met[i] < |age|
    ensures Total(met[..j + 1], age) == Total(met[..j], age) + age[met[j]]
  {
    TotalSnoc(met, j, age);
  }

  ghost function TurnTotal(met: seq<nat>, next: seq<nat>, age: seq<nat>, j: nat): nat
    requires Turn(met, next) && |age| == |next| && j <= |met|
  {
    Total(met[..j], age)
  }

  /** Following `next` from page 0 meets every page once and is back after
      exactly as many steps as there are pages. */
  method ListScan(next: array<nat>, age: array<nat>, ghost met: seq<nat>) returns (total: nat, ghost steps: nat)
    requires Turn(met, next[..]) && age.Length == next.Length
    ensures steps == next.Length
    ensures total == Wrap(TurnTotal(met, next[..], age[..], next.Length))
  {
    hide Turn, Total;
    var page := 0;
    ghost var n := next.Length;
    assert |met| == n && met[0] == 0 by { TurnShape(met, next[..]); }
    TurnAt(met, next[..], 0);
    TurnFirst(met, next[..], age[..]);
    total := Wrap(age[page]);
    page := next[page];
    steps := 1;
    while page != 0
      invariant 1 <= steps <= n
      invariant page == met[if steps == n then 0 else steps]
      invariant total == Wrap(TurnTotal(met, next[..], age[..], steps))
      decreases n - steps
    {
      TurnAt(met, next[..], steps);
      TurnSnoc(met, next[..], age[..], steps);
      WrapSum(TurnTotal(met, next[..], age[..], steps), age[page]);
      total := Wrap(total + age[page]);
      page := next[page];
      steps := steps + 1;
    }
    if steps < n {
      TurnAt(met, next[..], steps);
    }
  }

  lemma {:induction false} TurnShape(met: seq<nat>, next: seq<nat>)
    requires Turn(met, next)
    ensures |met| == |next| > 0 && met[0] == 0
  {
  }

  lemma {:induction false} TurnFirst(met: seq<nat>, next: seq<nat>, age: seq<nat>)
    requires Turn(met, next) && |age| == |next|
    ensures TurnTotal(met, next, age, 1) == age[0]
  {
    TotalSnoc(met, 0, age);
  }

  lemma {:induction false} TurnGauss(met: seq<nat>, order: seq<nat>, next: seq<nat>, age: seq<nat>)
    requires Turn(met, next) && Permutes(order, |next|) && Ring(order, next, age)
    ensures TurnTotal(met, next, age, |met|) == Gauss(|met|)
  {
    assert met[..|met|] == met;
    TotalPermuted(met, order, age);
    OrderGauss(order, next, age);
  }

  lemma {:induction false} OrderGauss(order: seq<nat>, next: seq<nat>, age: seq<nat>)
    requires Ring(order, next, age)
    ensures Total(order, age) == Gauss(|order|)
  {
    assert order[..|order|] == order;
    TotalByPosition(order, age, |order|);
  }

  /** For every random stream and every count of at least one, the three scans
      agree, on 0 + 1 + ... + (count - 1) modulo 2^64. */
  method ScanAll(count: nat, random: nat -> nat) returns (physical: nat, byArray: nat, byList: nat)
    requires 0 < count <= WORD
    ensures physical == byArray == byList == Wrap(Gauss(count))
  {
    hide Gauss, Ring, Permutes, Turn, Total, Wrap;
    var next, prev, age := new nat[count](_ => 0), new nat[count](_ => 0), new nat[count](_ => 0);
    var order := new nat[count](i => i);
    assert order[..] == Iota(count);
    IotaPermutes(count);
    Permute(order, random);
    LinkPages(order, next, prev, age);
    RingRange(order[..], next[..], age[..]);
    physical := PhysicalScan(age);
    byArray := ArrayScan(order, age);
    ghost var met := OneTurn(order[..], next[..], age[..]);
    ghost var steps;
    byList, steps := ListScan(next, age, met);
    TurnShape(met, next[..]);
    TurnGauss(met, order[..], next[..], age[..]);
    OrderGauss(order[..], next[..], age[..]);
    PhysicalGauss(order[..], next[..], age[..]);
  }

  lemma {:induction false} RingRange(order: seq<nat>, next: seq<nat>, age: seq<nat>)
    requires Ring(order, next, age)
    ensures forall i :: 0 <= i < |order| ==> order[i] < |age|
  {
  }

  lemma {:induction false} IotaPermutes(n: nat)
    ensures Permutes(Iota(n), n)
  {
  }

  lemma {:induction false} PhysicalGauss(order: seq<nat>, next: seq<nat>, age: seq<nat>)
    requires Permutes(order, |order|) && Ring(order, next, age)
    ensures Total(Iota(|age|), age) == Gauss(|age|)
  {
    TotalPermuted(Iota(|age|), order, age);
    OrderGauss(order, next, age);
  }
}
