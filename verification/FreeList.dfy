/** One bin: a circular doubly linked list through a sentinel, stored in memory.
    A node at address x keeps `next` at x + 16 and `prev` at x + 24. */
module FreeList {
  import opened Heap

  const NEXT: nat := 16
  const PREV: nat := 24

  /** Position k on the circle: the sentinel, then the elements, then the
      sentinel again. */
  function Node(s: int, L: seq<int>, k: int): int {
    if 0 < k <= |L| then L[k - 1] else s
  }

  ghost predicate Link(m: Memory, s: int, L: seq<int>, k: int) {
    var x, y := Node(s, L, k), Node(s, L, k + 1);
    && x + NEXT in m && m[x + NEXT] == y
    && y + PREV in m && m[y + PREV] == x
  }

  ghost predicate Linked(m: Memory, s: int, L: seq<int>) {
    forall k {:trigger Link(m, s, L, k)} :: 0 <= k <= |L| ==> Link(m, s, L, k)
  }

  ghost predicate Distinct(L: seq<int>) {
    forall j, k :: 0 <= j < k < |L| ==> L[j] != L[k]
  }

  /** No link field of one node is a link field of another. */
  ghost predicate Separate(s: int, L: seq<int>) {
    && Distinct(L)
    && (forall k :: 0 <= k < |L| ==> L[k] != s && L[k] != s + 8 && L[k] + 8 != s)
    && (forall j, k :: 0 <= j < |L| && 0 <= k < |L| ==> L[j] != L[k] + 8)
  }

  function Without(L: seq<int>, k: nat): seq<int>
    requires k < |L|
  {
    L[..k] + L[k + 1..]
  }

  function Unlinked(m: Memory, p: int, q: int): Memory {
    m[p + NEXT := q][q + PREV := p]
  }

  lemma {:induction false} NodeApart(s: int, L: seq<int>, j: int, k: int)
    requires Separate(s, L) && 0 <= j <= |L| && 0 <= k <= |L| && j != k
    ensures Node(s, L, j) != Node(s, L, k)
  {
  }

  lemma {:induction false} FieldApart(s: int, L: seq<int>, j: int, k: int)
    requires Separate(s, L)
    ensures Node(s, L, j) + NEXT != Node(s, L, k) + PREV
  {
  }

  lemma {:induction false} UnlinkAt(m: Memory, s: int, L: seq<int>, k: nat)
    requires k < |L| && Link(m, s, L, k) && Link(m, s, L, k + 1) && Separate(s, L)
    ensures Link(Unlinked(m, Node(s, L, k), Node(s, L, k + 2)), s, Without(L, k), k)
  {
    var L' := Without(L, k);
    assert Node(s, L', k) == Node(s, L, k) && Node(s, L', k + 1) == Node(s, L, k + 2);
    FieldApart(s, L, k, k + 2);
  }

  /** Link j of the shorter list is link i of the list, when i is not at k. */
  lemma {:induction false} UnlinkElsewhere(m: Memory, s: int, L: seq<int>, k: nat, j: nat, i: nat)
    requires k < |L| && Link(m, s, L, i) && Link(m, s, L, k) && Link(m, s, L, k + 1) && Separate(s, L)
    requires j < |L| && j != k && i == if j < k then j else j + 1
    ensures Link(Unlinked(m, Node(s, L, k), Node(s, L, k + 2)), s, Without(L, k), j)
  {
    var L' := Without(L, k);
    assert Node(s, L', j) == Node(s, L, i) && Node(s, L', j + 1) == Node(s, L, i + 1);
    FieldApart(s, L, k, i + 1);
    FieldApart(s, L, i, k + 2);
    NodeApart(s, L, i, k);
    NodeApart(s, L, if i + 1 > |L| then 0 else i + 1, if k + 2 > |L| then 0 else k + 2);
  }

  /** `c->prev->next = c->next; c->next->prev = c->prev` takes out element k. */
  lemma {:induction false} UnlinkLemma(m: Memory, s: int, L: seq<int>, k: nat)
    requires Linked(m, s, L) && Separate(s, L) && k < |L|
    ensures Linked(Unlinked(m, Node(s, L, k), Node(s, L, k + 2)), s, Without(L, k))
  {
    var m', L' := Unlinked(m, Node(s, L, k), Node(s, L, k + 2)), Without(L, k);
    forall j | 0 <= j <= |L'| ensures Link(m', s, L', j) {
      var i := if j <= k then j else j + 1;
      assert Link(m, s, L, i) && Link(m, s, L, k) && Link(m, s, L, k + 1);
      hide Link, Separate, Unlinked, Node;
      if j == k { UnlinkAt(m, s, L, k); } else { UnlinkElsewhere(m, s, L, k, j, i); }
    }
  }

  function Appended(m: Memory, s: int, p: int, c: int): Memory {
    m[c + NEXT := s][c + PREV := p][s + PREV := c][p + NEXT := c]
  }

  lemma {:induction false} AppendBefore(m: Memory, s: int, L: seq<int>, c: int, j: nat)
    requires Link(m, s, L, j) && Separate(s, L + [c]) && j < |L|
    ensures Link(Appended(m, s, Node(s, L, |L|), c), s, L + [c], j)
  {
    var M := L + [c];
    assert Node(s, M, |L|) == Node(s, L, |L|) && Node(s, M, |M|) == c;
    assert Node(s, M, j) == Node(s, L, j) && Node(s, M, j + 1) == Node(s, L, j + 1);
    NodeApart(s, M, j, |L|);
    NodeApart(s, M, j, |M|);
    NodeApart(s, M, j + 1, |M|);
    NodeApart(s, M, j + 1, 0);
    FieldApart(s, M, j, |M|);
    FieldApart(s, M, j, |M| + 1);
    FieldApart(s, M, |L|, j + 1);
    FieldApart(s, M, |M|, j + 1);
  }

  lemma {:induction false} AppendAtEnd(m: Memory, s: int, L: seq<int>, c: int, j: nat)
    requires Separate(s, L + [c]) && |L| <= j <= |L| + 1
    ensures Link(Appended(m, s, Node(s, L, |L|), c), s, L + [c], j)
  {
    var M := L + [c];
    assert Node(s, M, |L|) == Node(s, L, |L|) && Node(s, M, |M|) == c;
    FieldApart(s, M, |L|, |M| + 1);
    FieldApart(s, M, |L|, |M|);
    FieldApart(s, M, |M|, |M|);
    FieldApart(s, M, |M|, |M| + 1);
    NodeApart(s, M, |L|, |M|);
    NodeApart(s, M, 0, |M|);
  }

  /** `bin_chunk`'s four stores put c at the tail. */
  lemma {:induction false} AppendLemma(m: Memory, s: int, L: seq<int>, c: int)
    requires Linked(m, s, L) && Separate(s, L + [c])
    ensures Linked(Appended(m, s, Node(s, L, |L|), c), s, L + [c])
  {
    hide Separate, Appended;
    var M := L + [c];
    forall j | 0 <= j <= |M| ensures Link(Appended(m, s, Node(s, L, |L|), c), s, M, j) {
      if j < |L| {
        assert Link(m, s, L, j);
        hide Link;
        AppendBefore(m, s, L, c, j);
      } else {
        hide Link;
        AppendAtEnd(m, s, L, c, j);
      }
    }
  }

  /** `unbin`'s test: prev and next of a node agree exactly when it is the only one. */
  lemma {:induction false} OnlyElement(m: Memory, s: int, L: seq<int>, k: nat)
    requires Linked(m, s, L) && Separate(s, L) && k < |L|
    ensures L[k] + NEXT in m && L[k] + PREV in m
    ensures m[L[k] + NEXT] == Node(s, L, k + 2) && m[L[k] + PREV] == Node(s, L, k)
    ensures m[L[k] + PREV] == m[L[k] + NEXT] <==> |L| == 1
  {
    assert Link(m, s, L, k) && Link(m, s, L, k + 1);
    if k + 2 <= |L| { NodeApart(s, L, k, k + 2); }
    if k > 0 && k + 2 > |L| { NodeApart(s, L, k, 0); }
  }

  lemma {:induction false} Head(m: Memory, s: int, L: seq<int>)
    requires Linked(m, s, L)
    ensures s + NEXT in m && s + PREV in m
    ensures m[s + NEXT] == (if L == [] then s else L[0])
    ensures m[s + PREV] == Node(s, L, |L|)
  {
    assert Link(m, s, L, 0) && Link(m, s, L, |L|);
  }
}
