/** Order of a complete binary min-heap laid out level by level: the key at index
    `i` has its children at `2i + 1` and `2i + 2`.  Everything here is about the
    sequence of keys; the pointer structure is in module `Heap`. */
module HeapOrder {

  /** `less` is a strict weak order, all that the heap asks of its comparison. */
  ghost predicate StrictWeak<K(!new)>(less: (K, K) -> bool) {
    && (forall a :: !less(a, a))
    && (forall a, b, c :: less(a, b) && less(b, c) ==> less(a, c))
    && (forall a, b, c :: !less(a, b) && !less(b, a) && !less(b, c) && !less(c, b)
                          ==> !less(a, c) && !less(c, a))
  }

  function Parent(i: nat): (p: nat)
    requires i > 0
    ensures i == 2 * p + 1 || i == 2 * p + 2
  {
    (i - 1) / 2
  }

  /** The edge from index `j` to its parent is in order. */
  ghost predicate Edge<K>(less: (K, K) -> bool, ks: seq<K>, j: nat)
    requires 0 < j < |ks|
  {
    !less(ks[j], ks[Parent(j)])
  }

  ghost predicate Ordered<K>(less: (K, K) -> bool, ks: seq<K>) {
    forall j :: 0 < j < |ks| ==> Edge(less, ks, j)
  }

  /** The children of `i` are not smaller than the parent of `i`. */
  ghost predicate Bridged<K>(less: (K, K) -> bool, ks: seq<K>, i: nat)
    requires i < |ks|
  {
    i > 0 ==> forall c :: 0 < c < |ks| && Parent(c) == i ==> !less(ks[c], ks[Parent(i)])
  }

  /** Only the edge above `i` may be out of order: the state of the upward walk. */
  ghost predicate UpReady<K>(less: (K, K) -> bool, ks: seq<K>, i: nat) {
    && i < |ks|
    && (forall j :: 0 < j < |ks| && j != i ==> Edge(less, ks, j))
    && Bridged(less, ks, i)
  }

  /** Only edges touching `i` may be out of order: the state of the downward walk. */
  ghost predicate DownReady<K>(less: (K, K) -> bool, ks: seq<K>, i: nat) {
    && i < |ks|
    && (forall j :: 0 < j < |ks| && j != i && Parent(j) != i ==> Edge(less, ks, j))
    && Bridged(less, ks, i)
  }

  function Swapped<T>(s: seq<T>, i: nat, j: nat): seq<T>
    requires i < |s| && j < |s|
  {
    s[i := s[j]][j := s[i]]
  }

  /** "Not greater" is transitive. */
  lemma {:induction false} AtMostTransitive<K(!new)>(less: (K, K) -> bool, a: K, b: K, c: K)
    requires StrictWeak(less)
    requires !less(b, a) && !less(c, b)
    ensures !less(c, a)
  {
    assert less(c, a) && less(a, b) ==> less(c, b);
    assert less(b, c) && less(c, a) ==> less(b, a);
  }

  /** One step of the upward walk moves the only suspect edge one level up. */
  lemma {:induction false} SwapUp<K(!new)>(less: (K, K) -> bool, ks: seq<K>, i: nat)
    requires StrictWeak(less) && UpReady(less, ks, i)
    requires i > 0 && less(ks[i], ks[Parent(i)])
    ensures UpReady(less, Swapped(ks, Parent(i), i), Parent(i))
  {
    var p := Parent(i);
    var r := Swapped(ks, p, i);
    forall j | 0 < j < |r| && j != p
      ensures Edge(less, r, j)
    {
      assert Edge(less, ks, j) || j == i;
      if Parent(j) == p && j != i {
        AtMostTransitive(less, ks[i], ks[p], ks[j]);
      }
    }
    if p > 0 {
      assert Edge(less, ks, p);
      forall c | 0 < c < |r| && Parent(c) == p
        ensures !less(r[c], r[Parent(p)])
      {
        assert c != i ==> Edge(less, ks, c);
        if c != i { AtMostTransitive(less, ks[Parent(p)], ks[p], ks[c]); }
      }
    }
  }

  /** One step of the downward walk, with the smallest child `s`. */
  lemma {:induction false} SwapDown<K(!new)>(less: (K, K) -> bool, ks: seq<K>, i: nat, s: nat)
    requires StrictWeak(less) && DownReady(less, ks, i)
    requires 0 < s < |ks| && Parent(s) == i && less(ks[s], ks[i])
    requires forall c :: 0 < c < |ks| && Parent(c) == i ==> !less(ks[c], ks[s])
    ensures DownReady(less, Swapped(ks, i, s), s)
  {
    var r := Swapped(ks, i, s);
    forall j | 0 < j < |r| && j != s && Parent(j) != s
      ensures Edge(less, r, j)
    {
      if j == i {
        assert !less(ks[s], ks[Parent(i)]);
      } else if Parent(j) != i {
        assert Edge(less, ks, j);
      }
    }
    forall c | 0 < c < |r| && Parent(c) == s
      ensures !less(r[c], r[Parent(s)])
    {
      assert Edge(less, ks, c);
    }
  }

  /** The downward walk ends when no child is smaller. */
  lemma {:induction false} DownDone<K>(less: (K, K) -> bool, ks: seq<K>, i: nat)
    requires DownReady(less, ks, i)
    requires forall c :: 0 < c < |ks| && Parent(c) == i ==> !less(ks[c], ks[i])
    ensures UpReady(less, ks, i)
  {
  }

  /** The upward walk ends at the root or below a parent that is not greater. */
  lemma {:induction false} UpDone<K>(less: (K, K) -> bool, ks: seq<K>, i: nat)
    requires UpReady(less, ks, i)
    requires i > 0 ==> !less(ks[i], ks[Parent(i)])
    ensures Ordered(less, ks)
  {
    forall j | 0 < j < |ks|
      ensures Edge(less, ks, j)
    {
      if j == i {}
    }
  }

  /** A new last key leaves only the edge above it in doubt. */
  lemma {:induction false} AppendReady<K>(less: (K, K) -> bool, ks: seq<K>, x: K)
    requires Ordered(less, ks)
    ensures UpReady(less, ks + [x], |ks|)
  {
    forall j | 0 < j < |ks|
      ensures Edge(less, ks + [x], j)
    {
      assert Edge(less, ks, j);
    }
  }

  lemma {:induction false} TruncatedOrdered<K>(less: (K, K) -> bool, ks: seq<K>)
    requires Ordered(less, ks) && |ks| > 0
    ensures Ordered(less, ks[..|ks| - 1])
  {
    var r := ks[..|ks| - 1];
    forall j | 0 < j < |r|
      ensures Edge(less, r, j)
    {
      assert Edge(less, ks, j);
    }
  }

  /** Putting any key in place of the key at `i` and dropping the last index
      leaves only the edges at `i` in doubt. */
  lemma {:induction false} ReplaceReady<K(!new)>(less: (K, K) -> bool, ks: seq<K>, i: nat, x: K)
    requires StrictWeak(less) && Ordered(less, ks)
    requires i + 1 < |ks|
    ensures DownReady(less, ks[..|ks| - 1][i := x], i)
  {
    var r := ks[..|ks| - 1][i := x];
    forall j | 0 < j < |r| && j != i && Parent(j) != i
      ensures Edge(less, r, j)
    {
      assert Edge(less, ks, j);
    }
    if i > 0 {
      assert Edge(less, ks, i);
      forall c | 0 < c < |r| && Parent(c) == i
        ensures !less(r[c], r[Parent(i)])
      {
        assert Edge(less, ks, c);
        AtMostTransitive(less, ks[Parent(i)], ks[i], ks[c]);
      }
    }
  }

  /** The root of an ordered heap is a minimum of all keys. */
  lemma {:induction false} RootIsMinimum<K(!new)>(less: (K, K) -> bool, ks: seq<K>, j: nat)
    requires StrictWeak(less) && Ordered(less, ks) && j < |ks|
    ensures !less(ks[j], ks[0])
  {
    if j > 0 {
      assert Edge(less, ks, j);
      RootIsMinimum(less, ks, Parent(j));
      AtMostTransitive(less, ks[0], ks[Parent(j)], ks[j]);
    }
  }

  /** Where `k` steps from 1-based level-order position `q` lead when step by step
      the lowest bit of `path` chooses the right child (1) or the left child (0). */
  function Walk(q: nat, path: nat, k: nat): nat
    decreases k
  {
    if k == 0 then q else Walk(2 * q + path % 2, path / 2, k - 1)
  }

  /** Taking the lowest bit of a position off into the path keeps where the walk ends. */
  lemma WalkBack(n: nat, path: nat, k: nat)
    ensures Walk(n / 2, 2 * path + n % 2, k + 1) == Walk(n, path, k)
  {
    assert (2 * path + n % 2) / 2 == path && (2 * path + n % 2) % 2 == n % 2;
  }

  lemma PathFits(n: nat, path: nat)
    ensures (2 * path + n % 2 + 1) * (n / 2) <= (path + 1) * n
  {
    var h := n / 2;
    assert (2 * path + n % 2 + 1) * h <= (2 * path + 2) * h;
    assert (2 * path + 2) * h == (path + 1) * (2 * h);
    assert (path + 1) * (2 * h) <= (path + 1) * n;
  }

  /** The choice the downward walk makes: `s` is `i` or the child that replaces it. */
  function Smallest<K>(less: (K, K) -> bool, ks: seq<K>, i: nat): (s: nat)
    requires i < |ks|
    ensures s < |ks| && (s == i || s == 2 * i + 1 || s == 2 * i + 2)
  {
    var a := if 2 * i + 1 < |ks| && less(ks[2 * i + 1], ks[i]) then 2 * i + 1 else i;
    if 2 * i + 2 < |ks| && less(ks[2 * i + 2], ks[a]) then 2 * i + 2 else a
  }

  /** No child of `i` is smaller than the choice, and the choice beats `i` itself. */
  lemma {:induction false} SmallestIsLeast<K(!new)>(less: (K, K) -> bool, ks: seq<K>, i: nat)
    requires StrictWeak(less) && i < |ks|
    ensures var s := Smallest(less, ks, i);
            && (forall c :: 0 < c < |ks| && Parent(c) == i ==> !less(ks[c], ks[s]))
            && (s != i ==> less(ks[s], ks[i]))
  {
    var s := Smallest(less, ks, i);
    forall c | 0 < c < |ks| && Parent(c) == i
      ensures !less(ks[c], ks[s])
    {
      assert c == 2 * i + 1 || c == 2 * i + 2;
    }
  }

  /** While steps remain, the walk is at most half way to where it ends. */
  lemma {:induction false} WalkDoubles(q: nat, path: nat, k: nat)
    requires k > 0
    ensures 2 * q <= Walk(q, path, k)
    decreases k
  {
    if k > 1 {
      WalkDoubles(2 * q + path % 2, path / 2, k - 1);
    }
  }
}

/** The pointer-linked complete binary min-heap of libuv.  The ghost field `order`
    lists the nodes level by level; position `p` (counted from 1) is `order[p - 1]`,
    the node at the path that the bits of `p` after its leading one spell. */
module Heap {
  import opened HeapOrder

  /** The label by which nodes compare; the comparison itself is any function of labels. */
  type Key = int

  class Node {
    var left: Node?
    var right: Node?
    var parent: Node?
    const key: Key

    constructor (key: Key)
      ensures this.key == key
    {
      this.key := key;
      left, right, parent := null, null, null;
    }
  }

  /** The three links of a node. */
  datatype Links = Links(left: Node?, right: Node?, parent: Node?)

  ghost function At(order: seq<Node>, i: nat): Node? {
    if i < |order| then order[i] else null
  }

  /** The links that the node at index `i` has in a complete tree. */
  ghost function Expected(order: seq<Node>, i: nat): Links {
    Links(At(order, 2 * i + 1), At(order, 2 * i + 2), if i > 0 then At(order, Parent(i)) else null)
  }

  ghost function LinksOf(n: Node): Links
    reads n
  {
    Links(n.left, n.right, n.parent)
  }

  ghost predicate Linked(order: seq<Node>, i: nat)
    requires i < |order|
    reads order[i]
  {
    LinksOf(order[i]) == Expected(order, i)
  }

  /** `pos` gives the index of each node in `order`; so the nodes are all different. */
  ghost predicate Indexed(order: seq<Node>, pos: map<Node, nat>) {
    forall i :: 0 <= i < |order| ==> order[i] in pos && pos[order[i]] == i
  }

  /** The tree is complete and its links are consistent. */
  ghost predicate Complete(order: seq<Node>)
    reads order
  {
    forall i :: 0 <= i < |order| ==> Linked(order, i)
  }

  function Trade(i: nat, j: nat, k: nat): nat {
    if k == i then j else if k == j then i else k
  }

  ghost function Sibling(i: nat, j: nat): nat {
    if j == 2 * i + 1 then 2 * i + 2 else 2 * i + 1
  }

  /** A node that is neither `i` nor `j` nor next to one of them. */
  ghost predicate Apart(i: nat, j: nat, k: nat) {
    && k != i && k != j && !(i > 0 && k == Parent(i)) && k != Sibling(i, j)
    && k != 2 * j + 1 && k != 2 * j + 2
  }

  /** The links that a complete tree asks for after the nodes at `i` and its child `j`
      have been exchanged. */
  lemma {:induction false} ExpectedSwapped(order: seq<Node>, i: nat, j: nat, m: nat)
    requires 0 < j < |order| && i == Parent(j)
    ensures Expected(Swapped(order, i, j), m)
            == Links(At(order, Trade(i, j, 2 * m + 1)), At(order, Trade(i, j, 2 * m + 2)),
                     if m > 0 then At(order, Trade(i, j, Parent(m))) else null)
    ensures Apart(i, j, m) ==> Expected(Swapped(order, i, j), m) == Expected(order, m)
  {
    var o := Swapped(order, i, j);
    assert forall k: nat :: At(o, k) == At(order, Trade(i, j, k));
  }

  /** Around a parent at `i` and its child at `j`: the sibling of the child, the
      children of the child and the parent of the parent are all different nodes. */
  lemma {:induction false} Separate(order: seq<Node>, pos: map<Node, nat>, i: nat, j: nat)
    requires 0 < j < |order| && i == Parent(j) && Indexed(order, pos)
    ensures var p, c, s := order[i], order[j], Sibling(i, j);
            var g := if i > 0 then Parent(i) else 0;
            var sib, l, r, gp := At(order, s), At(order, 2 * j + 1), At(order, 2 * j + 2), if i > 0 then order[g] else null;
            && p != c && sib != p && sib != c && gp != p && gp != c
            && l != p && l != c && r != p && r != c
            && (sib != null ==> sib != l && sib != r && sib != gp)
            && (gp != null ==> gp != l && gp != r)
            && (l != null ==> l != r)
  {
  }

  /** These nodes have the links of a complete tree. */
  lemma {:induction false} Prepared(order: seq<Node>, pos: map<Node, nat>, i: nat, j: nat)
    requires 0 < j < |order| && i == Parent(j) && Indexed(order, pos) && Complete(order)
    ensures var p, c, s := order[i], order[j], Sibling(i, j);
            var g := if i > 0 then Parent(i) else 0;
            var sib, l, r, gp := At(order, s), At(order, 2 * j + 1), At(order, 2 * j + 2), if i > 0 then order[g] else null;
            && LinksOf(p) == (if j == 2 * i + 1 then Links(c, sib, gp) else Links(sib, c, gp))
            && LinksOf(c) == Links(l, r, p)
            && (sib != null ==> LinksOf(sib) == Expected(order, s))
            && (l != null ==> LinksOf(l) == Expected(order, 2 * j + 1))
            && (r != null ==> LinksOf(r) == Expected(order, 2 * j + 2))
            && (gp != null ==> LinksOf(gp) == Expected(order, g) && (gp.left == p <==> i == 2 * g + 1))
  {
    var s, g := Sibling(i, j), if i > 0 then Parent(i) else 0;
    assert Linked(order, i) && Linked(order, j) && Linked(order, g);
    assert s < |order| ==> Linked(order, s);
    assert 2 * j + 1 < |order| ==> Linked(order, 2 * j + 1);
    assert 2 * j + 2 < |order| ==> Linked(order, 2 * j + 2);
  }

  /** Nodes apart from the exchange are none of the nodes it touches. */
  lemma {:induction false} ApartNodes(order: seq<Node>, pos: map<Node, nat>, i: nat, j: nat)
    requires 0 < j < |order| && i == Parent(j) && Indexed(order, pos)
    ensures forall k {:trigger Apart(i, j, k)} :: 0 <= k < |order| && Apart(i, j, k) ==>
              && order[k] != order[i] && order[k] != order[j] && order[k] != At(order, Sibling(i, j))
              && order[k] != At(order, 2 * j + 1) && order[k] != At(order, 2 * j + 2)
              && (i > 0 ==> order[k] != order[Parent(i)])
  {
  }

  /** What becomes of the two ends, of the node above and of the nodes below. */
  lemma {:induction false} ExpectedEnds(order: seq<Node>, i: nat, j: nat)
    requires 0 < j < |order| && i == Parent(j)
    ensures Expected(Swapped(order, i, j), j) == Links(At(order, 2 * j + 1), At(order, 2 * j + 2), order[j])
    ensures Expected(Swapped(order, i, j), i)
            == Links(if j == 2 * i + 1 then order[i] else At(order, 2 * i + 1),
                     if j == 2 * i + 1 then At(order, 2 * i + 2) else order[i],
                     if i > 0 then At(order, Parent(i)) else null)
  {
    ExpectedSwapped(order, i, j, i);
    ExpectedSwapped(order, i, j, j);
  }

  lemma {:induction false} ExpectedAbove(order: seq<Node>, i: nat, j: nat)
    requires 0 < j < |order| && i == Parent(j) && i > 0
    ensures var was := Expected(order, Parent(i));
            Expected(Swapped(order, i, j), Parent(i))
            == if i == 2 * Parent(i) + 1 then was.(left := order[j]) else was.(right := order[j])
  {
    ExpectedSwapped(order, i, j, Parent(i));
  }

  lemma {:induction false} ExpectedBelow(order: seq<Node>, i: nat, j: nat, k: nat)
    requires 0 < j < |order| && i == Parent(j) && k in {Sibling(i, j), 2 * j + 1, 2 * j + 2}
    ensures Expected(Swapped(order, i, j), k)
            == Expected(order, k).(parent := if k == Sibling(i, j) then order[j] else order[i])
  {
    ExpectedSwapped(order, i, j, k);
    assert Parent(k) == if k == Sibling(i, j) then i else j;
  }

  /** The node at `k`, if there is one, has the links it needs after the exchange. */
  ghost predicate Fits(order: seq<Node>, i: nat, j: nat, k: nat)
    requires i < |order| && j < |order|
    reads if k < |order| then {order[k]} else {}
  {
    k < |order| ==> LinksOf(order[k]) == Expected(Swapped(order, i, j), k)
  }

  /** Once the links around `i` and `j` have been turned, the tree is complete again
      with the two nodes exchanged. */
  lemma {:induction false} SwappedComplete(order: seq<Node>, i: nat, j: nat)
    requires 0 < j < |order| && i == Parent(j)
    requires LinksOf(order[i]) == Expected(Swapped(order, i, j), j)
    requires LinksOf(order[j]) == Expected(Swapped(order, i, j), i)
    requires i > 0 ==> Fits(order, i, j, Parent(i))
    requires Fits(order, i, j, Sibling(i, j)) && Fits(order, i, j, 2 * j + 1) && Fits(order, i, j, 2 * j + 2)
    requires forall k {:trigger Apart(i, j, k)} :: 0 <= k < |order| && Apart(i, j, k) ==>
               LinksOf(order[k]) == Expected(order, k)
    ensures Complete(Swapped(order, i, j))
  {
    var o := Swapped(order, i, j);
    forall k | 0 <= k < |o|
      ensures Linked(o, k)
    {
      if Apart(i, j, k) {
        ExpectedSwapped(order, i, j, k);
      } else if k != i && k != j {
        assert o[k] == order[k];
        assert Fits(order, i, j, k);
      }
    }
  }

  /** The links around `i` and its child `j`, turned. */
  ghost predicate Turned(order: seq<Node>, i: nat, j: nat)
    requires 0 < j < |order| && i == Parent(j)
    reads order
  {
    var s, l, r, g := Sibling(i, j), 2 * j + 1, 2 * j + 2, if i > 0 then Parent(i) else 0;
    var sib, lc, rc, gp := At(order, s), At(order, l), At(order, r), if i > 0 then order[g] else null;
    && LinksOf(order[i]) == Links(lc, rc, order[j])
    && LinksOf(order[j]) == (if j == 2 * i + 1 then Links(order[i], sib, gp) else Links(sib, order[i], gp))
    && (sib != null ==> LinksOf(sib) == Expected(order, s).(parent := order[j]))
    && (lc != null ==> LinksOf(lc) == Expected(order, l).(parent := order[i]))
    && (rc != null ==> LinksOf(rc) == Expected(order, r).(parent := order[i]))
    && (gp != null ==> LinksOf(gp) == if i == 2 * g + 1 then Expected(order, g).(left := order[j])
                                                         else Expected(order, g).(right := order[j]))
  }

  lemma {:induction false} RewiredComplete(order: seq<Node>, i: nat, j: nat)
    requires 0 < j < |order| && i == Parent(j) && Turned(order, i, j)
    requires forall k {:trigger Apart(i, j, k)} :: 0 <= k < |order| && Apart(i, j, k) ==>
               LinksOf(order[k]) == Expected(order, k)
    ensures Complete(Swapped(order, i, j))
  {
    ExpectedEnds(order, i, j);
    if i > 0 {
      ExpectedAbove(order, i, j);
    }
    ExpectedBelow(order, i, j, Sibling(i, j));
    ExpectedBelow(order, i, j, 2 * j + 1);
    ExpectedBelow(order, i, j, 2 * j + 2);
    SwappedComplete(order, i, j);
  }

  /** Hanging a new last node below its parent keeps the tree complete. */
  lemma {:induction false} AppendedComplete(order: seq<Node>, n: Node)
    requires LinksOf(n) == Links(null, null, if |order| > 0 then order[Parent(|order|)] else null)
    requires forall k {:trigger Expected(order, k)} :: 0 <= k < |order| ==>
               LinksOf(order[k])
               == var was := Expected(order, k);
                  if 2 * k + 1 == |order| then was.(left := n)
                  else if 2 * k + 2 == |order| then was.(right := n)
                  else was
    ensures Complete(order + [n])
  {
    var o := order + [n];
    forall k | 0 <= k < |o|
      ensures Linked(o, k)
    {
      assert forall m: nat :: At(o, m) == if m == |order| then n else At(order, m);
      var was := Expected(order, k);
      assert k < |order| ==> (k > 0 ==> Parent(k) < |order|);
    }
  }

  /** Cutting the last node off its parent keeps the tree complete. */
  lemma {:induction false} TruncatedComplete(order: seq<Node>)
    requires |order| > 0
    requires forall k {:trigger Expected(order, k)} :: 0 <= k < |order| - 1 ==>
               LinksOf(order[k])
               == var was := Expected(order, k);
                  if 2 * k + 1 == |order| - 1 then was.(left := null)
                  else if 2 * k + 2 == |order| - 1 then was.(right := null)
                  else was
    ensures Complete(order[..|order| - 1])
  {
    var o := order[..|order| - 1];
    forall k | 0 <= k < |o|
      ensures Linked(o, k)
    {
      assert forall m: nat :: At(o, m) == if m == |order| - 1 then null else At(order, m);
      var was := Expected(order, k);
    }
  }

  /** Neither `i` nor its parent nor a child of it. */
  ghost predicate Beyond(i: nat, m: nat) {
    m != i && m != 2 * i + 1 && m != 2 * i + 2 && !(i > 0 && m == Parent(i))
  }

  lemma {:induction false} PlaceLinks(order: seq<Node>, pos: map<Node, nat>, i: nat)
    requires i < |order| && Indexed(order, pos) && Complete(order)
    ensures var g := if i > 0 then Parent(i) else 0;
            var l, r, gp := At(order, 2 * i + 1), At(order, 2 * i + 2), if i > 0 then order[g] else null;
            && LinksOf(order[i]) == Links(l, r, gp)
            && (l != null ==> LinksOf(l) == Expected(order, 2 * i + 1))
            && (r != null ==> LinksOf(r) == Expected(order, 2 * i + 2))
            && (gp != null ==> LinksOf(gp) == Expected(order, g) && (gp.left == order[i] <==> i == 2 * g + 1))
            && order[i] != l && order[i] != r && order[i] != gp
            && (l != null ==> l != r && l != gp) && (r != null ==> r != gp)
  {
    var g := if i > 0 then Parent(i) else 0;
    assert Linked(order, i) && Linked(order, g);
    assert 2 * i + 1 < |order| ==> Linked(order, 2 * i + 1);
    assert 2 * i + 2 < |order| ==> Linked(order, 2 * i + 2);
  }

  lemma {:induction false} PlaceApart(order: seq<Node>, pos: map<Node, nat>, i: nat)
    requires i < |order| && Indexed(order, pos)
    ensures forall m {:trigger Beyond(i, m)} :: 0 <= m < |order| && Beyond(i, m) ==>
              && order[m] != order[i] && order[m] != At(order, 2 * i + 1) && order[m] != At(order, 2 * i + 2)
              && (i > 0 ==> order[m] != order[Parent(i)])
  {
  }

  /** Putting another node in the place of the one at `i` keeps the tree complete. */
  lemma {:induction false} SubstitutedComplete(order: seq<Node>, i: nat, n: Node)
    requires i < |order| && n !in order
    requires LinksOf(n) == Expected(order, i)
    requires var l := 2 * i + 1; l < |order| ==> LinksOf(order[l]) == Expected(order, l).(parent := n)
    requires var r := 2 * i + 2; r < |order| ==> LinksOf(order[r]) == Expected(order, r).(parent := n)
    requires i > 0 ==> var was := Expected(order, Parent(i));
               LinksOf(order[Parent(i)])
               == if i == 2 * Parent(i) + 1 then was.(left := n) else was.(right := n)
    requires forall m {:trigger Beyond(i, m)} :: 0 <= m < |order| && Beyond(i, m) ==>
               LinksOf(order[m]) == Expected(order, m)
    ensures Complete(order[i := n])
  {
    var o := order[i := n];
    assert forall m: nat :: At(o, m) == if m == i then n else At(order, m);
    forall k | 0 <= k < |o|
      ensures Linked(o, k)
    {
      assert Beyond(i, k) ==> LinksOf(order[k]) == Expected(order, k);
    }
  }

  lemma {:induction false} SubstitutedIndexed(order: seq<Node>, pos: map<Node, nat>, i: nat, n: Node)
    requires Indexed(order, pos) && i < |order| && n !in order
    ensures Indexed(order[i := n], pos[n := i])
  {
  }

  lemma {:induction false} TruncatedIndexed(order: seq<Node>, pos: map<Node, nat>, k: nat)
    requires Indexed(order, pos) && k <= |order|
    ensures Indexed(order[..k], pos)
  {
  }

  lemma {:induction false} AppendedIndexed(order: seq<Node>, pos: map<Node, nat>, n: Node)
    requires Indexed(order, pos) && n !in order
    ensures Indexed(order + [n], pos[n := |order|])
  {
  }

  lemma {:induction false} SwappedIndexed(order: seq<Node>, pos: map<Node, nat>, i: nat, j: nat)
    requires i < |order| && j < |order| && Indexed(order, pos)
    ensures Indexed(Swapped(order, i, j), pos[order[i] := j][order[j] := i])
  {
  }

  ghost function Keys(order: seq<Node>): (ks: seq<Key>)
    ensures |ks| == |order|
    ensures forall i :: 0 <= i < |order| ==> ks[i] == order[i].key
  {
    seq(|order|, i requires 0 <= i < |order| => order[i].key)
  }

  ghost function Nodes(order: seq<Node>): set<Node> {
    set i | 0 <= i < |order| :: order[i]
  }

  /** A pointer to a node pointer, as the traversals of the heap use them. */
  datatype Slot = Root | LeftOf(node: Node) | RightOf(node: Node)

  /** The slot that holds the node at the position `p`, counted from 1. */
  ghost function SlotOf(order: seq<Node>, p: nat): Slot
    requires 1 <= p <= |order| + 1
  {
    if p == 1 then Root else if p % 2 == 0 then LeftOf(order[p / 2 - 1]) else RightOf(order[p / 2 - 1])
  }

  lemma {:induction false} AppendedNodes(order: seq<Node>, n: Node)
    ensures Nodes(order + [n]) == Nodes(order) + {n}
    ensures Keys(order + [n]) == Keys(order) + [n.key]
    ensures n !in Nodes(order) ==> n !in order
  {
    var o := order + [n];
    assert o[|order|] == n;
    forall m | m in Nodes(order)
      ensures m in Nodes(o)
    {
      var k :| 0 <= k < |order| && order[k] == m;
      assert o[k] == m;
    }
    if n in order {
      var k :| 0 <= k < |order| && order[k] == n;
      assert n in Nodes(order);
    }
  }

  /** Moving the last node into the place of the one at `i` takes away just that one. */
  lemma {:induction false} SubstitutedNodes(order: seq<Node>, pos: map<Node, nat>, i: nat)
    requires Indexed(order, pos) && i + 1 < |order|
    ensures var o := order[..|order| - 1][i := order[|order| - 1]];
            && Nodes(o) == Nodes(order) - {order[i]}
            && Keys(o) == Keys(order)[..|order| - 1][i := order[|order| - 1].key]
    ensures order[|order| - 1] !in order[..|order| - 1]
  {
    var last := |order| - 1;
    var o := order[..last][i := order[last]];
    forall m | m in Nodes(order) - {order[i]}
      ensures m in Nodes(o)
    {
      var k :| 0 <= k < |order| && order[k] == m;
      assert o[if k == last then i else k] == m;
    }
  }

  lemma {:induction false} TruncatedNodes(order: seq<Node>, pos: map<Node, nat>)
    requires Indexed(order, pos) && |order| > 0
    ensures Nodes(order[..|order| - 1]) == Nodes(order) - {order[|order| - 1]}
  {
    var last := |order| - 1;
    forall m | m in Nodes(order) - {order[last]}
      ensures m in Nodes(order[..last])
    {
      var k :| 0 <= k < |order| && order[k] == m;
      assert order[..last][k] == m;
    }
  }

  lemma {:induction false} TruncatedKeys(less: (Key, Key) -> bool, order: seq<Node>)
    requires Ordered(less, Keys(order)) && |order| > 0
    ensures Ordered(less, Keys(order[..|order| - 1]))
  {
    TruncatedOrdered(less, Keys(order));
    assert Keys(order[..|order| - 1]) == Keys(order)[..|order| - 1];
  }

  lemma {:induction false} SwappedNodes(order: seq<Node>, i: nat, j: nat)
    requires i < |order| && j < |order|
    ensures Nodes(Swapped(order, i, j)) == Nodes(order)
    ensures Keys(Swapped(order, i, j)) == Swapped(Keys(order), i, j)
  {
    var o := Swapped(order, i, j);
    forall n | n in Nodes(order)
      ensures n in Nodes(o)
    {
      var k :| 0 <= k < |order| && order[k] == n;
      assert o[Trade(i, j, k)] == n;
    }
  }

  class Heap {
    var min: Node?
    var nelts: nat
    const less: (Key, Key) -> bool
    ghost var order: seq<Node>
    ghost var pos: map<Node, nat>

    /** The tree is complete, has exactly `nelts` nodes and consistent links. */
    ghost predicate Shape()
      reads this, order
    {
      && nelts == |order|
      && min == At(order, 0)
      && Indexed(order, pos)
      && Complete(order)
    }

    ghost predicate Valid()
      reads this, order
    {
      Shape() && Ordered(less, Keys(order))
    }

    constructor (less: (Key, Key) -> bool)
      ensures Valid() && order == [] && this.less == less
    {
      this.less := less;
      min, nelts, order, pos := null, 0, [], map[];
    }

    method Adopt(n: Node?, p: Node)
      modifies n
      ensures n != null ==> n.parent == p && n.left == old(n.left) && n.right == old(n.right)
    {
      if n != null { n.parent := p; }
    }

    method Replace(gp: Node?, n: Node, heir: Node)
      modifies this`min, gp
      ensures min == if gp == null then heir else old(min)
      ensures gp != null ==> gp.left == (if old(gp.left) == n then heir else old(gp.left))
      ensures gp != null ==> gp.right == (if old(gp.left) == n then old(gp.right) else heir)
      ensures gp != null ==> gp.parent == old(gp.parent)
    {
      if gp == null { min := heir; } else if gp.left == n { gp.left := heir; } else { gp.right := heir; }
    }

    method Turn(parent: Node, child: Node) returns (sibling: Node?)
      requires parent != child && (parent.left == child || parent.right == child) && child.left != child
      modifies parent, child
      ensures parent.left == old(child.left) && parent.right == old(child.right) && parent.parent == child
      ensures child.parent == old(parent.parent)
      ensures child.left == (if old(parent.left) == child then parent else old(parent.left))
      ensures child.right == (if old(parent.left) == child then old(parent.right) else parent)
      ensures sibling == if old(parent.left) == child then old(parent.right) else old(parent.left)
    {
      var pl, pr, pp := parent.left, parent.right, parent.parent;
      parent.left, parent.right, parent.parent := child.left, child.right, child.parent;
      child.left, child.right, child.parent := pl, pr, pp;
      parent.parent := child;
      if child.left == child {
        child.left := parent;
        sibling := child.right;
      } else {
        child.right := parent;
        sibling := child.left;
      }
    }

    method Relink(parent: Node, child: Node, ghost isLeft: bool,
                  ghost sib: Node?, ghost l: Node?, ghost r: Node?, ghost gp: Node?)
      requires if isLeft then parent.left == child && parent.right == sib else parent.right == child && parent.left == sib
      requires parent.parent == gp && child.parent == parent && child.left == l && child.right == r
      requires parent != child && sib != parent && sib != child && gp != parent && gp != child
      requires l != parent && l != child && r != parent && r != child
      requires sib != null ==> sib != l && sib != r && sib != gp
      requires gp != null ==> gp != l && gp != r
      requires l != null ==> l != r
      modifies this`min, parent, child, sib, l, r, gp
      ensures parent.left == l && parent.right == r && parent.parent == child
      ensures child.parent == gp
      ensures child.left == (if isLeft then parent else sib) && child.right == (if isLeft then sib else parent)
      ensures sib != null ==> LinksOf(sib) == old(LinksOf(sib)).(parent := child)
      ensures l != null ==> LinksOf(l) == old(LinksOf(l)).(parent := parent)
      ensures r != null ==> LinksOf(r) == old(LinksOf(r)).(parent := parent)
      ensures gp != null ==> LinksOf(gp) == if old(gp.left) == parent then old(LinksOf(gp)).(left := child)
                                                                      else old(LinksOf(gp)).(right := child)
      ensures min == if gp == null then child else old(min)
    {
      var sibling := Turn(parent, child);
      Adopt(sibling, child);
      Adopt(parent.left, parent);
      Adopt(parent.right, parent);
      Replace(child.parent, parent, child);
    }

    /** The pointer work of heap_node_swap, seen from the places of the tree. */
    method Rewire(parent: Node, child: Node, ghost i: nat, ghost j: nat)
      requires Shape()
      requires 0 < j < |order| && i == HeapOrder.Parent(j)
      requires parent == order[i] && child == order[j]
      modifies this`min, order
      ensures Turned(order, i, j)
      ensures forall k {:trigger Apart(i, j, k)} :: 0 <= k < |order| && Apart(i, j, k) ==> LinksOf(order[k]) == Expected(order, k)
      ensures min == if i == 0 then child else old(min)
    {
      ghost var s, l, r, g := Sibling(i, j), 2 * j + 1, 2 * j + 2, if i > 0 then HeapOrder.Parent(i) else 0;
      ghost var sib, lc, rc, gp := At(order, s), At(order, l), At(order, r), if i > 0 then order[g] else null;
      Prepared(order, pos, i, j);
      Separate(order, pos, i, j);
      ApartNodes(order, pos, i, j);
      Relink(parent, child, j == 2 * i + 1, sib, lc, rc, gp);
      forall k {:trigger Apart(i, j, k)} | 0 <= k < |order| && Apart(i, j, k)
        ensures LinksOf(order[k]) == Expected(order, k)
      {
        assert old(Linked(order, k));
      }
    }

    /** Exchanges a parent with its child, as heap_node_swap does. */
    method Swap(parent: Node, child: Node, ghost i: nat, ghost j: nat)
      requires Shape()
      requires 0 < j < |order| && i == HeapOrder.Parent(j)
      requires parent == order[i] && child == order[j]
      modifies this`min, this`order, this`pos, Nodes(order)
      ensures Shape()
      ensures order == Swapped(old(order), i, j)
    {
      SwappedIndexed(order, pos, i, j);
      Rewire(parent, child, i, j);
      RewiredComplete(order, i, j);
      order, pos := Swapped(order, i, j), pos[parent := j][child := i];
    }

    function Load(slot: Slot): Node?
      reads this, if slot.Root? then {} else {slot.node}
    {
      match slot
      case Root => min
      case LeftOf(n) => n.left
      case RightOf(n) => n.right
    }

    lemma SlotHolds(p: nat)
      requires Shape() && 1 <= p <= |order|
      ensures Load(SlotOf(order, p)) == order[p - 1]
    {
      if p > 1 {
        assert Linked(order, p / 2 - 1);
      }
    }

    method Store(slot: Slot, n: Node?)
      modifies this`min, if slot.Root? then {} else {slot.node}
      ensures slot.Root? ==> min == n
      ensures !slot.Root? ==> min == old(min)
      ensures slot.LeftOf? ==> LinksOf(slot.node) == old(LinksOf(slot.node)).(left := n)
      ensures slot.RightOf? ==> LinksOf(slot.node) == old(LinksOf(slot.node)).(right := n)
    {
      match slot
      case Root => min := n;
      case LeftOf(m) => m.left := n;
      case RightOf(m) => m.right := n;
    }

    /** Walks a node up while its parent is greater. */
    method SiftUp(node: Node, ghost at: nat)
      requires StrictWeak(less) && Shape() && at < |order| && node == order[at]
      requires UpReady(less, Keys(order), at)
      modifies this`min, this`order, this`pos, Nodes(order)
      ensures Valid() && Nodes(order) == Nodes(old(order)) && |order| == old(|order|)
    {
      ghost var i: nat := at;
      while node.parent != null && less(node.key, node.parent.key)
        invariant Shape() && i < |order| && node == order[i]
        invariant UpReady(less, Keys(order), i)
        invariant Nodes(order) == Nodes(old(order)) && |order| == old(|order|)
        decreases i
      {
        assert Linked(order, i);
        ghost var p: nat := HeapOrder.Parent(i);
        SwapUp(less, Keys(order), i);
        SwappedNodes(order, p, i);
        Swap(node.parent, node, p, i);
        i := p;
      }
      assert Linked(order, i);
      UpDone(less, Keys(order), i);
    }

    /** The smallest of a node and its children. */
    method PickSmallest(node: Node, ghost i: nat) returns (smallest: Node)
      requires Shape() && i < |order| && node == order[i]
      ensures smallest == order[Smallest(less, Keys(order), i)]
    {
      assert Linked(order, i);
      smallest := node;
      if node.left != null && less(node.left.key, smallest.key) {
        smallest := node.left;
      }
      if node.right != null && less(node.right.key, smallest.key) {
        smallest := node.right;
      }
    }

    /** Walks a node down, below its smallest child, while that child is smaller. */
    method SiftDown(node: Node, ghost at: nat) returns (ghost i: nat)
      requires StrictWeak(less) && Shape() && at < |order| && node == order[at]
      requires DownReady(less, Keys(order), at)
      modifies this`min, this`order, this`pos, Nodes(order)
      ensures Shape() && i < |order| && node == order[i]
      ensures UpReady(less, Keys(order), i)
      ensures Nodes(order) == Nodes(old(order)) && |order| == old(|order|)
    {
      i := at;
      while true
        invariant Shape() && i < |order| && node == order[i]
        invariant DownReady(less, Keys(order), i)
        invariant Nodes(order) == Nodes(old(order)) && |order| == old(|order|)
        decreases |order| - i
      {
        var smallest := PickSmallest(node, i);
        ghost var s := Smallest(less, Keys(order), i);
        SmallestIsLeast(less, Keys(order), i);
        if smallest == node {
          break;
        }
        SwapDown(less, Keys(order), i, s);
        SwappedNodes(order, i, s);
        Swap(node, smallest, i, s);
        i := s;
      }
      DownDone(less, Keys(order), i);
    }

    /** The path of the position `p`, one bit a level, the topmost level lowest. */
    method Path(p: nat) returns (path: nat, k: nat)
      requires 1 <= p < 0x1_0000_0000
      ensures Walk(1, path, k) == p
      ensures path < 0x1_0000_0000
    {
      path, k := 0, 0;
      var n := p;
      while n >= 2
        invariant n >= 1 && Walk(n, path, k) == p
        invariant (path + 1) * n <= p
      {
        WalkBack(n, path, k);
        PathFits(n, path);
        path, k, n := 2 * path + n % 2, k + 1, n / 2;
      }
    }

    /** Follows a path from the root: the slot it ends at, and the slot one step before. */
    method Descend(path0: nat, k0: nat, ghost p: nat) returns (parent: Slot, child: Slot)
      requires Shape() && 1 <= p <= nelts + 1 && Walk(1, path0, k0) == p
      ensures child == SlotOf(order, p)
      ensures parent == if p == 1 then Root else SlotOf(order, p / 2)
    {
      var path, k := path0, k0;
      parent, child := Root, Root;
      ghost var q: nat := 1;
      while k > 0
        invariant 1 <= q <= p && Walk(q, path, k) == p
        invariant child == SlotOf(order, q)
        invariant parent == if q == 1 then Root else SlotOf(order, q / 2)
      {
        WalkDoubles(q, path, k);
        SlotHolds(q);
        parent := child;
        child := if path % 2 == 1 then RightOf(Load(child)) else LeftOf(Load(child));
        q := 2 * q + path % 2;
        path, k := path / 2, k - 1;
        if k > 0 { WalkDoubles(q, path, k); }
      }
    }

    /** Puts a node that points at its parent into the free slot below it. */
    method Attach(newnode: Node, child: Slot)
      requires Shape() && newnode !in order && child == SlotOf(order, nelts + 1)
      requires LinksOf(newnode) == Links(null, null, if nelts > 0 then order[Parent(nelts)] else null)
      modifies this`min, order
      ensures Complete(order + [newnode])
      ensures min == if |order| > 0 then order[0] else newnode
    {
      Store(child, newnode);
      forall m {:trigger Expected(order, m)} | 0 <= m < |order|
        ensures LinksOf(order[m])
                == var e := Expected(order, m);
                   if 2 * m + 1 == |order| then e.(left := newnode)
                   else if 2 * m + 2 == |order| then e.(right := newnode)
                   else e
      {
        assert old(Linked(order, m));
      }
      AppendedComplete(order, newnode);
    }

    /** Hangs a node into the leftmost free place of the bottom row. */
    method Hang(newnode: Node)
      requires Shape() && newnode !in order
      requires nelts + 1 < 0x1_0000_0000
      modifies this`min, this`nelts, this`order, this`pos, order, newnode
      ensures Shape() && order == old(order) + [newnode]
    {
      newnode.left, newnode.right, newnode.parent := null, null, null;
      var path, k := Path(1 + nelts);
      var parent, child := Descend(path, k, 1 + nelts);
      if nelts > 0 {
        SlotHolds((1 + nelts) / 2);
      }
      newnode.parent := Load(parent);
      Attach(newnode, child);
      AppendedIndexed(order, pos, newnode);
      nelts, order, pos := nelts + 1, order + [newnode], pos[newnode := nelts];
    }

    /** Adds a node at the end of the bottom row and walks it up. */
    method Insert(newnode: Node)
      requires StrictWeak(less) && Valid() && newnode !in Nodes(order)
      requires nelts + 1 < 0x1_0000_0000
      modifies this`min, this`nelts, this`order, this`pos, Nodes(order), newnode
      ensures Valid() && nelts == old(nelts) + 1
      ensures Nodes(order) == Nodes(old(order)) + {newnode}
    {
      AppendedNodes(order, newnode);
      AppendReady(less, Keys(order), newnode.key);
      Hang(newnode);
      SiftUp(newnode, |order| - 1);
    }

    /** Empties the slot of the last node. */
    method Cut(slot: Slot)
      requires Shape() && nelts > 0 && slot == SlotOf(order, nelts)
      modifies this`min, order
      ensures Complete(order[..|order| - 1])
      ensures min == if |order| == 1 then null else old(min)
    {
      assert forall m :: 0 <= m < |order| ==> Linked(order, m);
      Store(slot, null);
      forall m {:trigger Expected(order, m)} | 0 <= m < |order| - 1
        ensures LinksOf(order[m])
                == var e := Expected(order, m);
                   if 2 * m + 1 == |order| - 1 then e.(left := null)
                   else if 2 * m + 2 == |order| - 1 then e.(right := null)
                   else e
      {
        assert old(Linked(order, m));
      }
      TruncatedComplete(order);
    }

    /** The last node of the bottom row and the slot that holds it. */
    method Last() returns (slot: Slot, last: Node)
      requires Shape() && 0 < nelts < 0x1_0000_0000
      ensures slot == SlotOf(order, nelts) && last == order[nelts - 1]
    {
      var path, k := Path(nelts);
      var _, child := Descend(path, k, nelts);
      SlotHolds(nelts);
      slot, last := child, Load(child);
    }

    /** Unlinks the last node of the bottom row. */
    method UnlinkLast() returns (last: Node)
      requires Shape() && 0 < nelts < 0x1_0000_0000
      modifies this`min, this`nelts, this`order, order
      ensures Shape() && order == old(order)[..old(nelts) - 1] && last == old(order)[old(nelts) - 1]
    {
      var slot;
      slot, last := Last();
      ghost var rest := order[..|order| - 1];
      TruncatedIndexed(order, pos, |order| - 1);
      Cut(slot);
      assert Complete(rest) && min == At(rest, 0);
      nelts, order := nelts - 1, rest;
    }

    /** The pointer work of putting `child` in the place of `node`. */
    method TakePlace(node: Node, child: Node, ghost l: Node?, ghost r: Node?, ghost gp: Node?)
      requires LinksOf(node) == Links(l, r, gp)
      requires child != node && child != l && child != r && child != gp && node != l && node != r && node != gp
      requires l != null ==> l != r && l != gp
      requires r != null ==> r != gp
      modifies this`min, child, l, r, gp
      ensures LinksOf(child) == old(LinksOf(node))
      ensures l != null ==> LinksOf(l) == old(LinksOf(l)).(parent := child)
      ensures r != null ==> LinksOf(r) == old(LinksOf(r)).(parent := child)
      ensures gp != null ==> LinksOf(gp) == if old(gp.left) == node then old(LinksOf(gp)).(left := child)
                                                                    else old(LinksOf(gp)).(right := child)
      ensures min == if gp == null then child else old(min)
    {
      child.left, child.right, child.parent := node.left, node.right, node.parent;
      Adopt(child.left, child);
      Adopt(child.right, child);
      Replace(node.parent, node, child);
    }

    /** Puts `child` in the place of `node`. */
    method Substitute(node: Node, child: Node, ghost i: nat)
      requires Shape() && i < |order| && node == order[i] && child !in order
      modifies this`min, this`order, this`pos, order, child
      ensures Shape() && order == old(order)[i := child]
    {
      ghost var l, r, g := 2 * i + 1, 2 * i + 2, if i > 0 then HeapOrder.Parent(i) else 0;
      PlaceLinks(order, pos, i);
      PlaceApart(order, pos, i);
      TakePlace(node, child, At(order, l), At(order, r), if i > 0 then order[g] else null);
      forall m {:trigger Beyond(i, m)} | 0 <= m < |order| && Beyond(i, m)
        ensures LinksOf(order[m]) == Expected(order, m)
      {
        assert old(Linked(order, m));
      }
      SubstitutedComplete(order, i, child);
      SubstitutedIndexed(order, pos, i, child);
      order, pos := order[i := child], pos[child := i];
    }

    /** `min` is a minimum of all nodes in the heap. */
    lemma {:induction false} MinIsLeast(n: Node)
      requires StrictWeak(less) && Valid() && n in Nodes(order)
      ensures min != null && min in Nodes(order) && !less(n.key, min.key)
    {
      var j :| 0 <= j < |order| && order[j] == n;
      assert order[0] in Nodes(order);
      RootIsMinimum(less, Keys(order), j);
    }

    /** Puts the last node, already unlinked, in the place of another and restores order. */
    method Fill(node: Node, child: Node, ghost i: nat)
      requires StrictWeak(less) && Shape() && i < |order| && node == order[i] && child !in order
      requires DownReady(less, Keys(order[i := child]), i)
      modifies this`min, this`order, this`pos, Nodes(order), child
      ensures Valid() && nelts == old(nelts) && Nodes(order) == Nodes(old(order)[i := child])
    {
      Substitute(node, child, i);
      ghost var at := SiftDown(child, i);
      SiftUp(child, at);
    }

    /** Removes a node: the last node takes its place, then walks down and up. */
    method Remove(node: Node?)
      requires StrictWeak(less) && Valid() && nelts < 0x1_0000_0000
      requires nelts > 0 ==> node != null && node in Nodes(order)
      modifies this`min, this`nelts, this`order, this`pos, Nodes(order)
      ensures Valid()
      ensures if old(nelts) == 0 then order == [] && nelts == 0
              else nelts == old(nelts) - 1 && Nodes(order) == Nodes(old(order)) - {node}
    {
      if nelts == 0 {
        return;
      }
      ghost var was, i := order, pos[node];
      var child := UnlinkLast();
      if child == node {
        // Emptying the slot has already cleared `min` if `child` was the root.
        assert child != min;
        TruncatedNodes(was, pos);
        TruncatedKeys(less, was);
        return;
      }
      ReplaceReady(less, Keys(was), i, child.key);
      SubstitutedNodes(was, pos, i);
      Fill(node, child, i);
    }

    /** Removes the minimum, if there is one. */
    method Dequeue()
      requires StrictWeak(less) && Valid() && nelts < 0x1_0000_0000
      modifies this`min, this`nelts, this`order, this`pos, Nodes(order)
      ensures Valid()
      ensures if old(nelts) == 0 then order == [] && nelts == 0
              else nelts == old(nelts) - 1 && old(min) != null && old(min) !in Nodes(order)
                   && Nodes(old(order)) == Nodes(order) + {old(min)}
                   && forall n :: n in Nodes(order) ==> !less(n.key, old(min).key)
    {
      forall n | n in Nodes(order)
        ensures min in Nodes(order) && !less(n.key, min.key)
      {
        MinIsLeast(n);
      }
      assert nelts > 0 ==> order[0] in Nodes(order);
      Remove(min);
    }
  }
}
