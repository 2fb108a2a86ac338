/** The bytes of a B-tree (ai/src/bt_code.c), node by node. */
module BtreeBytes {
  import opened BtreeSpec
  import opened BtreeOrder
  import opened Btree

  /** The leaves, or the other nodes, of a tree. */
  ghost function Nodes(tr: Tree, leaf: bool): (s: set<Node>)
    decreases tr, 1
  {
    (if (tr.kids == []) == leaf then {tr.ref} else {}) + NodesOf(tr.kids, leaf)
  }

  ghost function NodesOf(cs: seq<Tree>, leaf: bool): (s: set<Node>)
    decreases cs, 0
  {
    if cs == [] then {} else Nodes(cs[0], leaf) + NodesOf(cs[1..], leaf)
  }

  /** The nodes of m that say they are leaves, or that they are not. */
  ghost function Which(m: multiset<Node>, leaf: bool): (s: set<Node>)
    reads m
  {
    set n | n in m && n.leaf == leaf
  }

  lemma {:induction false} NodesOwned(tr: Tree, leaf: bool)
    requires Rep(tr)
    ensures Nodes(tr, leaf) == Which(Own(tr), leaf)
    decreases tr, 1
  {
    NodesOfOwned(tr.kids, leaf);
  }

  lemma {:induction false} NodesOfOwned(cs: seq<Tree>, leaf: bool)
    requires forall i :: 0 <= i < |cs| ==> Rep(cs[i])
    ensures NodesOf(cs, leaf) == Which(Owns(cs), leaf)
    decreases cs, 0
  {
    if cs != [] {
      NodesOwned(cs[0], leaf);
      NodesOfOwned(cs[1..], leaf);
    }
  }

  /** The nodes of a tree are those it owns, whatever is in memory. */
  lemma {:induction false} NodesInOwn(tr: Tree, leaf: bool, n: Node)
    requires n in Nodes(tr, leaf)
    ensures n in Own(tr)
    decreases tr, 1
  {
    if n in NodesOf(tr.kids, leaf) {
      NodesOfInOwns(tr.kids, leaf, n);
    }
  }

  lemma {:induction false} NodesOfInOwns(cs: seq<Tree>, leaf: bool, n: Node)
    requires n in NodesOf(cs, leaf)
    ensures n in Owns(cs)
    decreases cs, 0
  {
    if n in Nodes(cs[0], leaf) {
      NodesInOwn(cs[0], leaf, n);
    } else {
      NodesOfInOwns(cs[1..], leaf, n);
    }
  }

  /** No node occurs twice in m. */
  ghost predicate Once(m: multiset<Node>) {
    forall n :: n in m ==> m[n] == 1
  }

  lemma OnceParts(a: multiset<Node>, b: multiset<Node>)
    requires Once(a + b)
    ensures Once(a) && Once(b) && forall n :: n in a ==> n !in b
  {
    forall n | n in a ensures a[n] == 1 && n !in b {
      assert n in a + b;
    }
    forall n | n in b ensures b[n] == 1 {
      assert n in a + b;
    }
  }

  /** n times k; the product, spelt out for the verifier. */
  ghost function Times(n: nat, k: int): (r: int) {
    if n == 0 then 0 else k + Times(n - 1, k)
  }

  lemma {:induction false} TimesIsProduct(n: nat, k: int)
    ensures Times(n, k) == k * n
  {
    if n > 0 {
      TimesIsProduct(n - 1, k);
    }
  }

  lemma {:induction false} TimesAdd(a: nat, b: nat, k: int)
    ensures Times(a + b, k) == Times(a, k) + Times(b, k)
  {
    if a > 0 {
      TimesAdd(a - 1, b, k);
    }
  }

  /** A tree, or trees, of a leaves and b other nodes. */
  ghost predicate Counted(tr: Tree, a: nat, b: nat) {
    |Nodes(tr, true)| == a && |Nodes(tr, false)| == b
  }

  ghost predicate AllCounted(cs: seq<Tree>, a: nat, b: nat) {
    |NodesOf(cs, true)| == a && |NodesOf(cs, false)| == b
  }

  lemma TopApart(tr: Tree, leaf: bool)
    requires tr.ref !in Owns(tr.kids)
    ensures |Nodes(tr, leaf)| == (if (tr.kids == []) == leaf then 1 else 0) + |NodesOf(tr.kids, leaf)|
  {
    var a := NodesOf(tr.kids, leaf);
    if tr.ref in a {
      NodesOfInOwns(tr.kids, leaf, tr.ref);
    }
    assert {} + a == a;
  }

  lemma TopCounted(tr: Tree, a: nat, b: nat)
    requires Once(Own(tr)) == true && AllCounted(tr.kids, a, b) == true
    ensures tr.kids == [] ==> Counted(tr, a + 1, b) == true
    ensures tr.kids != [] ==> Counted(tr, a, b + 1) == true
  {
    OnceParts(multiset{tr.ref}, Owns(tr.kids));
    TopApart(tr, true);
    TopApart(tr, false);
  }

  lemma FirstCounted(cs: seq<Tree>, c: Tree, r: seq<Tree>, a: nat, b: nat, p: nat, q: nat)
    requires cs != [] && c == cs[0] && r == cs[1..] && Once(Owns(cs)) == true
    requires Counted(c, a, b) == true && AllCounted(r, p, q) == true
    ensures AllCounted(cs, a + p, b + q) == true
  {
    OnceParts(Own(c), Owns(r));
    Apart(c, r, true);
    Apart(c, r, false);
  }

  lemma OnceFirst(cs: seq<Tree>)
    requires cs != [] && Once(Owns(cs)) == true
    ensures Once(Own(cs[0])) == true && Once(Owns(cs[1..])) == true
  {
    OnceParts(Own(cs[0]), Owns(cs[1..]));
  }

  lemma OnceKids(tr: Tree)
    requires Once(Own(tr)) == true
    ensures Once(Owns(tr.kids)) == true
  {
    OnceParts(multiset{tr.ref}, Owns(tr.kids));
  }

  lemma {:induction false} SizeByNodes(tr: Tree, kb: int, nb: int) returns (a: nat, b: nat)
    requires Once(Own(tr)) == true
    ensures Counted(tr, a, b) == true && Size(tr, kb, nb) == Times(a, kb) + Times(b, nb)
    decreases tr, 1
  {
    OnceKids(tr);
    a, b := SizesByNodes(tr.kids, kb, nb);
    TopCounted(tr, a, b);
    if tr.kids == [] {
      a := a + 1;
    } else {
      b := b + 1;
    }
  }

  lemma {:induction false} SizesByNodes(cs: seq<Tree>, kb: int, nb: int) returns (a: nat, b: nat)
    requires Once(Owns(cs)) == true
    ensures AllCounted(cs, a, b) == true && Sizes(cs, kb, nb) == Times(a, kb) + Times(b, nb)
    decreases cs, 0
  {
    if cs == [] {
      return 0, 0;
    }
    OnceFirst(cs);
    var n, m := SizeByNodes(cs[0], kb, nb);
    var p, q := SizesByNodes(cs[1..], kb, nb);
    FirstCounted(cs, cs[0], cs[1..], n, m, p, q);
    TimesAdd(n, p, kb);
    TimesAdd(m, q, nb);
    a, b := n + p, m + q;
  }

  lemma Apart(c: Tree, r: seq<Tree>, leaf: bool)
    requires forall n :: n in Own(c) ==> n !in Owns(r)
    ensures |Nodes(c, leaf) + NodesOf(r, leaf)| == |Nodes(c, leaf)| + |NodesOf(r, leaf)|
  {
    forall n | n in Nodes(c, leaf) ensures n !in NodesOf(r, leaf) {
      NodesInOwn(c, leaf, n);
      if n in NodesOf(r, leaf) {
        NodesOfInOwns(r, leaf, n);
      }
    }
  }

  /**
    A tree's msize is 72 bytes, kbyte for each of its leaves and nbyte for each of its other nodes, as the
    nodes in memory say which they are.
   */
  lemma MsizeByNodes(b: BTree)
    requires b.Valid()
    ensures b.msize == 72 + b.kbyte * |Which(Own(b.tree), true)| + b.nbyte * |Which(Own(b.tree), false)|
  {
    assert Sound(b.tree, b.t, b.height) && Shaped(b.tree, b.t, b.height);
    NodesOwned(b.tree, true);
    NodesOwned(b.tree, false);
    var n, m := SizeByNodes(b.tree, b.kbyte, b.nbyte);
    TimesIsProduct(n, b.kbyte);
    TimesIsProduct(m, b.nbyte);
  }
}
