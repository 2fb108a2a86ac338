/**
  The B-tree of ai/src/bt_code.c. `Node` is a node in memory. `Tree` is the value of a subtree: its
  nodes with their keys and "scion" counters. This module says what a tree holds (`Flat`), which trees
  are well formed (`WF`), how many bytes they occupy (`Size`), which nodes they own (`Own`), and how
  splitting, rotating and merging siblings act on all of these.
 */
module BtreeSpec {
  import opened Entries

  class Node {
    var leaf: bool
    var keys: seq<Entry>
    var kids: seq<Node>
    var scion: int

    constructor (leaf: bool, keys: seq<Entry>, kids: seq<Node>, scion: int)
      ensures this.leaf == leaf && this.keys == keys && this.kids == kids && this.scion == scion
    {
      this.leaf, this.keys, this.kids, this.scion := leaf, keys, kids, scion;
    }
  }

  /** A node and everything below it; a leaf has no kids. */
  datatype Tree = Tree(ref: Node, keys: seq<Entry>, kids: seq<Tree>, scion: int)

  // ---------------------------------------------------------------- contents

  /** The entries of a tree in key order. */
  ghost function Flat(tr: Tree): (s: seq<Entry>)
    decreases tr, 2
  {
    Body(tr.keys, tr.kids)
  }

  /** The entries of a node with the given keys and kids. */
  ghost function Body(ks: seq<Entry>, cs: seq<Tree>): (s: seq<Entry>)
    decreases cs, 1
  {
    if |cs| == |ks| + 1 then Weave(ks, cs) else ks
  }

  ghost function Weave(ks: seq<Entry>, cs: seq<Tree>): (s: seq<Entry>)
    requires |cs| == |ks| + 1
    decreases cs, 0
  {
    if ks == [] then Flat(cs[0]) else Flat(cs[0]) + ([ks[0]] + Weave(ks[1..], cs[1..]))
  }

  /** What precedes a child: kids and keys in pairs, kid first. */
  ghost function Left(ks: seq<Entry>, cs: seq<Tree>): (s: seq<Entry>)
    requires |cs| == |ks|
  {
    if ks == [] then [] else Flat(cs[0]) + ([ks[0]] + Left(ks[1..], cs[1..]))
  }

  /** What follows a child: keys and kids in pairs, key first. */
  ghost function Right(ks: seq<Entry>, cs: seq<Tree>): (s: seq<Entry>)
    requires |cs| == |ks|
  {
    if ks == [] then [] else [ks[0]] + (Flat(cs[0]) + Right(ks[1..], cs[1..]))
  }

  lemma {:induction false} WeaveRight(ks: seq<Entry>, cs: seq<Tree>)
    requires |cs| == |ks| + 1
    ensures Weave(ks, cs) == Flat(cs[0]) + Right(ks, cs[1..])
  {
    if ks != [] {
      WeaveRight(ks[1..], cs[1..]);
    }
  }

  /** A node's contents seen from its i-th child. */
  lemma {:induction false} Focus(ks: seq<Entry>, cs: seq<Tree>, i: nat)
    requires |cs| == |ks| + 1 && i <= |ks|
    ensures Weave(ks, cs) == Left(ks[..i], cs[..i]) + Flat(cs[i]) + Right(ks[i..], cs[i + 1..])
  {
    if i == 0 {
      WeaveRight(ks, cs);
      assert ks[0..] == ks;
    } else {
      Focus(ks[1..], cs[1..], i - 1);
      assert ks[1..][..i - 1] == ks[..i][1..] && cs[1..][..i - 1] == cs[..i][1..];
      assert ks[1..][i - 1..] == ks[i..] && cs[1..][i..] == cs[i + 1..];
      FiveParts(Flat(cs[0]), ks[0], Left(ks[..i][1..], cs[..i][1..]), Flat(cs[i]), Right(ks[i..], cs[i + 1..]));
    }
  }

  lemma FiveParts(f: seq<Entry>, k: Entry, l: seq<Entry>, m: seq<Entry>, r: seq<Entry>)
    ensures f + ([k] + (l + m + r)) == f + ([k] + l) + m + r
  {
  }

  /** A node's contents seen from two neighbouring children and the key between them. */
  lemma {:induction false} Focus2(ks: seq<Entry>, cs: seq<Tree>, i: nat)
    requires |cs| == |ks| + 1 && i < |ks|
    ensures Weave(ks, cs) ==
      Left(ks[..i], cs[..i]) + (Flat(cs[i]) + [ks[i]] + Flat(cs[i + 1])) + Right(ks[i + 1..], cs[i + 2..])
  {
    Focus(ks, cs, i);
    assert ks[i..][1..] == ks[i + 1..] && cs[i + 1..][1..] == cs[i + 2..];
  }

  lemma {:induction false} WeaveConcat(k1: seq<Entry>, c1: seq<Tree>, e: Entry,
                                          k2: seq<Entry>, c2: seq<Tree>)
    requires |c1| == |k1| + 1 && |c2| == |k2| + 1
    ensures Weave(k1 + [e] + k2, c1 + c2) == Weave(k1, c1) + [e] + Weave(k2, c2)
  {
    var ks, cs := k1 + [e] + k2, c1 + c2;
    if k1 == [] {
      assert ks[1..] == k2 && cs[1..] == c2;
    } else {
      WeaveConcat(k1[1..], c1[1..], e, k2, c2);
      assert ks[1..] == k1[1..] + [e] + k2 && cs[1..] == c1[1..] + c2;
    }
  }

  /** Two nodes may be glued around a key when both are leaves or both are internal. */
  ghost predicate Alike(k1: seq<Entry>, c1: seq<Tree>, k2: seq<Entry>, c2: seq<Tree>) {
    (c1 == [] && c2 == []) || (|c1| == |k1| + 1 && |c2| == |k2| + 1)
  }

  lemma BodyConcat(k1: seq<Entry>, c1: seq<Tree>, e: Entry, k2: seq<Entry>, c2: seq<Tree>)
    requires Alike(k1, c1, k2, c2)
    ensures Body(k1 + [e] + k2, c1 + c2) == Body(k1, c1) + [e] + Body(k2, c2)
  {
    if c1 != [] {
      WeaveConcat(k1, c1, e, k2, c2);
    }
  }

  // ---------------------------------------------------------------- counters and ownership

  ghost function Scions(cs: seq<Tree>): (n: int) {
    if cs == [] then 0 else cs[0].scion + Scions(cs[1..])
  }

  /** Bytes held by a tree: `kb` for a leaf and `nb` for an internal node. */
  ghost function Size(tr: Tree, kb: int, nb: int): (n: int)
    decreases tr, 1
  {
    (if tr.kids == [] then kb else nb) + Sizes(tr.kids, kb, nb)
  }

  ghost function Sizes(cs: seq<Tree>, kb: int, nb: int): (n: int)
    decreases cs, 0
  {
    if cs == [] then 0 else Size(cs[0], kb, nb) + Sizes(cs[1..], kb, nb)
  }

  /** The nodes of a tree, as often as they occur in it. */
  ghost function Own(tr: Tree): (m: multiset<Node>)
    decreases tr, 1
  {
    multiset{tr.ref} + Owns(tr.kids)
  }

  ghost function Owns(cs: seq<Tree>): (m: multiset<Node>)
    decreases cs, 0
  {
    if cs == [] then multiset{} else Own(cs[0]) + Owns(cs[1..])
  }

  /** No node occurs twice: the tree shares nothing with itself. */
  ghost predicate Distinct(tr: Tree) {
    forall n :: n in Own(tr) ==> Own(tr)[n] == 1
  }

  lemma {:induction false} OwnsConcat(a: seq<Tree>, b: seq<Tree>)
    ensures Owns(a + b) == Owns(a) + Owns(b)
    decreases |a|
  {
    if a == [] {
      assert a + b == b;
    } else {
      var c := a + b;
      assert c[1..] == a[1..] + b && c[0] == a[0];
      OwnsConcat(a[1..], b);
      var p, q, r := Own(a[0]), Owns(a[1..]), Owns(b);
      assert Owns(c) == p + Owns(c[1..]);
      assert p + (q + r) == (p + q) + r;
    }
  }
  lemma {:induction false} ScionsConcat(a: seq<Tree>, b: seq<Tree>)
    ensures Scions(a + b) == Scions(a) + Scions(b)
    decreases |a|
  {
    if a == [] {
      assert a + b == b;
    } else {
      var c := a + b;
      assert c[1..] == a[1..] + b && c[0] == a[0];
      ScionsConcat(a[1..], b);
    }
  }

  lemma {:induction false} SizesConcat(a: seq<Tree>, b: seq<Tree>, kb: int, nb: int)
    ensures Sizes(a + b, kb, nb) == Sizes(a, kb, nb) + Sizes(b, kb, nb)
    decreases |a|
  {
    if a == [] {
      assert a + b == b;
    } else {
      var c := a + b;
      assert c[1..] == a[1..] + b && c[0] == a[0];
      SizesConcat(a[1..], b, kb, nb);
    }
  }

  lemma SumsConcat(a: seq<Tree>, b: seq<Tree>, kb: int, nb: int)
    ensures Scions(a + b) == Scions(a) + Scions(b)
    ensures Sizes(a + b, kb, nb) == Sizes(a, kb, nb) + Sizes(b, kb, nb)
    ensures Owns(a + b) == Owns(a) + Owns(b)
  {
    ScionsConcat(a, b);
    SizesConcat(a, b, kb, nb);
    OwnsConcat(a, b);
  }

  lemma Single(a: Tree, kb: int, nb: int)
    ensures Scions([a]) == a.scion && Sizes([a], kb, nb) == Size(a, kb, nb) && Owns([a]) == Own(a)
  {
  }

  lemma Pair(a: Tree, b: Tree, kb: int, nb: int)
    ensures Scions([a, b]) == a.scion + b.scion
    ensures Sizes([a, b], kb, nb) == Size(a, kb, nb) + Size(b, kb, nb)
    ensures Owns([a, b]) == Own(a) + Own(b)
  {
    assert [a, b] == [a] + [b];
    SumsConcat([a], [b], kb, nb);
    Single(a, kb, nb);
    Single(b, kb, nb);
  }

  /** Replacing a stretch of kids changes every sum by the stretch's own sum. */
  lemma SumsAround(cs: seq<Tree>, i: nat, j: nat, mid: seq<Tree>, kb: int, nb: int)
    requires i <= j <= |cs|
    ensures Scions(cs[..i] + mid + cs[j..]) == Scions(cs) - Scions(cs[i..j]) + Scions(mid)
    ensures Sizes(cs[..i] + mid + cs[j..], kb, nb) ==
      Sizes(cs, kb, nb) - Sizes(cs[i..j], kb, nb) + Sizes(mid, kb, nb)
    ensures Owns(cs[..i] + mid + cs[j..]) + Owns(cs[i..j]) == Owns(cs) + Owns(mid)
  {
    assert cs == cs[..i] + cs[i..j] + cs[j..];
    SumsConcat(cs[..i] + cs[i..j], cs[j..], kb, nb);
    SumsConcat(cs[..i], cs[i..j], kb, nb);
    SumsConcat(cs[..i] + mid, cs[j..], kb, nb);
    SumsConcat(cs[..i], mid, kb, nb);
  }

  lemma OwnsAt(cs: seq<Tree>, i: nat)
    requires i < |cs|
    ensures Own(cs[i]) <= Owns(cs)
  {
    assert cs == cs[..i] + [cs[i]] + cs[i + 1..];
    SumsConcat(cs[..i] + [cs[i]], cs[i + 1..], 0, 0);
    SumsConcat(cs[..i], [cs[i]], 0, 0);
    Single(cs[i], 0, 0);
  }

  lemma OwnsTwo(cs: seq<Tree>, i: nat, j: nat)
    requires i < j < |cs|
    ensures Own(cs[i]) + Own(cs[j]) <= Owns(cs)
  {
    assert cs == cs[..j] + cs[j..];
    SumsConcat(cs[..j], cs[j..], 0, 0);
    assert cs[..j][i] == cs[i] && cs[j..][0] == cs[j];
    OwnsAt(cs[..j], i);
    OwnsAt(cs[j..], 0);
  }

  lemma ApartOne(tr: Tree, i: nat)
    requires Distinct(tr) && i < |tr.kids|
    ensures Distinct(tr.kids[i]) && tr.ref !in Own(tr.kids[i]) && Own(tr.kids[i]) <= Own(tr)
  {
    OwnsAt(tr.kids, i);
    var c := Own(tr.kids[i]);
    assert c + multiset{tr.ref} <= Own(tr);
    assert tr.ref in Own(tr);
    forall n | n in c ensures c[n] == 1 {
      assert n in Own(tr);
    }
  }

  lemma ApartTwo(tr: Tree, i: nat, j: nat)
    requires Distinct(tr) && i < j < |tr.kids|
    ensures Own(tr.kids[i]) !! Own(tr.kids[j])
  {
    OwnsTwo(tr.kids, i, j);
    var c, d := Own(tr.kids[i]), Own(tr.kids[j]);
    forall n | n in c ensures n !in d {
      assert n in Own(tr);
    }
  }

  /** In a tree without sharing, a node's kids are apart from it and from each other. */
  lemma Apart(tr: Tree)
    requires Distinct(tr)
    ensures forall i :: 0 <= i < |tr.kids| ==>
      Distinct(tr.kids[i]) && tr.ref !in Own(tr.kids[i]) && Own(tr.kids[i]) <= Own(tr)
    ensures forall i, j :: 0 <= i < j < |tr.kids| ==> Own(tr.kids[i]) !! Own(tr.kids[j])
  {
    forall i | 0 <= i < |tr.kids|
      ensures Distinct(tr.kids[i]) && tr.ref !in Own(tr.kids[i]) && Own(tr.kids[i]) <= Own(tr)
    {
      ApartOne(tr, i);
    }
    forall i, j | 0 <= i < j < |tr.kids| ensures Own(tr.kids[i]) !! Own(tr.kids[j]) {
      ApartTwo(tr, i, j);
    }
  }

  // ---------------------------------------------------------------- memory

  ghost function Refs(cs: seq<Tree>): (r: seq<Node>) {
    seq(|cs|, i requires 0 <= i < |cs| => cs[i].ref)
  }

  lemma RefsConcat(a: seq<Tree>, b: seq<Tree>)
    ensures Refs(a + b) == Refs(a) + Refs(b)
  {
  }

  lemma RefsCut(cs: seq<Tree>, n: nat)
    requires n <= |cs|
    ensures Refs(cs[..n]) == Refs(cs)[..n] && Refs(cs[n..]) == Refs(cs)[n..]
  {
  }

  lemma RefsPatch(cs: seq<Tree>, i: nat, j: nat, mid: seq<Tree>)
    requires i <= j <= |cs|
    ensures Refs(cs[..i] + mid + cs[j..]) == Refs(cs)[..i] + Refs(mid) + Refs(cs)[j..]
  {
    RefsConcat(cs[..i] + mid, cs[j..]);
    RefsConcat(cs[..i], mid);
    RefsCut(cs, i);
    RefsCut(cs, j);
  }

  lemma RefsPair(a: Tree, b: Tree)
    ensures Refs([a, b]) == [a.ref, b.ref] && Refs([a]) == [a.ref]
  {
  }

  /** The fields of the top node are those of the tree. */
  ghost predicate Fields(tr: Tree)
    reads tr.ref
  {
    var x := tr.ref;
    x.keys == tr.keys && x.scion == tr.scion && (x.leaf <==> tr.kids == []) && x.kids == Refs(tr.kids)
  }

  /** The nodes in memory are those of the tree. */
  ghost predicate Rep(tr: Tree)
    reads Own(tr)
    decreases tr
  {
    Fields(tr) && forall i :: 0 <= i < |tr.kids| ==> (OwnsAt(tr.kids, i); Rep(tr.kids[i]))
  }

  // ---------------------------------------------------------------- well-formedness

  /**
    All leaves at depth h, at most 2t-1 keys in any node, at least t-1 in every node below the top,
    and every scion counter is the local count plus the kids' counters.
   */
  ghost predicate WF(tr: Tree, t: nat, h: nat)
    decreases h, 0
  {
    && |tr.keys| <= 2 * t - 1
    && tr.scion == |tr.keys| + Scions(tr.kids)
    && if h == 0 then tr.kids == [] else
         && |tr.kids| == |tr.keys| + 1
         && forall i :: 0 <= i < |tr.kids| ==> Kid(tr.kids[i], t, h - 1)
  }

  ghost predicate Kid(tr: Tree, t: nat, h: nat)
    decreases h, 1
  {
    t - 1 <= |tr.keys| && WF(tr, t, h)
  }

  lemma {:induction false} WeaveLength(ks: seq<Entry>, cs: seq<Tree>)
    requires |cs| == |ks| + 1
    requires forall i :: 0 <= i < |cs| ==> cs[i].scion == |Flat(cs[i])|
    ensures |Weave(ks, cs)| == |ks| + Scions(cs)
  {
    if ks == [] {
      assert cs == [cs[0]];
      Single(cs[0], 0, 0);
    } else {
      WeaveLength(ks[1..], cs[1..]);
    }
  }

  /** In every well-formed tree each node's scion is the number of entries at and below it. */
  lemma {:induction false} ScionIsCount(tr: Tree, t: nat, h: nat)
    requires WF(tr, t, h)
    ensures tr.scion == |Flat(tr)|
    ensures forall i :: 0 <= i < |tr.kids| ==> tr.kids[i].scion == |Flat(tr.kids[i])|
    decreases h
  {
    if h > 0 {
      forall i | 0 <= i < |tr.kids| ensures tr.kids[i].scion == |Flat(tr.kids[i])| {
        assert Kid(tr.kids[i], t, h - 1);
        ScionIsCount(tr.kids[i], t, h - 1);
      }
      WeaveLength(tr.keys, tr.kids);
    }
  }

  // ---------------------------------------------------------------- a node cut in two, two nodes joined

  /** A node whose counter is right for its keys and kids. */
  ghost function Mk(ref: Node, ks: seq<Entry>, cs: seq<Tree>): (r: Tree) {
    Tree(ref, ks, cs, |ks| + Scions(cs))
  }

  ghost function Take(cs: seq<Tree>, n: nat): (r: seq<Tree>) {
    if n <= |cs| then cs[..n] else []
  }

  ghost function Drop(cs: seq<Tree>, n: nat): (r: seq<Tree>) {
    if n <= |cs| then cs[n..] else []
  }

  /** The part of y before its n-th key, kept in node r. */
  ghost function Low(y: Tree, n: nat, r: Node): Tree
    requires n < |y.keys|
  {
    Mk(r, y.keys[..n], Take(y.kids, n + 1))
  }

  /** The part of y after its n-th key, kept in node r. */
  ghost function High(y: Tree, n: nat, r: Node): Tree
    requires n < |y.keys|
  {
    Mk(r, y.keys[n + 1..], Drop(y.kids, n + 1))
  }

  ghost function Join(y: Tree, e: Entry, z: Tree, r: Node): Tree {
    Mk(r, y.keys + [e] + z.keys, y.kids + z.kids)
  }

  lemma JoinWF(y: Tree, e: Entry, z: Tree, r: Node, t: nat, h: nat)
    requires WF(y, t, h) && WF(z, t, h)
    ensures Join(y, e, z, r).scion == y.scion + 1 + z.scion
    ensures |y.keys| + |z.keys| < 2 * t - 1 ==> WF(Join(y, e, z, r), t, h)
  {
    SumsConcat(y.kids, z.kids, 0, 0);
  }

  lemma JoinFlat(y: Tree, e: Entry, z: Tree, r: Node)
    requires Alike(y.keys, y.kids, z.keys, z.kids)
    ensures Flat(Join(y, e, z, r)) == Flat(y) + [e] + Flat(z)
  {
    BodyConcat(y.keys, y.kids, e, z.keys, z.kids);
  }

  lemma JoinSums(y: Tree, e: Entry, z: Tree, r: Node, kb: int, nb: int)
    requires y.kids == [] <==> z.kids == []
    ensures Size(Join(y, e, z, r), kb, nb) == Size(y, kb, nb) + Size(z, kb, nb) - if y.kids == [] then kb else nb
  {
    SumsConcat(y.kids, z.kids, kb, nb);
  }

  lemma JoinOwn(y: Tree, e: Entry, z: Tree, r: Node)
    ensures Own(Join(y, e, z, r)) + multiset{y.ref} + multiset{z.ref} == Own(y) + Own(z) + multiset{r}
  {
    OwnsConcat(y.kids, z.kids);
  }

  /** Cutting and joining undo each other, whichever node ends up holding the pieces. */
  lemma CutJoin(y: Tree, n: nat, a: Node, b: Node, t: nat, h: nat)
    requires WF(y, t, h) && n < |y.keys|
    ensures Join(Low(y, n, a), y.keys[n], High(y, n, b), y.ref) == y
    ensures WF(Low(y, n, a), t, h) && WF(High(y, n, b), t, h)
  {
    var l, u := Low(y, n, a), High(y, n, b);
    assert y.keys == l.keys + [y.keys[n]] + u.keys && y.kids == l.kids + u.kids;
    SumsConcat(l.kids, u.kids, 0, 0);
  }

  lemma CutFlat(y: Tree, n: nat, a: Node, b: Node, t: nat, h: nat)
    requires WF(y, t, h) && n < |y.keys|
    ensures Flat(y) == Flat(Low(y, n, a)) + [y.keys[n]] + Flat(High(y, n, b))
  {
    CutJoin(y, n, a, b, t, h);
    JoinFlat(Low(y, n, a), y.keys[n], High(y, n, b), y.ref);
  }

  lemma CutSums(y: Tree, n: nat, a: Node, b: Node, t: nat, h: nat, kb: int, nb: int)
    requires WF(y, t, h) && n < |y.keys|
    ensures y.scion == Low(y, n, a).scion + 1 + High(y, n, b).scion
    ensures Size(Low(y, n, a), kb, nb) + Size(High(y, n, b), kb, nb) == Size(y, kb, nb) + if h == 0 then kb else nb
  {
    var l, u := Low(y, n, a), High(y, n, b);
    CutJoin(y, n, a, b, t, h);
    JoinWF(l, y.keys[n], u, y.ref, t, h);
    JoinSums(l, y.keys[n], u, y.ref, kb, nb);
  }

  lemma CutOwn(y: Tree, n: nat, z: Node, t: nat, h: nat)
    requires WF(y, t, h) && n < |y.keys|
    ensures Own(Low(y, n, y.ref)) + Own(High(y, n, z)) == Own(y) + multiset{z}
    ensures Own(Low(y, n, z)) + Own(High(y, n, y.ref)) == Own(y) + multiset{z}
  {
    var l, u := Take(y.kids, n + 1), Drop(y.kids, n + 1);
    assert y.kids == l + u;
    OwnsConcat(l, u);
    Gather(multiset{y.ref}, Owns(l), multiset{z}, Owns(u));
    Gather(multiset{z}, Owns(l), multiset{y.ref}, Owns(u));
  }

  lemma Gather(p: multiset<Node>, a: multiset<Node>, q: multiset<Node>, b: multiset<Node>)
    ensures (p + a) + (q + b) == (p + (a + b)) + q == (q + (a + b)) + p
  {
  }

  // ---------------------------------------------------------------- surgery on a parent

  /** Child i becomes a, key e and b (a split). */
  ghost function Grow(x: Tree, i: nat, a: Tree, e: Entry, b: Tree): (r: Tree)
    requires |x.kids| == |x.keys| + 1 && i <= |x.keys|
  {
    Tree(x.ref, x.keys[..i] + [e] + x.keys[i..], x.kids[..i] + [a, b] + x.kids[i + 1..], x.scion)
  }

  /** Children i and i+1 become m, and the key between them goes (a merge). */
  ghost function Fuse(x: Tree, i: nat, m: Tree): (r: Tree)
    requires |x.kids| == |x.keys| + 1 && i < |x.keys|
  {
    Tree(x.ref, x.keys[..i] + x.keys[i + 1..], x.kids[..i] + [m] + x.kids[i + 2..], x.scion)
  }

  /** Children i and i+1 and the key between them are replaced (a rotation). */
  ghost function Swap(x: Tree, i: nat, a: Tree, e: Entry, b: Tree): (r: Tree)
    requires |x.kids| == |x.keys| + 1 && i < |x.keys|
  {
    Tree(x.ref, x.keys[i := e], x.kids[..i] + [a, b] + x.kids[i + 2..], x.scion)
  }

  /** Child i alone is replaced, with keys ks and counter s. */
  ghost function Replace(x: Tree, ks: seq<Entry>, i: nat, c: Tree, s: int): (r: Tree)
    requires i < |x.kids|
  {
    Tree(x.ref, ks, x.kids[..i] + [c] + x.kids[i + 1..], s)
  }

  /** Child i alone is replaced and the node's counter moves by d. */
  ghost function Put(x: Tree, i: nat, c: Tree, d: int): (r: Tree)
    requires |x.kids| == |x.keys| + 1 && i <= |x.keys|
  {
    Replace(x, x.keys, i, c, x.scion + d)
  }

  /** Everything in x before child i, and everything after child j-1. */
  ghost function Before(x: Tree, i: nat): (s: seq<Entry>)
    requires |x.kids| == |x.keys| + 1 && i <= |x.keys|
  {
    Left(x.keys[..i], x.kids[..i])
  }

  ghost function After(x: Tree, i: nat): (s: seq<Entry>)
    requires |x.kids| == |x.keys| + 1 && i <= |x.keys|
  {
    Right(x.keys[i..], x.kids[i + 1..])
  }

  lemma GrowFlat(x: Tree, i: nat, a: Tree, e: Entry, b: Tree)
    requires |x.kids| == |x.keys| + 1 && i <= |x.keys|
    ensures Flat(x) == Before(x, i) + Flat(x.kids[i]) + After(x, i)
    ensures Flat(Grow(x, i, a, e, b)) == Before(x, i) + (Flat(a) + [e] + Flat(b)) + After(x, i)
  {
    var r := Grow(x, i, a, e, b);
    Focus(x.keys, x.kids, i);
    Focus2(r.keys, r.kids, i);
    assert r.keys[..i] == x.keys[..i] && r.kids[..i] == x.kids[..i];
    assert r.keys[i + 1..] == x.keys[i..] && r.kids[i + 2..] == x.kids[i + 1..];
    assert r.keys[i] == e && r.kids[i] == a && r.kids[i + 1] == b;
  }

  lemma FuseFlat(x: Tree, i: nat, m: Tree)
    requires |x.kids| == |x.keys| + 1 && i < |x.keys|
    ensures Flat(x) == Before(x, i) + (Flat(x.kids[i]) + [x.keys[i]] + Flat(x.kids[i + 1])) + After(x, i + 1)
    ensures Flat(Fuse(x, i, m)) == Before(x, i) + Flat(m) + After(x, i + 1)
  {
    var r := Fuse(x, i, m);
    Focus2(x.keys, x.kids, i);
    Focus(r.keys, r.kids, i);
    assert r.keys[..i] == x.keys[..i] && r.kids[..i] == x.kids[..i];
    assert r.keys[i..] == x.keys[i + 1..] && r.kids[i + 1..] == x.kids[i + 2..];
    assert r.kids[i] == m;
  }

  lemma SwapFlat(x: Tree, i: nat, a: Tree, e: Entry, b: Tree)
    requires |x.kids| == |x.keys| + 1 && i < |x.keys|
    ensures Flat(x) == Before(x, i) + (Flat(x.kids[i]) + [x.keys[i]] + Flat(x.kids[i + 1])) + After(x, i + 1)
    ensures Flat(Swap(x, i, a, e, b)) == Before(x, i) + (Flat(a) + [e] + Flat(b)) + After(x, i + 1)
  {
    var r := Swap(x, i, a, e, b);
    Focus2(x.keys, x.kids, i);
    Focus2(r.keys, r.kids, i);
    assert r.keys[..i] == x.keys[..i] && r.kids[..i] == x.kids[..i];
    assert r.keys[i + 1..] == x.keys[i + 1..] && r.kids[i + 2..] == x.kids[i + 2..];
    assert r.keys[i] == e && r.kids[i] == a && r.kids[i + 1] == b;
  }

  lemma PutFlat(x: Tree, i: nat, c: Tree, d: int)
    requires |x.kids| == |x.keys| + 1 && i <= |x.keys|
    ensures Flat(x) == Before(x, i) + Flat(x.kids[i]) + After(x, i)
    ensures Flat(Put(x, i, c, d)) == Before(x, i) + Flat(c) + After(x, i)
  {
    var r := Put(x, i, c, d);
    Focus(x.keys, x.kids, i);
    Focus(r.keys, r.kids, i);
    assert r.kids[..i] == x.kids[..i] && r.kids[i + 1..] == x.kids[i + 1..];
    assert r.kids[i] == c;
  }

  /** x with keys ks, counter s, and kids i..j-1 replaced by mid. */
  ghost function Patch(x: Tree, ks: seq<Entry>, i: nat, j: nat, mid: seq<Tree>, s: int): (r: Tree)
    requires i <= j <= |x.kids|
  {
    Tree(x.ref, ks, x.kids[..i] + mid + x.kids[j..], s)
  }

  lemma PatchWF(x: Tree, ks: seq<Entry>, i: nat, j: nat, mid: seq<Tree>, s: int, t: nat, h: nat)
    requires h > 0 && WF(x, t, h) && i <= j <= |x.kids|
    requires forall k :: 0 <= k < |mid| ==> Kid(mid[k], t, h - 1)
    requires |ks| + 1 == |x.kids| - (j - i) + |mid| && |ks| <= 2 * t - 1
    requires s == |ks| + Scions(x.kids) - Scions(x.kids[i..j]) + Scions(mid)
    ensures WF(Patch(x, ks, i, j, mid, s), t, h)
  {
    var cs := Patch(x, ks, i, j, mid, s).kids;
    SumsAround(x.kids, i, j, mid, 0, 0);
    forall k | 0 <= k < |cs| ensures Kid(cs[k], t, h - 1) {
      assert cs[k] == if k < i then x.kids[k] else if k < i + |mid| then mid[k - i] else x.kids[k - i - |mid| + j];
    }
  }

  lemma PatchSums(x: Tree, ks: seq<Entry>, i: nat, j: nat, mid: seq<Tree>, s: int, kb: int, nb: int)
    requires i <= j <= |x.kids| && x.kids != [] && mid != []
    ensures Size(Patch(x, ks, i, j, mid, s), kb, nb) ==
      Size(x, kb, nb) - Sizes(x.kids[i..j], kb, nb) + Sizes(mid, kb, nb)
    ensures Own(Patch(x, ks, i, j, mid, s)) + Owns(x.kids[i..j]) == Own(x) + Owns(mid)
  {
    SumsAround(x.kids, i, j, mid, kb, nb);
    Shuffle(multiset{x.ref}, Owns(x.kids[..i] + mid + x.kids[j..]), Owns(x.kids[i..j]), Owns(x.kids), Owns(mid));
  }

  lemma Shuffle(p: multiset<Node>, a: multiset<Node>, s: multiset<Node>, k: multiset<Node>, m: multiset<Node>)
    requires a + s == k + m
    ensures p + a + s == p + k + m
  {
    assert p + a + s == p + (a + s);
  }

  /** If r + y = x + m and m = y + q then r = x + q. */
  lemma Cancel(r: multiset<Node>, y: multiset<Node>, x: multiset<Node>, m: multiset<Node>, q: multiset<Node>)
    requires r + y == x + m && m == y + q
    ensures r == x + q
  {
    forall n ensures r[n] == (x + q)[n] {
      assert (r + y)[n] == (x + m)[n];
    }
  }

  lemma GrowWF(x: Tree, i: nat, a: Tree, e: Entry, b: Tree, t: nat, h: nat)
    requires h > 0 && WF(x, t, h) && i <= |x.keys| < 2 * t - 1 && Kid(a, t, h - 1) && Kid(b, t, h - 1)
    requires a.scion + 1 + b.scion == x.kids[i].scion
    ensures WF(Grow(x, i, a, e, b), t, h)
  {
    assert x.kids[i..i + 1] == [x.kids[i]];
    Single(x.kids[i], 0, 0);
    Pair(a, b, 0, 0);
    PatchWF(x, x.keys[..i] + [e] + x.keys[i..], i, i + 1, [a, b], x.scion, t, h);
  }

  lemma GrowSums(x: Tree, i: nat, a: Tree, e: Entry, b: Tree, kb: int, nb: int)
    requires |x.kids| == |x.keys| + 1 && i <= |x.keys|
    ensures Size(Grow(x, i, a, e, b), kb, nb) ==
      Size(x, kb, nb) - Size(x.kids[i], kb, nb) + (Size(a, kb, nb) + Size(b, kb, nb))
    ensures Own(Grow(x, i, a, e, b)) + Own(x.kids[i]) == Own(x) + (Own(a) + Own(b))
  {
    assert x.kids[i..i + 1] == [x.kids[i]];
    Single(x.kids[i], kb, nb);
    Pair(a, b, kb, nb);
    PatchSums(x, x.keys[..i] + [e] + x.keys[i..], i, i + 1, [a, b], x.scion, kb, nb);
  }

  lemma FuseWF(x: Tree, i: nat, m: Tree, t: nat, h: nat)
    requires h > 0 && WF(x, t, h) && i < |x.keys| && Kid(m, t, h - 1)
    requires m.scion == x.kids[i].scion + 1 + x.kids[i + 1].scion
    ensures WF(Fuse(x, i, m), t, h)
  {
    assert x.kids[i..i + 2] == [x.kids[i], x.kids[i + 1]];
    Pair(x.kids[i], x.kids[i + 1], 0, 0);
    Single(m, 0, 0);
    PatchWF(x, x.keys[..i] + x.keys[i + 1..], i, i + 2, [m], x.scion, t, h);
  }

  lemma FuseSums(x: Tree, i: nat, m: Tree, kb: int, nb: int)
    requires |x.kids| == |x.keys| + 1 && i < |x.keys|
    ensures Size(Fuse(x, i, m), kb, nb) ==
      Size(x, kb, nb) - (Size(x.kids[i], kb, nb) + Size(x.kids[i + 1], kb, nb)) + Size(m, kb, nb)
    ensures Own(Fuse(x, i, m)) + (Own(x.kids[i]) + Own(x.kids[i + 1])) == Own(x) + Own(m)
  {
    assert x.kids[i..i + 2] == [x.kids[i], x.kids[i + 1]];
    Pair(x.kids[i], x.kids[i + 1], kb, nb);
    Single(m, kb, nb);
    PatchSums(x, x.keys[..i] + x.keys[i + 1..], i, i + 2, [m], x.scion, kb, nb);
  }

  lemma SwapWF(x: Tree, i: nat, a: Tree, e: Entry, b: Tree, t: nat, h: nat)
    requires h > 0 && WF(x, t, h) && i < |x.keys| && Kid(a, t, h - 1) && Kid(b, t, h - 1)
    requires a.scion + b.scion == x.kids[i].scion + x.kids[i + 1].scion
    ensures WF(Swap(x, i, a, e, b), t, h)
  {
    assert x.kids[i..i + 2] == [x.kids[i], x.kids[i + 1]];
    Pair(x.kids[i], x.kids[i + 1], 0, 0);
    Pair(a, b, 0, 0);
    PatchWF(x, x.keys[i := e], i, i + 2, [a, b], x.scion, t, h);
  }

  lemma SwapSums(x: Tree, i: nat, a: Tree, e: Entry, b: Tree, kb: int, nb: int)
    requires |x.kids| == |x.keys| + 1 && i < |x.keys|
    ensures Size(Swap(x, i, a, e, b), kb, nb) ==
      Size(x, kb, nb) - (Size(x.kids[i], kb, nb) + Size(x.kids[i + 1], kb, nb)) + (Size(a, kb, nb) + Size(b, kb, nb))
    ensures Own(Swap(x, i, a, e, b)) + (Own(x.kids[i]) + Own(x.kids[i + 1])) == Own(x) + (Own(a) + Own(b))
  {
    assert x.kids[i..i + 2] == [x.kids[i], x.kids[i + 1]];
    Pair(x.kids[i], x.kids[i + 1], kb, nb);
    Pair(a, b, kb, nb);
    PatchSums(x, x.keys[i := e], i, i + 2, [a, b], x.scion, kb, nb);
  }

  lemma ReplaceWF(x: Tree, ks: seq<Entry>, i: nat, c: Tree, s: int, t: nat, h: nat)
    requires h > 0 && WF(x, t, h) && i <= |x.keys| == |ks| && Kid(c, t, h - 1)
    requires s == x.scion + c.scion - x.kids[i].scion
    ensures WF(Replace(x, ks, i, c, s), t, h)
  {
    assert x.kids[i..i + 1] == [x.kids[i]];
    Single(x.kids[i], 0, 0);
    Single(c, 0, 0);
    PatchWF(x, ks, i, i + 1, [c], s, t, h);
  }

  lemma ReplaceSums(x: Tree, ks: seq<Entry>, i: nat, c: Tree, s: int, kb: int, nb: int)
    requires i < |x.kids|
    ensures Size(Replace(x, ks, i, c, s), kb, nb) == Size(x, kb, nb) - Size(x.kids[i], kb, nb) + Size(c, kb, nb)
    ensures Own(Replace(x, ks, i, c, s)) + Own(x.kids[i]) == Own(x) + Own(c)
  {
    assert x.kids[i..i + 1] == [x.kids[i]];
    Single(x.kids[i], kb, nb);
    Single(c, kb, nb);
    PatchSums(x, ks, i, i + 1, [c], s, kb, nb);
  }

  // ---------------------------------------------------------------- the four moves of bt_code.c

  /** Full child i is cut around its median key; the upper half goes to node z. */
  ghost function SplitKid(x: Tree, i: nat, t: nat, z: Node): (r: Tree)
    requires |x.kids| == |x.keys| + 1 && i <= |x.keys| && 0 < t && |x.kids[i].keys| == 2 * t - 1
  {
    var y := x.kids[i];
    Grow(x, i, Low(y, t - 1, y.ref), y.keys[t - 1], High(y, t - 1, z))
  }

  /** Children i and i+1 are glued around e, which replaces the key between them. */
  ghost function MergeKids(x: Tree, i: nat, e: Entry): (r: Tree)
    requires |x.kids| == |x.keys| + 1 && i < |x.keys|
  {
    Fuse(x, i, Join(x.kids[i], e, x.kids[i + 1], x.kids[i].ref))
  }

  /** Child i+1 receives the key before it, whose place is taken by the last key of child i. */
  ghost function BorrowLeft(x: Tree, i: nat): (r: Tree)
    requires |x.kids| == |x.keys| + 1 && i < |x.keys| && x.kids[i].keys != []
  {
    var y, c, n := x.kids[i], x.kids[i + 1], |x.kids[i].keys| - 1;
    Swap(x, i, Low(y, n, y.ref), y.keys[n], Join(High(y, n, c.ref), x.keys[i], c, c.ref))
  }

  /** Child i receives the key after it, whose place is taken by the first key of child i+1. */
  ghost function BorrowRight(x: Tree, i: nat): (r: Tree)
    requires |x.kids| == |x.keys| + 1 && i < |x.keys| && x.kids[i + 1].keys != []
  {
    var c, y := x.kids[i], x.kids[i + 1];
    Swap(x, i, Join(c, x.keys[i], Low(y, 0, c.ref), c.ref), y.keys[0], High(y, 0, y.ref))
  }

  lemma SplitKidShape(x: Tree, i: nat, t: nat, z: Node, h: nat)
    requires t >= 2 && h > 0 && WF(x, t, h) && |x.keys| < 2 * t - 1
    requires i <= |x.keys| && |x.kids[i].keys| == 2 * t - 1
    ensures WF(SplitKid(x, i, t, z), t, h)
  {
    var y := x.kids[i];
    assert Kid(y, t, h - 1);
    CutJoin(y, t - 1, y.ref, z, t, h - 1);
    CutSums(y, t - 1, y.ref, z, t, h - 1, 0, 0);
    GrowWF(x, i, Low(y, t - 1, y.ref), y.keys[t - 1], High(y, t - 1, z), t, h);
  }

  lemma SplitKidFlat(x: Tree, i: nat, t: nat, z: Node, h: nat)
    requires t >= 2 && h > 0 && WF(x, t, h) && i <= |x.keys| && |x.kids[i].keys| == 2 * t - 1
    ensures Flat(SplitKid(x, i, t, z)) == Flat(x)
  {
    var y := x.kids[i];
    assert Kid(y, t, h - 1);
    CutFlat(y, t - 1, y.ref, z, t, h - 1);
    GrowFlat(x, i, Low(y, t - 1, y.ref), y.keys[t - 1], High(y, t - 1, z));
  }

  lemma SplitKidSize(x: Tree, i: nat, t: nat, z: Node, h: nat, kb: int, nb: int)
    requires t >= 2 && h > 0 && WF(x, t, h) && i <= |x.keys| && |x.kids[i].keys| == 2 * t - 1
    ensures Size(SplitKid(x, i, t, z), kb, nb) == Size(x, kb, nb) + if h == 1 then kb else nb
  {
    var y := x.kids[i];
    assert Kid(y, t, h - 1);
    CutSums(y, t - 1, y.ref, z, t, h - 1, kb, nb);
    GrowSums(x, i, Low(y, t - 1, y.ref), y.keys[t - 1], High(y, t - 1, z), kb, nb);
  }

  lemma SplitKidOwn(x: Tree, i: nat, t: nat, z: Node, h: nat)
    requires t >= 2 && h > 0 && WF(x, t, h) && i <= |x.keys| && |x.kids[i].keys| == 2 * t - 1
    ensures Own(SplitKid(x, i, t, z)) == Own(x) + multiset{z}
  {
    var y := x.kids[i];
    assert Kid(y, t, h - 1);
    var a, e, b := Low(y, t - 1, y.ref), y.keys[t - 1], High(y, t - 1, z);
    CutOwn(y, t - 1, z, t, h - 1);
    GrowSums(x, i, a, e, b, 0, 0);
    Cancel(Own(SplitKid(x, i, t, z)), Own(y), Own(x), Own(a) + Own(b), multiset{z});
  }

  lemma MergeKidsShape(x: Tree, i: nat, e: Entry, t: nat, h: nat)
    requires t >= 2 && h > 0 && WF(x, t, h) && i < |x.keys|
    requires |x.kids[i].keys| == t - 1 && |x.kids[i + 1].keys| == t - 1
    ensures WF(MergeKids(x, i, e), t, h)
  {
    var y, z := x.kids[i], x.kids[i + 1];
    assert Kid(y, t, h - 1) && Kid(z, t, h - 1);
    JoinWF(y, e, z, y.ref, t, h - 1);
    FuseWF(x, i, Join(y, e, z, y.ref), t, h);
  }

  lemma MergeKidsFlat(x: Tree, i: nat, e: Entry, t: nat, h: nat)
    requires t >= 2 && h > 0 && WF(x, t, h) && i < |x.keys|
    ensures Flat(x) == Before(x, i) + (Flat(x.kids[i]) + [x.keys[i]] + Flat(x.kids[i + 1])) + After(x, i + 1)
    ensures Flat(MergeKids(x, i, e)) == Before(x, i) + (Flat(x.kids[i]) + [e] + Flat(x.kids[i + 1])) + After(x, i + 1)
    ensures Flat(MergeKids(x, i, e).kids[i]) == Flat(x.kids[i]) + [e] + Flat(x.kids[i + 1])
  {
    var y, z := x.kids[i], x.kids[i + 1];
    assert Kid(y, t, h - 1) && Kid(z, t, h - 1);
    assert WF(y, t, h - 1) && WF(z, t, h - 1);
    JoinFlat(y, e, z, y.ref);
    FuseFlat(x, i, Join(y, e, z, y.ref));
  }

  lemma MergeKidsSize(x: Tree, i: nat, e: Entry, t: nat, h: nat, kb: int, nb: int)
    requires t >= 2 && h > 0 && WF(x, t, h) && i < |x.keys|
    ensures Size(MergeKids(x, i, e), kb, nb) == Size(x, kb, nb) - if h == 1 then kb else nb
  {
    var y, z := x.kids[i], x.kids[i + 1];
    assert Kid(y, t, h - 1) && Kid(z, t, h - 1);
    assert WF(y, t, h - 1) && WF(z, t, h - 1);
    JoinSums(y, e, z, y.ref, kb, nb);
    FuseSums(x, i, Join(y, e, z, y.ref), kb, nb);
  }

  lemma MergeKidsOwn(x: Tree, i: nat, e: Entry)
    requires |x.kids| == |x.keys| + 1 && i < |x.keys|
    ensures Own(MergeKids(x, i, e)) + multiset{x.kids[i + 1].ref} == Own(x)
  {
    var y, z := x.kids[i], x.kids[i + 1];
    var m := Join(y, e, z, y.ref);
    JoinOwn(y, e, z, y.ref);
    FuseSums(x, i, m, 0, 0);
    Absorb(Own(MergeKids(x, i, e)), Own(y) + Own(z), Own(x), Own(m), multiset{y.ref}, multiset{z.ref});
  }

  lemma Absorb(r: multiset<Node>, k: multiset<Node>, x: multiset<Node>, o: multiset<Node>, p: multiset<Node>,
               q: multiset<Node>)
    requires r + k == x + o && o + p + q == k + p
    ensures r + q == x
  {
    forall n ensures (r + q)[n] == x[n] {
      assert (r + k)[n] == (x + o)[n] && (o + p + q)[n] == (k + p)[n];
    }
  }

  /** The last key of y moves up and e moves down in front of c. */
  lemma ShiftRight(y: Tree, e: Entry, c: Tree, t: nat, h: nat, kb: int, nb: int)
    requires WF(y, t, h) && WF(c, t, h) && y.keys != [] && |c.keys| + 1 <= 2 * t - 1
    ensures var n := |y.keys| - 1; var a, b := Low(y, n, y.ref), Join(High(y, n, c.ref), e, c, c.ref);
            && WF(a, t, h) && WF(b, t, h) && a.scion + b.scion == y.scion + c.scion
            && Size(a, kb, nb) + Size(b, kb, nb) == Size(y, kb, nb) + Size(c, kb, nb)
  {
    var n := |y.keys| - 1;
    CutJoin(y, n, y.ref, c.ref, t, h);
    CutSums(y, n, y.ref, c.ref, t, h, kb, nb);
    JoinWF(High(y, n, c.ref), e, c, c.ref, t, h);
    JoinSums(High(y, n, c.ref), e, c, c.ref, kb, nb);
  }

  lemma ShiftRightFlat(y: Tree, e: Entry, c: Tree, t: nat, h: nat)
    requires WF(y, t, h) && WF(c, t, h) && y.keys != []
    ensures var n := |y.keys| - 1;
      var a, b, d := Low(y, n, y.ref), Join(High(y, n, c.ref), e, c, c.ref), High(y, n, c.ref);
            && Flat(a) + [y.keys[n]] + Flat(b) == Flat(y) + [e] + Flat(c) && Flat(b) == Flat(d) + [e] + Flat(c)
  {
    var n := |y.keys| - 1;
    CutJoin(y, n, y.ref, c.ref, t, h);
    CutFlat(y, n, y.ref, c.ref, t, h);
    JoinFlat(High(y, n, c.ref), e, c, c.ref);
    Regroup(Flat(Low(y, n, y.ref)), y.keys[n], Flat(High(y, n, c.ref)), e, Flat(c));
  }

  /** The first key of y moves up and e moves down behind c. */
  lemma ShiftLeft(c: Tree, e: Entry, y: Tree, t: nat, h: nat, kb: int, nb: int)
    requires WF(y, t, h) && WF(c, t, h) && y.keys != [] && |c.keys| + 1 <= 2 * t - 1
    ensures var a, b := Join(c, e, Low(y, 0, c.ref), c.ref), High(y, 0, y.ref);
            && WF(a, t, h) && WF(b, t, h) && a.scion + b.scion == y.scion + c.scion
            && Size(a, kb, nb) + Size(b, kb, nb) == Size(y, kb, nb) + Size(c, kb, nb)
  {
    CutJoin(y, 0, c.ref, y.ref, t, h);
    CutSums(y, 0, c.ref, y.ref, t, h, kb, nb);
    JoinWF(c, e, Low(y, 0, c.ref), c.ref, t, h);
    JoinSums(c, e, Low(y, 0, c.ref), c.ref, kb, nb);
  }

  lemma ShiftLeftFlat(c: Tree, e: Entry, y: Tree, t: nat, h: nat)
    requires WF(y, t, h) && WF(c, t, h) && y.keys != []
    ensures var a, b, d := Join(c, e, Low(y, 0, c.ref), c.ref), High(y, 0, y.ref), Low(y, 0, c.ref);
            && Flat(a) + [y.keys[0]] + Flat(b) == Flat(c) + [e] + Flat(y) && Flat(a) == Flat(c) + [e] + Flat(d)
  {
    var d := Low(y, 0, c.ref);
    CutJoin(y, 0, c.ref, y.ref, t, h);
    CutFlat(y, 0, c.ref, y.ref, t, h);
    JoinFlat(c, e, d, c.ref);
    Regroup(Flat(c), e, Flat(d), y.keys[0], Flat(High(y, 0, y.ref)));
  }

  lemma Regroup(c: seq<Entry>, e: Entry, d: seq<Entry>, k: Entry, b: seq<Entry>)
    ensures (c + [e] + d) + [k] + b == c + [e] + (d + [k] + b)
  {
  }

  lemma ShiftLeftOwn(c: Tree, e: Entry, y: Tree, t: nat, h: nat)
    requires WF(y, t, h) && y.keys != []
    ensures Own(Join(c, e, Low(y, 0, c.ref), c.ref)) + Own(High(y, 0, y.ref)) == Own(c) + Own(y)
  {
    var d := Low(y, 0, c.ref);
    CutOwn(y, 0, c.ref, t, h);
    JoinOwn(c, e, d, c.ref);
    Trade(Own(High(y, 0, y.ref)), Own(d), Own(y), Own(Join(c, e, d, c.ref)), Own(c), multiset{c.ref});
  }

  lemma ShiftRightOwn(y: Tree, e: Entry, c: Tree, t: nat, h: nat)
    requires WF(y, t, h) && y.keys != []
    ensures var n := |y.keys| - 1;
      Own(Low(y, n, y.ref)) + Own(Join(High(y, n, c.ref), e, c, c.ref)) == Own(y) + Own(c)
  {
    var n := |y.keys| - 1;
    var d := High(y, n, c.ref);
    CutOwn(y, n, c.ref, t, h);
    JoinOwn(d, e, c, c.ref);
    Trade(Own(Low(y, n, y.ref)), Own(d), Own(y), Own(Join(d, e, c, c.ref)), Own(c), multiset{c.ref});
  }

  lemma Trade(a: multiset<Node>, d: multiset<Node>, y: multiset<Node>, b: multiset<Node>, c: multiset<Node>,
              p: multiset<Node>)
    requires a + d == y + p && (b + p + p == d + c + p || b + p + p == c + d + p)
    ensures a + b == y + c && b + a == c + y
  {
    forall n ensures a[n] + b[n] == y[n] + c[n] {
      assert (a + d)[n] == (y + p)[n];
      assert (b + p + p)[n] == (d + c + p)[n];
    }
  }

  // ---------------------------------------------------------------- rotations through the parent

  lemma BorrowLeftShape(x: Tree, i: nat, t: nat, h: nat, kb: int, nb: int)
    requires t >= 2 && h > 0 && WF(x, t, h) && i < |x.keys|
    requires |x.kids[i + 1].keys| == t - 1 && |x.kids[i].keys| >= t
    ensures WF(BorrowLeft(x, i), t, h)
    ensures Size(BorrowLeft(x, i), kb, nb) == Size(x, kb, nb)
  {
    var y, c, n, e := x.kids[i], x.kids[i + 1], |x.kids[i].keys| - 1, x.keys[i];
    assert Kid(y, t, h - 1) && Kid(c, t, h - 1);
    ShiftRight(y, e, c, t, h - 1, kb, nb);
    var a, b := Low(y, n, y.ref), Join(High(y, n, c.ref), e, c, c.ref);
    SwapWF(x, i, a, y.keys[n], b, t, h);
    SwapSums(x, i, a, y.keys[n], b, kb, nb);
  }

  lemma BorrowLeftFlat(x: Tree, i: nat, t: nat, h: nat)
    requires h > 0 && WF(x, t, h) && i < |x.keys| && x.kids[i].keys != []
    ensures Flat(BorrowLeft(x, i)) == Flat(x)
    ensures Flat(BorrowLeft(x, i).kids[i + 1]) ==
      Flat(High(x.kids[i], |x.kids[i].keys| - 1, x.kids[i + 1].ref)) + [x.keys[i]] + Flat(x.kids[i + 1])
    ensures Own(BorrowLeft(x, i)) == Own(x)
  {
    var y, c, n, e := x.kids[i], x.kids[i + 1], |x.kids[i].keys| - 1, x.keys[i];
    assert Kid(y, t, h - 1) && Kid(c, t, h - 1);
    ShiftRightFlat(y, e, c, t, h - 1);
    ShiftRightOwn(y, e, c, t, h - 1);
    var a, b := Low(y, n, y.ref), Join(High(y, n, c.ref), e, c, c.ref);
    SwapFlat(x, i, a, y.keys[n], b);
    SwapSums(x, i, a, y.keys[n], b, 0, 0);
    Same(Own(BorrowLeft(x, i)), Own(x), Own(y) + Own(c));
  }

  lemma BorrowRightShape(x: Tree, i: nat, t: nat, h: nat, kb: int, nb: int)
    requires t >= 2 && h > 0 && WF(x, t, h) && i < |x.keys|
    requires |x.kids[i].keys| == t - 1 && |x.kids[i + 1].keys| >= t
    ensures WF(BorrowRight(x, i), t, h)
    ensures Size(BorrowRight(x, i), kb, nb) == Size(x, kb, nb)
  {
    var c, y, e := x.kids[i], x.kids[i + 1], x.keys[i];
    assert Kid(y, t, h - 1) && Kid(c, t, h - 1);
    ShiftLeft(c, e, y, t, h - 1, kb, nb);
    var a, b := Join(c, e, Low(y, 0, c.ref), c.ref), High(y, 0, y.ref);
    SwapWF(x, i, a, y.keys[0], b, t, h);
    SwapSums(x, i, a, y.keys[0], b, kb, nb);
  }

  lemma BorrowRightFlat(x: Tree, i: nat, t: nat, h: nat)
    requires h > 0 && WF(x, t, h) && i < |x.keys| && x.kids[i + 1].keys != []
    ensures Flat(BorrowRight(x, i)) == Flat(x)
    ensures Flat(BorrowRight(x, i).kids[i]) ==
      Flat(x.kids[i]) + [x.keys[i]] + Flat(Low(x.kids[i + 1], 0, x.kids[i].ref))
    ensures Own(BorrowRight(x, i)) == Own(x)
  {
    var c, y, e := x.kids[i], x.kids[i + 1], x.keys[i];
    assert Kid(y, t, h - 1) && Kid(c, t, h - 1);
    ShiftLeftFlat(c, e, y, t, h - 1);
    ShiftLeftOwn(c, e, y, t, h - 1);
    var a, b := Join(c, e, Low(y, 0, c.ref), c.ref), High(y, 0, y.ref);
    SwapFlat(x, i, a, y.keys[0], b);
    SwapSums(x, i, a, y.keys[0], b, 0, 0);
    Same(Own(BorrowRight(x, i)), Own(x), Own(c) + Own(y));
  }

  lemma Same(r: multiset<Node>, x: multiset<Node>, m: multiset<Node>)
    requires r + m == x + m
    ensures r == x
  {
    forall n ensures r[n] == x[n] {
      assert (r + m)[n] == (x + m)[n];
    }
  }
}
