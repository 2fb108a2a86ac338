/** Deletion (ai/src/bt_code.c: deletekey, remove_key), with all its cases of borrowing and merging. */
module BtreeDelete {
  import opened Entries
  import opened BtreeSpec
  import opened BtreeOrder
  import opened BtreeNode
  import opened Btree
  import opened Search

  /** What to delete: a given key (DK_NONE), the greatest key (DK_2A) or the least (DK_2B). */
  datatype Which = ByKey | Greatest | Least

  ghost predicate Wanted(s: Which, k: int, all: seq<Entry>) {
    if s == ByKey then Has(all, k) else all != []
  }

  /** `left` is `all` without what was to be deleted, and `gone` is the extreme entry taken out. */
  ghost predicate Removed(s: Which, k: int, all: seq<Entry>, left: seq<Entry>, gone: Entry) {
    match s
    case ByKey => left == Del(all, k)
    case Greatest => all == left + [gone]
    case Least => all == [gone] + left
  }

  lemma RemovedFacts(s: Which, k: int, all: seq<Entry>, left: seq<Entry>, gone: Entry)
    requires Sorted(all) && Wanted(s, k, all) && Removed(s, k, all, left, gone)
    ensures Sorted(left) && |left| == |all| - 1
  {
    match s
    case ByKey => DelSorted(all, k);
    case Greatest => assert left + [gone] + [] == all; SortedParts(left, [gone], []);
    case Least => assert [] + [gone] + left == all; SortedParts([], [gone], left);
  }

  // ---------------------------------------------------------------- giving a child a key to spare

  /** x became r without losing an entry, and what was in child i is now in child j, which has a key to spare. */
  ghost predicate Fixed(x: Tree, i: nat, r: Tree, j: nat, t: nat)
    requires i < |x.kids|
  {
    && r.ref == x.ref && Flat(r) == Flat(x) && |x.keys| - 1 <= |r.keys|
    && j <= |r.keys| && |r.kids| == |r.keys| + 1 && |r.kids[j].keys| >= t
    && (i == |x.keys| ==> j == |r.keys|) && (i == 0 ==> j == 0)
    && (forall k :: Has(Flat(x.kids[i]), k) ==> Has(Flat(r.kids[j]), k))
    && Own(r) <= Own(x)
  }

  lemma HasConcat(l: seq<Entry>, m: seq<Entry>, r: seq<Entry>)
    ensures forall k :: Has(m, k) ==> Has(l + m + r, k)
  {
    forall k | Has(m, k) ensures Has(l + m + r, k) {
      var j :| 0 <= j < |m| && m[j].key == k;
      assert (l + m + r)[|l| + j].key == k;
    }
  }

  lemma BorrowLeftFixed(x: Tree, i: nat, t: nat, h: nat)
    requires t >= 2 && h > 0 && Shaped(x, t, h) == true && i < |x.keys|
    requires |x.kids[i + 1].keys| == t - 1 && |x.kids[i].keys| >= t
    ensures Shaped(BorrowLeft(x, i), t, h) == true && Fixed(x, i + 1, BorrowLeft(x, i), i + 1, t)
  {
    BorrowLeftShape(x, i, t, h, 0, 0);
    BorrowLeftFlat(x, i, t, h);
    var c := x.kids[i + 1];
    HasConcat(Flat(High(x.kids[i], |x.kids[i].keys| - 1, c.ref)) + [x.keys[i]], Flat(c), []);
    assert Flat(BorrowLeft(x, i).kids[i + 1]) + [] == Flat(BorrowLeft(x, i).kids[i + 1]);
  }

  lemma BorrowRightFixed(x: Tree, i: nat, t: nat, h: nat)
    requires t >= 2 && h > 0 && Shaped(x, t, h) == true && i < |x.keys|
    requires |x.kids[i].keys| == t - 1 && |x.kids[i + 1].keys| >= t
    ensures Shaped(BorrowRight(x, i), t, h) == true && Fixed(x, i, BorrowRight(x, i), i, t)
  {
    BorrowRightShape(x, i, t, h, 0, 0);
    BorrowRightFlat(x, i, t, h);
    var c, d := x.kids[i], Flat(Low(x.kids[i + 1], 0, x.kids[i].ref));
    HasConcat([], Flat(c), [x.keys[i]] + d);
    assert [] + Flat(c) + ([x.keys[i]] + d) == Flat(c) + [x.keys[i]] + d;
  }

  lemma MergeFixed(x: Tree, i: nat, t: nat, h: nat)
    requires t >= 2 && h > 0 && Shaped(x, t, h) == true && i < |x.keys|
    requires |x.kids[i].keys| == t - 1 && |x.kids[i + 1].keys| == t - 1
    ensures var r := MergeKids(x, i, x.keys[i]);
      Shaped(r, t, h) == true && Fixed(x, i, r, i, t) && Fixed(x, i + 1, r, i, t)
  {
    var e := x.keys[i];
    MergeKidsShape(x, i, e, t, h);
    MergeKidsFlat(x, i, e, t, h);
    MergeKidsOwn(x, i, e);
    SubDistinct(MergeKids(x, i, e), x);
    var y, z := Flat(x.kids[i]), Flat(x.kids[i + 1]);
    HasConcat([], y, [e] + z);
    HasConcat(y + [e], z, []);
    assert [] + y + ([e] + z) == y + [e] + z && y + [e] + z + [] == y + [e] + z;
  }

  /** Case 3a, left: child i takes a key from child i-1 through x. */
  method TakeFromLeft(b: BTree, x: Node, i: nat, ghost xt: Tree, ghost h: nat) returns (ghost r: Tree)
    requires b.Config() && h > 0 && x == xt.ref && Sound(xt, b.t, h) == true && 0 < i <= |xt.keys|
    requires |xt.kids[i].keys| == b.t - 1 && |xt.kids[i - 1].keys| >= b.t
    modifies Own(xt)
    ensures Sound(r, b.t, h) == true && Fixed(xt, i, r, i, b.t) == true
    ensures Size(r, b.kbyte, b.nbyte) == Size(xt, b.kbyte, b.nbyte)
  {
    OwnTop(xt, i);
    OwnTop(xt, i - 1);
    BorrowLeftFixed(xt, i - 1, b.t, h);
    BorrowLeftShape(xt, i - 1, b.t, h, b.kbyte, b.nbyte);
    r := BorrowLeft(xt, i - 1);
    LendRight(x, i - 1, xt, b.t, h);
  }

  /** Case 3a, right: child i takes a key from child i+1 through x. */
  method TakeFromRight(b: BTree, x: Node, i: nat, ghost xt: Tree, ghost h: nat) returns (ghost r: Tree)
    requires b.Config() && h > 0 && x == xt.ref && Sound(xt, b.t, h) == true && i < |xt.keys|
    requires |xt.kids[i].keys| == b.t - 1 && |xt.kids[i + 1].keys| >= b.t
    modifies Own(xt)
    ensures Sound(r, b.t, h) == true && Fixed(xt, i, r, i, b.t) == true
    ensures Size(r, b.kbyte, b.nbyte) == Size(xt, b.kbyte, b.nbyte)
  {
    OwnTop(xt, i);
    OwnTop(xt, i + 1);
    BorrowRightFixed(xt, i, b.t, h);
    BorrowRightShape(xt, i, b.t, h, b.kbyte, b.nbyte);
    r := BorrowRight(xt, i);
    LendLeft(x, i, xt, b.t, h);
  }

  /** Cases 2c and 3b: children i and i+1 are merged around e, and the right one's node is freed. */
  method MergeAt(b: BTree, x: Node, i: nat, e: Entry, ghost xt: Tree, ghost h: nat)
    requires b.Config() && h > 0 && x == xt.ref && Sound(xt, b.t, h) == true && i < |xt.keys|
    modifies b`msize, Own(xt)
    ensures Rep(MergeKids(xt, i, e))
    ensures b.msize - old(b.msize) == Size(MergeKids(xt, i, e), b.kbyte, b.nbyte) - Size(xt, b.kbyte, b.nbyte)
  {
    OwnTop(xt, i);
    MergeKidsSize(xt, i, e, b.t, h, b.kbyte, b.nbyte);
    KidFields(xt, b.t, h);
    var leaf := x.kids[i + 1].leaf;
    assert allocated(Own(MergeKids(xt, i, e)));
    MergeChildren(x, i, e, xt, b.t, h);
    b.msize := b.msize - if leaf then b.kbyte else b.nbyte;
  }

  /** Case 3b: children i and i+1, which have only t-1 keys each, are merged around the key between them. */
  method MergePair(b: BTree, x: Node, i: nat, ghost xt: Tree, ghost h: nat) returns (ghost r: Tree)
    requires b.Config() && h > 0 && x == xt.ref && Sound(xt, b.t, h) == true && i < |xt.keys|
    requires |xt.kids[i].keys| == b.t - 1 && |xt.kids[i + 1].keys| == b.t - 1
    modifies b`msize, Own(xt)
    ensures Sound(r, b.t, h) == true && Fixed(xt, i, r, i, b.t) == true && Fixed(xt, i + 1, r, i, b.t) == true
    ensures b.msize - old(b.msize) == Size(r, b.kbyte, b.nbyte) - Size(xt, b.kbyte, b.nbyte)
  {
    KidFields(xt, b.t, h);
    MergeFixed(xt, i, b.t, h);
    r := MergeKids(xt, i, xt.keys[i]);
    MergeAt(b, x, i, x.keys[i], xt, h);
  }

  /** Case 3: gives child i, which has only t-1 keys, one more, from a sibling or by merging with it. */
  method FixChild(b: BTree, x: Node, i: nat, ghost xt: Tree, ghost h: nat) returns (j: nat, ghost r: Tree)
    requires b.Config() && h > 0 && x == xt.ref && Sound(xt, b.t, h) == true && i <= |xt.keys| && xt.keys != []
    requires |xt.kids[i].keys| == b.t - 1
    modifies b`msize, Own(xt)
    ensures Sound(r, b.t, h) == true && Fixed(xt, i, r, j, b.t) == true
    ensures b.msize - old(b.msize) == Size(r, b.kbyte, b.nbyte) - Size(xt, b.kbyte, b.nbyte)
  {
    KidFields(xt, b.t, h);
    if i > 0 && |x.kids[i - 1].keys| >= b.t {
      j := i;
      r := TakeFromLeft(b, x, i, xt, h);
    } else if i < |x.keys| && |x.kids[i + 1].keys| >= b.t {
      j := i;
      r := TakeFromRight(b, x, i, xt, h);
    } else if i > 0 {
      j := i - 1;
      r := MergePair(b, x, i - 1, xt, h);
    } else {
      j := i;
      r := MergePair(b, x, i, xt, h);
    }
  }

  // ---------------------------------------------------------------- deletion below a child

  lemma ChildCount(x: Tree, i: nat, c: Tree, s: Which, k: int, gone: Entry, t: nat, h: nat)
    requires h > 0 && Shaped(x, t, h) == true && i <= |x.keys| && Wanted(s, k, Flat(x.kids[i]))
    requires WF(c, t, h - 1) && Removed(s, k, Flat(x.kids[i]), Flat(c), gone)
    ensures c.scion == x.kids[i].scion - 1
  {
    assert Kid(x.kids[i], t, h - 1);
    PutFlat(x, i, x.kids[i], 0);
    SortedParts(Before(x, i), Flat(x.kids[i]), After(x, i));
    RemovedFacts(s, k, Flat(x.kids[i]), Flat(c), gone);
    ScionIsCount(c, t, h - 1);
    ScionIsCount(x.kids[i], t, h - 1);
  }

  /** An extreme entry of x is one of its first or last child. */
  ghost predicate AtEdge(s: Which, x: Tree, i: nat) {
    (s == Greatest ==> i == |x.keys|) && (s == Least ==> i == 0)
  }

  lemma RemovedBelow(x: Tree, i: nat, c: Tree, s: Which, k: int, gone: Entry)
    requires |x.kids| == |x.keys| + 1 && i <= |x.keys| && Sorted(Flat(x)) && AtEdge(s, x, i)
    requires Wanted(s, k, Flat(x.kids[i])) && Removed(s, k, Flat(x.kids[i]), Flat(c), gone)
    ensures Wanted(s, k, Flat(x)) && Removed(s, k, Flat(x), Flat(Put(x, i, c, -1)), gone)
  {
    PutFlat(x, i, c, -1);
    var l, m, r := Before(x, i), Flat(x.kids[i]), After(x, i);
    match s
    case ByKey => DelMid(l, m, r, k); HasConcat(l, m, r);
    case Greatest => assert r == [] && l + (Flat(c) + [gone]) + r == l + Flat(c) + r + [gone];
    case Least => assert l == [] && l + ([gone] + Flat(c)) + r == [gone] + (l + Flat(c) + r);
  }

  lemma DeleteDone(x: Tree, i: nat, c: Tree, s: Which, k: int, gone: Entry, t: nat, h: nat)
    requires h > 0 && Shaped(x, t, h) == true && i <= |x.keys| && |x.kids| == |x.keys| + 1 && AtEdge(s, x, i)
    requires Wanted(s, k, Flat(x.kids[i])) && Removed(s, k, Flat(x.kids[i]), Flat(c), gone) == true
    requires Sound(c, t, h - 1) == true && t - 1 <= |c.keys| && c.ref == x.kids[i].ref && Own(c) <= Own(x.kids[i])
    requires x.ref.keys == x.keys && x.ref.kids == Refs(x.kids) && x.ref.scion == x.scion - 1 && !x.ref.leaf
    requires forall j :: j in Others(x, i) ==> Rep(j)
    ensures Sound(Put(x, i, c, -1), t, h) == true && Own(Put(x, i, c, -1)) <= Own(x)
    ensures Removed(s, k, Flat(x), Flat(Put(x, i, c, -1)), gone) == true
  {
    ChildCount(x, i, c, s, k, gone, t, h);
    ReplaceWF(x, x.keys, i, c, x.scion - 1, t, h);
    ReplaceRep(x, x.keys, i, c, x.scion - 1);
    OwnLess(x, x.keys, i, c, x.scion - 1);
    SubDistinct(Put(x, i, c, -1), x);
    RemovedBelow(x, i, c, s, k, gone);
    RemovedFacts(s, k, Flat(x), Flat(Put(x, i, c, -1)), gone);
  }

  lemma OwnLess(x: Tree, ks: seq<Entry>, i: nat, c: Tree, s: int)
    requires i < |x.kids| && Own(c) <= Own(x.kids[i])
    ensures Own(Replace(x, ks, i, c, s)) <= Own(x)
  {
    ReplaceSums(x, ks, i, c, s, 0, 0);
    Shrink(Own(Replace(x, ks, i, c, s)), Own(x.kids[i]), Own(x), Own(c));
  }

  lemma Shrink(r: multiset<Node>, k: multiset<Node>, a: multiset<Node>, b: multiset<Node>)
    requires r + k == a + b && b <= k
    ensures r <= a
  {
    var d := k - b;
    assert r + d + b == r + k by { assert k == b + d; }
    Same(r + d, a, b);
  }

  /**
    Deletion below x, a child of p, whose counter goes down. When a slot is given, the entry taken out
    replaces p's key in it (cases 2a and 2b). The trees of keep are left alone.
   */
  method DeleteUnder(b: BTree, p: Node, slot: int, x: Node, k: Entry, s: Which, ghost xt: Tree, ghost h: nat,
                     ghost keep: set<Tree>)
    returns (gone: Entry, ghost r: Tree)
    requires b.Config() && x == xt.ref && Sound(xt, b.t, h) == true && (h > 0 ==> xt.keys != []) &&
      Wanted(s, k.key, Flat(xt))
    requires p !in Own(xt) && slot < |p.keys| && forall c :: c in keep ==> Rep(c) && Own(c) !! Own(xt) && p !in Own(c)
    modifies b`msize, Own(xt), p
    ensures Sound(r, b.t, h) == true && r.ref == x && |r.keys| >= |xt.keys| - 1 && Own(r) <= Own(xt)
    ensures Removed(s, k.key, Flat(xt), Flat(r), gone) == true
    ensures b.msize - old(b.msize) == Size(r, b.kbyte, b.nbyte) - Size(xt, b.kbyte, b.nbyte)
    ensures forall c :: c in keep ==> Rep(c)
    ensures unchanged(p`kids, p`leaf) && p.scion == old(p.scion) - 1
    ensures p.keys == if slot >= 0 then old(p.keys)[slot := gone] else old(p.keys)
    decreases h, 5
  {
    assert forall c :: c in keep ==> allocated(Own(c));
    gone, r := DeleteKey(b, x, k, s, xt, h);
    assert p !in Own(r);
    Write(p, if slot >= 0 then p.keys[slot := gone] else p.keys, p.kids, p.scion - 1, keep + {r});
  }

  /** Deletion in child i of x, which has a key to spare. */
  method DeleteDown(b: BTree, x: Node, i: nat, k: Entry, s: Which, ghost xt: Tree, ghost h: nat)
    returns (gone: Entry, ghost r: Tree)
    requires b.Config() && h > 0 && x == xt.ref && Sound(xt, b.t, h) == true && i <= |xt.keys| && AtEdge(s, xt, i)
    requires |xt.kids[i].keys| >= b.t && Wanted(s, k.key, Flat(xt.kids[i]))
    modifies b`msize, Own(xt)
    ensures Sound(r, b.t, h) == true && r.ref == x && |r.keys| == |xt.keys| && Own(r) <= Own(xt)
    ensures Removed(s, k.key, Flat(xt), Flat(r), gone) == true
    ensures b.msize - old(b.msize) == Size(r, b.kbyte, b.nbyte) - Size(xt, b.kbyte, b.nbyte)
    decreases h, 0
  {
    DownReady(xt, i, b.t, h);
    ghost var c;
    gone, c := DeleteUnder(b, x, -1, x.kids[i], k, s, xt.kids[i], h - 1, Others(xt, i));
    r := Put(xt, i, c, -1);
    DeleteDone(xt, i, c, s, k.key, gone, b.t, h);
    ReplaceSums(xt, xt.keys, i, c, xt.scion - 1, b.kbyte, b.nbyte);
  }

  lemma LeafRemoved(x: Tree, i: nat, k: int, s: Which, t: nat)
    requires Shaped(x, t, 0) == true && i < |x.keys|
    requires (s == ByKey ==> x.keys[i].key == k) && (s == Greatest ==> i == |x.keys| - 1) && (s == Least ==> i == 0)
    ensures Flat(x) == x.keys && Own(x) == multiset{x.ref} && x.kids == [] && x.scion == |x.keys|
    ensures var ks := x.keys[..i] + x.keys[i + 1..]; Sorted(ks) && Removed(s, k, x.keys, ks, x.keys[i]) == true
  {
    assert Flat(x) == Body(x.keys, x.kids);
    DelAt(x.keys, i);
    RemovedFacts(s, k, x.keys, x.keys[..i] + x.keys[i + 1..], x.keys[i]);
  }

  /** Case 1: takes slot i out of leaf x. */
  method DeleteLeaf(b: BTree, x: Node, i: nat, k: int, s: Which, ghost xt: Tree) returns (gone: Entry, ghost r: Tree)
    requires x == xt.ref && Sound(xt, b.t, 0) == true && i < |xt.keys|
    requires (s == ByKey ==> xt.keys[i].key == k) && (s == Greatest ==> i == |xt.keys| - 1) && (s == Least ==> i == 0)
    modifies x
    ensures Sound(r, b.t, 0) == true && r.ref == x && |r.keys| == |xt.keys| - 1 && Own(r) == Own(xt)
    ensures Removed(s, k, Flat(xt), Flat(r), gone) == true
    ensures Size(r, b.kbyte, b.nbyte) == Size(xt, b.kbyte, b.nbyte)
  {
    LeafRemoved(xt, i, k, s, b.t);
    gone := x.keys[i];
    x.keys := x.keys[..i] + x.keys[i + 1..];
    x.scion := x.scion - 1;
    r := Tree(x, x.keys, [], x.scion);
    LeafSound(r, b.t);
  }

  // ---------------------------------------------------------------- a key found in an internal node

  lemma DelBetween(l: seq<Entry>, e: Entry, r: seq<Entry>)
    requires Sorted(l + [e] + r)
    ensures Del(l + [e] + r, e.key) == l + r
  {
    var s := l + [e] + r;
    assert s[|l|] == e;
    DelAt(s, |l|);
    assert s[..|l|] == l && s[|l| + 1..] == r;
  }

  /** Case 2a: key i of x gives way to g, the greatest entry below it. */
  lemma PredFlat(x: Tree, i: nat, c: Tree, g: Entry, n: int)
    requires |x.kids| == |x.keys| + 1 && i < |x.keys| && Sorted(Flat(x)) && Flat(x.kids[i]) == Flat(c) + [g]
    ensures Flat(Replace(x, x.keys[i := g], i, c, n)) == Del(Flat(x), x.keys[i].key)
  {
    var l, m, z, r := Before(x, i), Flat(c) + [g], Flat(x.kids[i + 1]), After(x, i + 1);
    SwapFlat(x, i, c, g, x.kids[i + 1]);
    assert x.kids[..i] + [c] + x.kids[i + 1..] == x.kids[..i] + [c, x.kids[i + 1]] + x.kids[i + 2..];
    assert Flat(x) == (l + m) + [x.keys[i]] + (z + r);
    DelBetween(l + m, x.keys[i], z + r);
    assert l + (m + z) + r == (l + m) + (z + r);
  }

  /** Case 2b: key i of x gives way to g, the least entry above it. */
  lemma SuccFlat(x: Tree, i: nat, c: Tree, g: Entry, n: int)
    requires |x.kids| == |x.keys| + 1 && i < |x.keys| && Sorted(Flat(x)) && Flat(x.kids[i + 1]) == [g] + Flat(c)
    ensures Flat(Replace(x, x.keys[i := g], i + 1, c, n)) == Del(Flat(x), x.keys[i].key)
  {
    var l, y, m, r := Before(x, i), Flat(x.kids[i]), [g] + Flat(c), After(x, i + 1);
    SwapFlat(x, i, x.kids[i], g, c);
    assert x.kids[..i + 1] + [c] + x.kids[i + 2..] == x.kids[..i] + [x.kids[i], c] + x.kids[i + 2..];
    assert Flat(x) == (l + y) + [x.keys[i]] + (m + r);
    DelBetween(l + y, x.keys[i], m + r);
    assert l + (y + [g] + Flat(c)) + r == (l + y) + (m + r);
  }

  /** Key i of x was replaced by g and child j, next to it, by c. */
  lemma ReplaceDone(x: Tree, i: nat, j: nat, c: Tree, s: Which, g: Entry, t: nat, h: nat)
    requires h > 0 && Shaped(x, t, h) == true && i < |x.keys| && |x.kids| == |x.keys| + 1
    requires (s == Greatest && j == i) || (s == Least && j == i + 1)
    requires Removed(s, 0, Flat(x.kids[j]), Flat(c), g) == true
    requires Sound(c, t, h - 1) == true && t - 1 <= |c.keys| && c.ref == x.kids[j].ref && Own(c) <= Own(x.kids[j])
    requires x.ref.keys == x.keys[i := g] && x.ref.kids == Refs(x.kids) && x.ref.scion == x.scion - 1 && !x.ref.leaf
    requires forall o :: o in Others(x, j) ==> Rep(o)
    ensures var r := Replace(x, x.keys[i := g], j, c, x.scion - 1);
      Sound(r, t, h) == true && Own(r) <= Own(x) && Flat(r) == Del(Flat(x), x.keys[i].key)
  {
    var ks, n := x.keys[i := g], x.scion - 1;
    ChildCount(x, j, c, s, 0, g, t, h);
    ReplaceWF(x, ks, j, c, n, t, h);
    ReplaceRep(x, ks, j, c, n);
    OwnLess(x, ks, j, c, n);
    SubDistinct(Replace(x, ks, j, c, n), x);
    DelSorted(Flat(x), x.keys[i].key);
    if s == Greatest {
      PredFlat(x, i, c, g, n);
    } else {
      SuccFlat(x, i, c, g, n);
    }
  }

  /** Cases 2a and 2b: the neighbour of key i in child j, which has a key to spare, takes its place. */
  method DeleteByNeighbour(b: BTree, x: Node, i: nat, j: nat, k: Entry, s: Which, ghost xt: Tree, ghost h: nat)
    returns (gone: Entry, ghost r: Tree)
    requires b.Config() && h > 0 && x == xt.ref && Sound(xt, b.t, h) == true && i < |xt.keys|
    requires (s == Greatest && j == i) || (s == Least && j == i + 1)
    requires |xt.kids[j].keys| >= b.t
    modifies b`msize, Own(xt)
    ensures Sound(r, b.t, h) == true && r.ref == x && |r.keys| == |xt.keys| && Own(r) <= Own(xt)
    ensures Flat(r) == Del(Flat(xt), xt.keys[i].key)
    ensures b.msize - old(b.msize) == Size(r, b.kbyte, b.nbyte) - Size(xt, b.kbyte, b.nbyte)
    decreases h, 0
  {
    DownReady(xt, j, b.t, h);
    NotEmpty(xt.kids[j], b.t, h - 1);
    ghost var c;
    gone, c := DeleteUnder(b, x, i, x.kids[j], k, s, xt.kids[j], h - 1, Others(xt, j));
    r := Replace(xt, xt.keys[i := gone], j, c, xt.scion - 1);
    ReplaceDone(xt, i, j, c, s, gone, b.t, h);
    ReplaceSums(xt, xt.keys[i := gone], j, c, xt.scion - 1, b.kbyte, b.nbyte);
  }

  lemma NotEmpty(x: Tree, t: nat, h: nat)
    requires Sound(x, t, h) == true && x.keys != []
    ensures Flat(x) != []
  {
    KeysSorted(x, t, h);
    assert x.keys[0] in Flat(x);
  }

  /** Case 2c: key i of x is merged with its two children, and deleted from there. */
  method DeleteByMerge(b: BTree, x: Node, i: nat, k: Entry, ghost xt: Tree, ghost h: nat)
    returns (gone: Entry, ghost r: Tree)
    requires b.Config() && h > 0 && x == xt.ref && Sound(xt, b.t, h) == true && i < |xt.keys| && xt.keys[i].key == k.key
    requires |xt.kids[i].keys| == b.t - 1 && |xt.kids[i + 1].keys| == b.t - 1
    modifies b`msize, Own(xt)
    ensures Sound(r, b.t, h) == true && r.ref == x && |r.keys| == |xt.keys| - 1 && Own(r) <= Own(xt)
    ensures Flat(r) == Del(Flat(xt), k.key)
    ensures b.msize - old(b.msize) == Size(r, b.kbyte, b.nbyte) - Size(xt, b.kbyte, b.nbyte)
    decreases h, 1
  {
    ghost var m := MergeKids(xt, i, k);
    MergedKey(xt, i, k, b.t, h);
    MergeAt(b, x, i, k, xt, h);
    gone, r := DeleteDown(b, x, i, k, ByKey, m, h);
  }

  /** Merging around k, which has the key of slot i but not its payload, changes no other entry. */
  lemma MergedKey(x: Tree, i: nat, k: Entry, t: nat, h: nat)
    requires t >= 2 && h > 0 && Shaped(x, t, h) == true && i < |x.keys| && x.keys[i].key == k.key
    requires |x.kids[i].keys| == t - 1 && |x.kids[i + 1].keys| == t - 1
    ensures var m := MergeKids(x, i, k);
      && Shaped(m, t, h) == true && |m.keys| == |x.keys| - 1 && |m.kids| == |m.keys| + 1 && |m.kids[i].keys| >= t
      && Own(m) <= Own(x) && Has(Flat(m.kids[i]), k.key) && Del(Flat(m), k.key) == Del(Flat(x), k.key)
  {
    MergeKidsShape(x, i, k, t, h);
    MergeKidsFlat(x, i, k, t, h);
    MergeKidsOwn(x, i, k);
    var m := MergeKids(x, i, k);
    SubDistinct(m, x);
    var l, y, z, r := Before(x, i), Flat(x.kids[i]), Flat(x.kids[i + 1]), After(x, i + 1);
    assert (y + [k] + z)[|y|] == k;
    assert Flat(x) == (l + y) + [x.keys[i]] + (z + r) && Flat(m) == (l + y) + [k] + (z + r);
    DelPayload(l + y, x.keys[i], k, z + r);
    SwapPayload(l + y, x.keys[i], k, z + r);
  }

  lemma SwapPayload(l: seq<Entry>, a: Entry, b: Entry, r: seq<Entry>)
    requires a.key == b.key && Sorted(l + [a] + r)
    ensures Sorted(l + [b] + r)
  {
    var s, u := l + [a] + r, l + [b] + r;
    assert forall i :: 0 <= i < |u| ==> u[i].key == s[i].key;
  }

  /** Case 3: deletion in child i, which is given a key to spare first. */
  method DeleteInChild(b: BTree, x: Node, i: nat, k: Entry, s: Which, ghost xt: Tree, ghost h: nat)
    returns (gone: Entry, ghost r: Tree)
    requires b.Config() && h > 0 && x == xt.ref && Sound(xt, b.t, h) == true && i <= |xt.keys| && xt.keys != []
    requires AtEdge(s, xt, i) && Wanted(s, k.key, Flat(xt.kids[i]))
    modifies b`msize, Own(xt)
    ensures Sound(r, b.t, h) == true && r.ref == x && |r.keys| >= |xt.keys| - 1 && Own(r) <= Own(xt)
    ensures Removed(s, k.key, Flat(xt), Flat(r), gone) == true
    ensures b.msize - old(b.msize) == Size(r, b.kbyte, b.nbyte) - Size(xt, b.kbyte, b.nbyte)
    decreases h, 2
  {
    KidFields(xt, b.t, h);
    var j := i;
    ghost var y := xt;
    if |x.kids[i].keys| == b.t - 1 {
      j, y := FixChild(b, x, i, xt, h);
      assert Wanted(s, k.key, Flat(y.kids[j])) by {
        if s != ByKey {
          DownReady(y, j, b.t, h);
          NotEmpty(y.kids[j], b.t, h - 1);
        }
      }
    }
    gone, r := DeleteDown(b, x, j, k, s, y, h);
  }

  /** Case 2: key i of the internal node x is the one to delete. */
  method DeleteFound(b: BTree, x: Node, i: nat, k: Entry, ghost xt: Tree, ghost h: nat)
    returns (gone: Entry, ghost r: Tree)
    requires b.Config() && h > 0 && x == xt.ref && Sound(xt, b.t, h) == true && i < |xt.keys| && xt.keys[i].key == k.key
    modifies b`msize, Own(xt)
    ensures Sound(r, b.t, h) == true && r.ref == x && |r.keys| >= |xt.keys| - 1 && Own(r) <= Own(xt)
    ensures Flat(r) == Del(Flat(xt), k.key)
    ensures b.msize - old(b.msize) == Size(r, b.kbyte, b.nbyte) - Size(xt, b.kbyte, b.nbyte)
    decreases h, 2
  {
    KidFields(xt, b.t, h);
    if |x.kids[i].keys| >= b.t {
      gone, r := DeleteByNeighbour(b, x, i, i, k, Greatest, xt, h);
    } else if |x.kids[i + 1].keys| >= b.t {
      gone, r := DeleteByNeighbour(b, x, i, i + 1, k, Least, xt, h);
    } else {
      gone, r := DeleteByMerge(b, x, i, k, xt, h);
    }
  }

  /** Deletion of the greatest or least entry below x. */
  method DeleteExtreme(b: BTree, x: Node, k: Entry, s: Which, ghost xt: Tree, ghost h: nat)
    returns (gone: Entry, ghost r: Tree)
    requires b.Config() && x == xt.ref && Sound(xt, b.t, h) == true && (h > 0 ==> xt.keys != []) && s != ByKey &&
      Flat(xt) != []
    modifies b`msize, Own(xt)
    ensures Sound(r, b.t, h) == true && r.ref == x && |r.keys| >= |xt.keys| - 1 && Own(r) <= Own(xt)
    ensures Removed(s, k.key, Flat(xt), Flat(r), gone) == true
    ensures b.msize - old(b.msize) == Size(r, b.kbyte, b.nbyte) - Size(xt, b.kbyte, b.nbyte)
    decreases h, 3
  {
    if x.leaf {
      assert Flat(xt) == xt.keys;
      gone, r := DeleteLeaf(b, x, if s == Greatest then |x.keys| - 1 else 0, k.key, s, xt);
    } else {
      var i := if s == Greatest then |x.keys| else 0;
      DownReady(xt, i, b.t, h);
      NotEmpty(xt.kids[i], b.t, h - 1);
      gone, r := DeleteInChild(b, x, i, k, s, xt, h);
    }
  }

  /**
    deletekey: deletion below x. `k` holds the key to delete, with any payload. The node keeps all
    but one of its keys at least, so a node with t keys stays well formed.
   */
  method DeleteKey(b: BTree, x: Node, k: Entry, s: Which, ghost xt: Tree, ghost h: nat)
    returns (gone: Entry, ghost r: Tree)
    requires b.Config() && x == xt.ref && Sound(xt, b.t, h) == true && (h > 0 ==> xt.keys != []) &&
      Wanted(s, k.key, Flat(xt))
    modifies b`msize, Own(xt)
    ensures Sound(r, b.t, h) == true && r.ref == x && |r.keys| >= |xt.keys| - 1 && Own(r) <= Own(xt)
    ensures Removed(s, k.key, Flat(xt), Flat(r), gone) == true
    ensures b.msize - old(b.msize) == Size(r, b.kbyte, b.nbyte) - Size(xt, b.kbyte, b.nbyte)
    decreases h, 4
  {
    if s != ByKey {
      gone, r := DeleteExtreme(b, x, k, s, xt, h);
      return;
    }
    var i, found := b.Locate(x, k.key, xt, h);
    if x.leaf {
      gone, r := DeleteLeaf(b, x, i, k.key, s, xt);
    } else if found {
      gone, r := DeleteFound(b, x, i, k, xt, h);
    } else {
      gone, r := DeleteInChild(b, x, i + 1, k, s, xt, h);
    }
  }

  /** An internal root left without keys gives way to its only child. */
  lemma Collapse(r: Tree, t: nat, h: nat, kb: int, nb: int)
    requires Sound(r, t, h) == true && h > 0 && r.keys == [] && t >= 2
    ensures |r.kids| == 1 && Sound(r.kids[0], t, h - 1) == true && r.kids[0].keys != [] && Flat(r.kids[0]) == Flat(r)
    ensures Own(r.kids[0]) <= Own(r) && Size(r.kids[0], kb, nb) == Size(r, kb, nb) - nb
    ensures r.ref.kids == [r.kids[0].ref] && r.ref.keys == [] && !r.ref.leaf
  {
    DownReady(r, 0, t, h);
    assert r.kids == [r.kids[0]];
    Single(r.kids[0], kb, nb);
    assert Flat(r) == Weave([], r.kids);
  }

  /** Makes r the tree, dropping an internal root that has no key left. */
  method Finish(b: BTree, count: int, ghost r: Tree, ghost h: nat)
    requires b.Config() && b.root == r.ref && Sound(r, b.t, h) == true && count == |Flat(r)|
    requires b.msize == SIZEOF_BTREE + Size(r, b.kbyte, b.nbyte)
    modifies b
    ensures b.Valid() && b.Contents() == Flat(r) && Own(b.tree) <= Own(r)
  {
    if |b.root.keys| == 0 && !b.root.leaf {
      Collapse(r, b.t, h, b.kbyte, b.nbyte);
      assert allocated(Own(r.kids[0]));
      b.msize := b.msize - b.nbyte;
      b.Install(b.root.kids[0], count, r.kids[0], h - 1);
    } else {
      b.Install(b.root, count, r, h);
    }
  }

  /** remove_key: deletes the entry with k's key, which must be there. */
  method Remove(b: BTree, k: Entry)
    requires b.Valid() && Has(b.Contents(), k.key)
    modifies b, Own(b.tree)
    ensures b.Valid() && b.Contents() == Del(old(b.Contents()), k.key)
    ensures Own(b.tree) <= old(Own(b.tree))
  {
    ghost var before := b.Contents();
    var gone; ghost var r;
    gone, r := DeleteKey(b, b.root, k, ByKey, b.tree, b.height);
    RemovedFacts(ByKey, k.key, before, Flat(r), gone);
    Finish(b, b.numkeys - 1, r, b.height);
  }
}
