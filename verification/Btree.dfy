/** The B-tree object of ai/src/bt_code.c: creation, lookup and insertion. */
module Btree {
  import opened Wrappers
  import opened Entries
  import opened BtreeSpec
  import opened BtreeOrder
  import opened BtreeNode
  import opened Search

  /** Bytes of the tree's own control block. */
  const SIZEOF_BTREE := 72
  /** Bytes of a node's header and of a pointer. */
  const SIZEOF_NODE := 8
  const VOIDSIZE := 8

  lemma SlotsFit(n: nat)
    requires n < 512
    ensures n < Pow2(32)
  {
    assert Pow2(9) == 512;
    Pow2Mono(9, 32);
  }

  lemma EmptyTree(x: Node, t: nat, kb: int, nb: int)
    requires x.leaf && x.keys == [] && x.kids == [] && x.scion == 0 && t > 0
    ensures var e := Tree(x, [], [], 0); Sound(e, t, 0) == true && Flat(e) == [] && Size(e, kb, nb) == kb
    ensures Own(Tree(x, [], [], 0)) == multiset{x}
  {
    LeafSound(Tree(x, [], [], 0), t);
  }

  class BTree {
    var root: Node
    var numkeys: int
    var msize: int
    const t: nat
    const nbits: nat
    const kbyte: int
    const nbyte: int

    /** The tree in memory and the depth of its leaves. */
    ghost var tree: Tree
    ghost var height: nat

    ghost predicate Config() {
      t >= 2 && IsPow2(nbits) && 2 * t - 1 <= Pow2(nbits)
    }

    ghost predicate Valid()
      reads this, Own(tree)
    {
      && Config()
      && root == tree.ref && Sound(tree, t, height) == true && (height > 0 ==> tree.keys != [])
      && numkeys == |Flat(tree)|
      && msize == SIZEOF_BTREE + Size(tree, kbyte, nbyte)
    }

    /** The entries in key order. */
    ghost function Contents(): seq<Entry>
      reads this
    {
      Flat(tree)
    }

    /** An empty tree for nodes of n key slots of ksize bytes. */
    constructor (n: nat, ksize: nat)
      requires 3 <= n < 511
      ensures Valid() && Contents() == [] && t == (n + 1) / 2
      ensures kbyte == SIZEOF_NODE + n * ksize && nbyte == kbyte + (n + 1) * VOIDSIZE && msize == 72 + kbyte
      ensures forall n :: n in Own(tree) ==> fresh(n)
    {
      t, kbyte := (n + 1) / 2, SIZEOF_NODE + n * ksize;
      nbyte := SIZEOF_NODE + n * ksize + (n + 1) * VOIDSIZE;
      SlotsFit(n);
      var bits := NodeBits(n);
      nbits := bits;
      numkeys := 0;
      var x := new Node(true, [], [], 0);
      root := x;
      msize := SIZEOF_BTREE + (SIZEOF_NODE + n * ksize);
      tree, height := Tree(x, [], [], 0), 0;
      EmptyTree(x, (n + 1) / 2, SIZEOF_NODE + n * ksize, SIZEOF_NODE + n * ksize + (n + 1) * VOIDSIZE);
    }

    /** Looks for k in node x: the slot of the greatest key not above it, and whether it is there. */
    method Locate(x: Node, k: int, ghost xt: Tree, ghost h: nat) returns (i: int, found: bool)
      requires Config() && x == xt.ref && Sound(xt, t, h) == true
      ensures Sound(xt, t, h) == true && -1 <= i < |xt.keys|
      ensures found ==> i >= 0 && xt.keys[i].key == k && xt.keys[i] in Flat(xt) && Has(Flat(xt), k)
      ensures !found ==> Between(xt, i + 1, k)
      ensures !found && h == 0 ==> !Has(Flat(xt), k)
      ensures !found && h > 0 ==> |xt.kids| == |xt.keys| + 1 && (Has(Flat(xt), k) <==> Has(Flat(xt.kids[i + 1]), k))
      ensures x.leaf <==> h == 0
      ensures !found && h > 0 ==>
        && x.kids == Refs(xt.kids) && Sound(xt.kids[i + 1], t, h - 1) == true
        && forall e :: e in Flat(xt.kids[i + 1]) ==> e in Flat(xt)
    {
      KeysSorted(xt, t, h);
      assert allocated(Own(xt));
      var c;
      i, c := FindIndex(x.keys, nbits, k);
      found := i >= 0 && c == 0;
      if found {
        assert xt.keys[i] in Flat(xt);
      } else if h == 0 {
        assert Flat(xt) == xt.keys;
      } else {
        HasBetween(xt, i + 1, k);
        DownReady(xt, i + 1, t, h);
        Surround(xt, i + 1, k);
      }
    }

    /** bt_find: the payload stored under k, if any. */
    method Find(k: int) returns (r: Option<int>)
      requires Valid()
      ensures r.Some? <==> Has(Contents(), k)
      ensures r.Some? ==> Entry(k, r.value) in Contents()
    {
      var x := root;
      ghost var xt, h := tree, height;
      while true
        invariant x == xt.ref && Sound(xt, t, h) == true
        invariant Has(Contents(), k) <==> Has(Flat(xt), k)
        invariant forall e :: e in Flat(xt) ==> e in Contents()
        decreases h
      {
        var i, found := Locate(x, k, xt, h);
        if found {
          return Some(x.keys[i].val);
        }
        if x.leaf {
          return None;
        }
        x, xt, h := x.kids[i + 1], xt.kids[i + 1], h - 1;
      }
    }

    /** bt_exist: whether k is in the tree. */
    method Exists(k: int) returns (yes: bool)
      requires Valid()
      ensures yes <==> Has(Contents(), k)
    {
      var x := root;
      ghost var xt, h := tree, height;
      while true
        invariant x == xt.ref && Sound(xt, t, h) == true
        invariant Has(Contents(), k) <==> Has(Flat(xt), k)
        decreases h
      {
        var i, found := Locate(x, k, xt, h);
        if found {
          return true;
        }
        if x.leaf {
          return false;
        }
        x, xt, h := x.kids[i + 1], xt.kids[i + 1], h - 1;
      }
    }

    /** Puts e into leaf x. */
    method InsertLeaf(x: Node, e: Entry, ghost xt: Tree) returns (ghost r: Tree)
      requires Config() && x == xt.ref && Sound(xt, t, 0) == true && |xt.keys| < 2 * t - 1 && !Has(Flat(xt), e.key)
      modifies x
      ensures Sound(r, t, 0) == true && r.ref == x && |r.keys| == |xt.keys| + 1 && Flat(r) == Ins(Flat(xt), e)
      ensures Own(r) == Own(xt) && Size(r, kbyte, nbyte) == Size(xt, kbyte, nbyte)
    {
      var i, found := Locate(x, e.key, xt, 0);
      assert Flat(xt) == xt.keys;
      InsAt(xt.keys, i + 1, e);
      InsMeaning(xt.keys, e);
      x.keys := x.keys[..i + 1] + [e] + x.keys[i + 1..];
      x.scion := x.scion + 1;
      r := Tree(x, x.keys, [], x.scion);
      LeafSound(r, t);
    }

    /** Splits the full child i of x and accounts for the new node. */
    method GrowChild(x: Node, i: nat, ghost xt: Tree, ghost h: nat) returns (ghost r: Tree)
      requires Config() && h > 0 && x == xt.ref && Sound(xt, t, h) == true && |xt.keys| < 2 * t - 1
      requires i <= |xt.keys| && |xt.kids[i].keys| == 2 * t - 1
      modifies this`msize, Own(xt)
      ensures Sound(r, t, h) == true && r.ref == x && Flat(r) == Flat(xt)
      ensures exists m :: r.keys == xt.keys[..i] + [m] + xt.keys[i..]
      ensures |r.kids[i].keys| == t - 1 && |r.kids[i + 1].keys| == t - 1
      ensures forall n :: n in Own(r) ==> n in Own(xt) || fresh(n)
      ensures msize - old(msize) == Size(r, kbyte, nbyte) - Size(xt, kbyte, nbyte)
    {
      OwnTop(xt, i);
      assert allocated(Own(xt));
      var z := SplitChild(x, i, t, xt, h);
      r := SplitKid(xt, i, t, z);
      SplitTops(xt, i, t, z, h);
      SplitSound(xt, i, t, z, h);
      SplitKidSize(xt, i, t, z, h, kbyte, nbyte);
      assert allocated(Own(r));
      msize := msize + if z.leaf then kbyte else nbyte;
    }

    /** Finds the child of x that e belongs in, splitting it first when it is full. */
    method MakeRoom(x: Node, e: Entry, ghost xt: Tree, ghost h: nat) returns (i: nat, ghost r: Tree)
      requires Config() && h > 0 && x == xt.ref && Sound(xt, t, h) == true && |xt.keys| < 2 * t - 1
      requires !Has(Flat(xt), e.key)
      modifies this`msize, Own(xt)
      ensures Sound(r, t, h) == true && r.ref == x && Flat(r) == Flat(xt) && |r.keys| >= |xt.keys|
      ensures Between(r, i, e.key) && |r.kids[i].keys| < 2 * t - 1
      ensures forall n :: n in Own(r) ==> n in Own(xt) || fresh(n)
      ensures msize - old(msize) == Size(r, kbyte, nbyte) - Size(xt, kbyte, nbyte)
    {
      var p, found := Locate(x, e.key, xt, h);
      i, r := p + 1, xt;
      KidFields(xt, t, h);
      if |x.kids[i].keys| == 2 * t - 1 {
        r := GrowChild(x, i, xt, h);
        RoomMade(xt, r, i, e.key, t, h);
        if e.key > x.keys[i].key {
          i := i + 1;
        }
      }
    }

    /** Insertion below x, a child of p, whose counter goes up; the trees of keep are left alone. */
    method InsertUnder(p: Node, x: Node, e: Entry, ghost xt: Tree, ghost h: nat, ghost keep: set<Tree>,
                       ghost whole: Tree)
      returns (ghost r: Tree)
      requires Config() && x == xt.ref && Sound(xt, t, h) == true && |xt.keys| < 2 * t - 1 && !Has(Flat(xt), e.key)
      requires p !in Own(xt) && forall c :: c in keep ==> Rep(c) && Own(c) !! Own(xt) && p !in Own(c)
      modifies this`msize, Own(xt), p
      ensures Sound(r, t, h) == true && r.ref == x && |r.keys| >= |xt.keys|
      ensures Flat(r) == Ins(Flat(xt), e)
      ensures forall n :: n in Own(r) ==> n in Own(xt) || (fresh(n) && n !in Own(whole))
      ensures msize - old(msize) == Size(r, kbyte, nbyte) - Size(xt, kbyte, nbyte)
      ensures forall c :: c in keep ==> Rep(c)
      ensures unchanged(p`keys, p`kids, p`leaf) && p.scion == old(p.scion) + 1
      decreases h, 2
    {
      assert allocated(Own(whole));
      assert forall c :: c in keep ==> allocated(Own(c));
      r := InsertNonFull(x, e, xt, h);
      assert p !in Own(r);
      Write(p, p.keys, p.kids, p.scion + 1, keep + {r});
    }

    /** Insertion into child i of x, which has room. */
    method InsertDown(x: Node, i: nat, e: Entry, ghost xt: Tree, ghost h: nat) returns (ghost r: Tree)
      requires Config() && h > 0 && x == xt.ref && Sound(xt, t, h) == true
      requires !Has(Flat(xt), e.key) && Between(xt, i, e.key) && |xt.kids[i].keys| < 2 * t - 1
      modifies this`msize, Own(xt)
      ensures Sound(r, t, h) == true && r.ref == x && |r.keys| == |xt.keys|
      ensures Flat(r) == Ins(Flat(xt), e)
      ensures forall n :: n in Own(r) ==> n in Own(xt) || fresh(n)
      ensures msize - old(msize) == Size(r, kbyte, nbyte) - Size(xt, kbyte, nbyte)
      decreases h, 0
    {
      DownReady(xt, i, t, h);
      HasBetween(xt, i, e.key);
      ghost var c := InsertUnder(x, x.kids[i], e, xt.kids[i], h - 1, Others(xt, i), xt);
      r := Put(xt, i, c, 1);
      InsertDone(xt, i, e, c, t, h);
      ReplaceSums(xt, xt.keys, i, c, xt.scion + 1, kbyte, nbyte);
    }

    /** bt_insertnonfull: insertion below x, which has room for one more key. */
    method InsertNonFull(x: Node, e: Entry, ghost xt: Tree, ghost h: nat) returns (ghost r: Tree)
      requires Config() && x == xt.ref && Sound(xt, t, h) == true && |xt.keys| < 2 * t - 1 && !Has(Flat(xt), e.key)
      modifies this`msize, Own(xt)
      ensures Sound(r, t, h) == true && r.ref == x && |r.keys| >= |xt.keys|
      ensures Flat(r) == Ins(Flat(xt), e)
      ensures forall n :: n in Own(r) ==> n in Own(xt) || fresh(n)
      ensures msize - old(msize) == Size(r, kbyte, nbyte) - Size(xt, kbyte, nbyte)
      decreases h, 1
    {
      if x.leaf {
        r := InsertLeaf(x, e, xt);
      } else {
        var i;
        i, r := MakeRoom(x, e, xt, h);
        r := InsertDown(x, i, e, r, h);
      }
    }

    /** Makes r, which is in memory, the tree. */
    method Install(x: Node, count: int, ghost r: Tree, ghost h: nat)
      requires Config() && x == r.ref && Sound(r, t, h) == true && (h > 0 ==> r.keys != [])
      requires count == |Flat(r)| && msize == SIZEOF_BTREE + Size(r, kbyte, nbyte)
      modifies this`root, this`numkeys, this`tree, this`height
      ensures Valid() && tree == r
    {
      assert allocated(Own(r));
      root, numkeys, tree, height := x, count, r, h;
    }

    /** A full root moves below a new one and is split; the tree gets one level higher. */
    method GrowRoot()
      requires Valid() && |tree.keys| == 2 * t - 1
      modifies this, Own(tree)
      ensures Valid() && Contents() == old(Contents()) && |tree.keys| < 2 * t - 1
      ensures forall n :: n in Own(tree) ==> n in old(Own(tree)) || fresh(n)
    {
      var s := Alloc(false, [], [root], root.scion, {tree});
      msize := msize + nbyte;
      ghost var st, h := Tree(s, [], [tree], tree.scion), height + 1;
      NewRoot(s, tree, t, height, kbyte, nbyte);
      ghost var r := GrowChild(s, 0, st, h);
      Install(s, numkeys, r, h);
    }

    /** bt_insert: adds e, whose key must be new. */
    method Insert(e: Entry)
      requires Valid() && !Has(Contents(), e.key)
      modifies this, Own(tree)
      ensures Valid() && Contents() == Ins(old(Contents()), e)
      ensures forall n :: n in Own(tree) ==> n in old(Own(tree)) || fresh(n)
    {
      ghost var before := Contents();
      if |root.keys| == 2 * t - 1 {
        GrowRoot();
      }
      ghost var r := InsertNonFull(root, e, tree, height);
      InsLength(before, e);
      Install(root, numkeys + 1, r, height);
    }
  }

  lemma OwnTop(x: Tree, i: nat)
    requires i < |x.kids|
    ensures x.ref in Own(x) && x.kids[i].ref in Own(x)
  {
    OwnsAt(x.kids, i);
    assert x.kids[i].ref in Own(x.kids[i]);
  }

  lemma SplitSound(x: Tree, i: nat, t: nat, z: Node, h: nat)
    requires t >= 2 && h > 0 && Shaped(x, t, h) == true && |x.keys| < 2 * t - 1
    requires i <= |x.keys| && |x.kids[i].keys| == 2 * t - 1 && z !in Own(x) && Rep(SplitKid(x, i, t, z))
    ensures var r := SplitKid(x, i, t, z);
      && Sound(r, t, h) == true && Flat(r) == Flat(x) && (forall n :: n in Own(r) ==> n in Own(x) || n == z)
      && r.keys == x.keys[..i] + [x.kids[i].keys[t - 1]] + x.keys[i..]
  {
    SplitKidShape(x, i, t, z, h);
    SplitKidFlat(x, i, t, z, h);
    SplitKidOwn(x, i, t, z, h);
  }

  lemma SplitTops(x: Tree, i: nat, t: nat, z: Node, h: nat)
    requires t >= 2 && h > 0 && WF(x, t, h) && i <= |x.keys| && |x.kids[i].keys| == 2 * t - 1
    requires Rep(SplitKid(x, i, t, z))
    ensures var r, y := SplitKid(x, i, t, z), x.kids[i];
      r.kids[i] == Low(y, t - 1, y.ref) && r.kids[i + 1] == High(y, t - 1, z) && (z.leaf <==> h == 1)
  {
    SplitAround(x, i, t, z, h);
    var r := SplitKid(x, i, t, z);
    assert Kid(x.kids[i], t, h - 1) && WF(x.kids[i], t, h - 1);
    assert Rep(r.kids[i + 1]);
  }

  lemma NotInKeys(x: Tree, k: int, t: nat, h: nat)
    requires WF(x, t, h) && Sorted(Flat(x)) && !Has(Flat(x), k)
    ensures forall i :: 0 <= i < |x.keys| ==> x.keys[i].key != k
  {
    KeysSorted(x, t, h);
    forall i | 0 <= i < |x.keys| ensures x.keys[i].key != k {
      assert x.keys[i] in Flat(x);
    }
  }

  /** A child was split, so one of its halves is the place for k. */
  lemma RoomMade(x: Tree, r: Tree, i: nat, k: int, t: nat, h: nat)
    requires Sound(r, t, h) == true && !Has(Flat(r), k) && Between(x, i, k)
    requires exists m :: r.keys == x.keys[..i] + [m] + x.keys[i..]
    ensures i < |r.keys| == |x.keys| + 1 && Fields(r)
    ensures if k > r.keys[i].key then Between(r, i + 1, k) else Between(r, i, k)
  {
    NotInKeys(r, k, t, h);
  }

  lemma NewRoot(s: Node, tr: Tree, t: nat, h: nat, kb: int, nb: int)
    requires t >= 2 && Sound(tr, t, h) == true && |tr.keys| == 2 * t - 1 && s !in Own(tr)
    requires !s.leaf && s.keys == [] && s.kids == [tr.ref] && s.scion == tr.scion
    ensures var r := Tree(s, [], [tr], tr.scion);
      && Sound(r, t, h + 1) == true && Flat(r) == Flat(tr) && Own(r) == multiset{s} + Own(tr)
      && Size(r, kb, nb) == nb + Size(tr, kb, nb)
  {
    var r := Tree(s, [], [tr], tr.scion);
    Single(tr, kb, nb);
    RefsPair(tr, tr);
    assert Kid(tr, t, h);
    assert Flat(r) == Weave([], [tr]);
  }
}
