/**
  The ascending B-tree cursor of ai/src/bt_iterator.c: a linked stack of slots in a fixed pool, one for
  each level from the root down to the node whose key comes next.
 */
module Iterator {
  import opened Wrappers
  import opened Entries
  import opened BtreeSpec
  import opened BtreeOrder
  import opened BtreeNode
  import opened BtreeDepth
  import opened Search
  import opened Btree

  /** A stack slot. Links are positions in the pool, -1 for none. */
  datatype Slot = Slot(parent: int, self: Node?, child: int, ik: int, inn: int)

  /** A node on the way down, and the child of it that the cursor is in. */
  datatype Spot = Spot(tr: Tree, c: nat)

  // ---------------------------------------------------------------- what is left to visit

  ghost predicate Inner(s: Spot) {
    |s.tr.kids| == |s.tr.keys| + 1 && s.c <= |s.tr.keys|
  }

  /** The entries after the cursor's child, for a whole stack of nodes. */
  ghost function Tail(up: seq<Spot>): (s: seq<Entry>) {
    if up == [] then [] else
      var l := up[|up| - 1];
      (if Inner(l) then After(l.tr, l.c) else []) + Tail(up[..|up| - 1])
  }

  /** From key ik of a node on. */
  ghost function Top(tr: Tree, ik: int): (s: seq<Entry>)
    requires 0 <= ik < |tr.keys|
  {
    if |tr.kids| == |tr.keys| + 1 then After(tr, ik) else tr.keys[ik..]
  }

  /** The spots lead from the root to cur. */
  ghost predicate Path(up: seq<Spot>, cur: Tree, root: Tree) {
    if up == [] then cur == root else
      var l := up[|up| - 1];
      Inner(l) && cur == l.tr.kids[l.c] && Path(up[..|up| - 1], l.tr, root)
  }

  /**
    How slot f records that the cursor is in child s.c: at that child's key, at the key before it (left
    by the initial search), or at the last key with the child index one past it.
   */
  ghost predicate Track(f: Slot, s: Spot) {
    && f.self == s.tr.ref && 0 <= f.ik < |s.tr.keys|
    && (|| (f.ik == f.inn == s.c)
        || (s.c == f.ik + 1 && f.inn == f.ik)
        || (s.c == |s.tr.keys| && f.ik == s.c - 1 && f.inn == s.c))
  }

  lemma {:induction false} PathSound(up: seq<Spot>, cur: Tree, root: Tree, t: nat, h: nat)
    requires Path(up, cur, root) && Sound(root, t, h) == true
    ensures |up| <= h && Sound(cur, t, h - |up|) == true && (up != [] ==> t - 1 <= |cur.keys|)
    ensures up != [] ==> Sound(up[|up| - 1].tr, t, h - |up| + 1) == true
    decreases |up|
  {
    if up != [] {
      var l := up[|up| - 1];
      PathSound(up[..|up| - 1], l.tr, root, t, h);
      DownReady(l.tr, l.c, t, h - |up| + 1);
    }
  }

  /** The fields in memory of a node of a sound tree. */
  lemma NodeFields(x: Tree, t: nat, h: nat)
    requires Sound(x, t, h) == true
    ensures x.ref.keys == x.keys && x.ref.kids == Refs(x.kids) && (x.ref.leaf <==> h == 0) && x.ref.scion == x.scion
    ensures h == 0 ==> x.kids == []
    ensures h > 0 ==> |x.kids| == |x.keys| + 1
  {
  }

  /** A child's keys lie strictly between the keys around it. */
  lemma KidKey(x: Tree, c: nat, e: Entry)
    requires |x.kids| == |x.keys| + 1 && c <= |x.keys| && Sorted(Flat(x)) && e in Flat(x.kids[c])
    ensures c < |x.keys| ==> e.key < x.keys[c].key
    ensures c > 0 ==> x.keys[c - 1].key < e.key
  {
    PutFlat(x, c, x.kids[c], 0);
    var l, m, r := Before(x, c), Flat(x.kids[c]), After(x, c);
    var s := Flat(x);
    var j :| 0 <= j < |m| && m[j] == e;
    assert s[|l| + j] == e;
    if c > 0 {
      LeftLast(x.keys[..c], x.kids[..c]);
      assert s[|l| - 1] == x.keys[c - 1];
    }
    if c < |x.keys| {
      assert s[|l| + |m|] == r[0] == x.keys[c];
    }
  }

  /** After the key at ik come the child to its right and what follows that child. */
  lemma AfterStep(x: Tree, ik: nat, tail: seq<Entry>)
    requires |x.kids| == |x.keys| + 1 && ik < |x.keys|
    ensures Top(x, ik) + tail == [x.keys[ik]] + (Flat(x.kids[ik + 1]) + (After(x, ik + 1) + tail))
  {
    assert x.keys[ik..][1..] == x.keys[ik + 1..] && x.kids[ik + 1..][1..] == x.kids[ik + 2..];
  }

  lemma LeafStep(ks: seq<Entry>, ik: nat, tail: seq<Entry>)
    requires ik < |ks|
    ensures ks[ik..] + tail == [ks[ik]] + (ks[ik + 1..] + tail)
  {
    assert ks[ik..] == [ks[ik]] + ks[ik + 1..];
  }

  lemma FlatFirst(x: Tree)
    requires |x.kids| == |x.keys| + 1
    ensures Flat(x) == Flat(x.kids[0]) + After(x, 0)
  {
    WeaveRight(x.keys, x.kids);
    assert x.keys[0..] == x.keys;
  }

  lemma FirstThenRest(x: Tree, tail: seq<Entry>)
    requires |x.kids| == |x.keys| + 1
    ensures Flat(x.kids[0]) + (After(x, 0) + tail) == Flat(x) + tail
  {
    FlatFirst(x);
  }

  lemma AfterLast(x: Tree)
    requires |x.kids| == |x.keys| + 1
    ensures After(x, |x.keys|) == []
  {
  }

  lemma TailPush(up: seq<Spot>, s: Spot)
    requires Inner(s)
    ensures Tail(up + [s]) == After(s.tr, s.c) + Tail(up)
  {
    assert (up + [s])[..|up|] == up;
  }

  lemma PathPush(up: seq<Spot>, s: Spot, root: Tree)
    requires Inner(s) && Path(up, s.tr, root)
    ensures Path(up + [s], s.tr.kids[s.c], root)
  {
    assert (up + [s])[..|up|] == up;
  }

  // ---------------------------------------------------------------- the stack of slots

  /** The pool in use is a doubly linked chain. */
  ghost predicate Pool(nodes: seq<Slot>) {
    forall d :: 0 <= d < |nodes| ==>
      nodes[d].parent == d - 1 && nodes[d].child == if d + 1 < |nodes| then d + 1 else -1
  }

  /** The slots up to bln record the way from the root to key ik of node cur. */
  ghost predicate Stack(nodes: seq<Slot>, bln: nat, up: seq<Spot>, cur: Tree, root: Tree) {
    && bln == |up| < |nodes| && Pool(nodes) && Path(up, cur, root)
    && (forall d :: 0 <= d < |up| ==> Track(nodes[d], up[d]))
    && nodes[bln].self == cur.ref && 0 <= nodes[bln].ik < |cur.keys|
  }

  /** The slots after stepping into a child: the next slot is taken when there is none below. */
  ghost function Pushed(nodes: seq<Slot>, bln: nat, x: Node): (r: seq<Slot>)
    requires bln < |nodes|
  {
    var s := Slot(bln, x, if bln + 2 < |nodes| then bln + 2 else -1, 0, 0);
    if bln + 1 < |nodes| then nodes[bln + 1 := s] else nodes[bln := nodes[bln].(child := bln + 1)] + [s]
  }

  lemma StackPush(nodes: seq<Slot>, bln: nat, up: seq<Spot>, s: Spot, root: Tree)
    requires Stack(nodes, bln, up, s.tr, root) == true && Inner(s) && Track(nodes[bln], s) && s.tr.kids[s.c].keys != []
    ensures Stack(Pushed(nodes, bln, s.tr.kids[s.c].ref), bln + 1, up + [s], s.tr.kids[s.c], root) == true
  {
    PathPush(up, s, root);
    var r := Pushed(nodes, bln, s.tr.kids[s.c].ref);
    assert r[bln + 1] == Slot(bln, s.tr.kids[s.c].ref, if bln + 2 < |r| then bln + 2 else -1, 0, 0);
    assert forall d :: 0 <= d < bln ==> r[d] == nodes[d];
    assert forall d :: 0 <= d < |r| && d != bln && d != bln + 1 ==> r[d] == nodes[d];
  }

  lemma StackPop(nodes: seq<Slot>, bln: nat, up: seq<Spot>, cur: Tree, root: Tree, ik: int, inn: int)
    requires Stack(nodes, bln, up, cur, root) == true && up != []
    requires 0 <= ik < |up[bln - 1].tr.keys|
    ensures Stack(nodes[bln - 1 := nodes[bln - 1].(ik := ik, inn := inn)], bln - 1, up[..bln - 1], up[bln - 1].tr,
      root) == true
  {
    var r := nodes[bln - 1 := nodes[bln - 1].(ik := ik, inn := inn)];
    assert Track(nodes[bln - 1], up[bln - 1]);
    assert forall d :: 0 <= d < bln - 1 ==> Track(r[d], up[..bln - 1][d]);
  }

  lemma StackSet(nodes: seq<Slot>, bln: nat, up: seq<Spot>, cur: Tree, root: Tree, ik: int, inn: int)
    requires Stack(nodes, bln, up, cur, root) == true && 0 <= ik < |cur.keys|
    ensures Stack(nodes[bln := nodes[bln].(ik := ik, inn := inn)], bln, up, cur, root) == true
  {
  }

  /** The slot after the search for k in its node gave i. */
  ghost predicate Hit(x: Tree, f: Slot, k: int, i: int, found: bool) {
    && f.self == x.ref && -1 <= i < |x.keys| && x.keys != [] && f.ik == f.inn == (if i > 0 then i else 0)
    && if found then i >= 0 && x.keys[i].key == k else Between(x, i + 1, k)
  }

  // ---------------------------------------------------------------- the cursor

  class Iter {
    const b: BTree
    var nodes: seq<Slot>
    var bln: nat
    var finished: bool

    ghost var up: seq<Spot>
    ghost var cur: Tree

    /** The tree is valid and not deeper than the pool, and the pool holds no more slots than the tree has levels. */
    ghost predicate Base()
      reads this, b, Own(b.tree)
    {
      b.Valid() && b.height < MAX_BTREE_DEPTH && 0 < |nodes| <= b.height + 1 && Pool(nodes)
    }

    ghost predicate On()
      reads this, b
    {
      Stack(nodes, bln, up, cur, b.tree)
    }

    ghost predicate Valid()
      reads this, b, Own(b.tree)
    {
      Base() && (!finished ==> On() && (cur.kids != [] ==> nodes[bln].inn == nodes[bln].ik))
    }

    /** The entries still to come. */
    ghost function Rest(): seq<Entry>
      requires !finished ==> On()
      reads this, b
    {
      if finished then [] else Top(cur, nodes[bln].ik) + Tail(up)
    }

    /** createIterator: a cursor on the root, which must hold a key. */
    constructor (b: BTree)
      requires b.Valid() && b.height < MAX_BTREE_DEPTH && b.tree.keys != []
      ensures this.b == b && Base() == true && On() == true && !finished
      ensures up == [] && cur == b.tree && bln == 0 && |nodes| == 1 && nodes[0].ik == nodes[0].inn == 0
    {
      assert allocated(Own(b.tree));
      this.b := b;
      nodes := [Slot(-1, b.root, -1, 0, 0)];
      bln, finished := 0, false;
      up, cur := [], b.tree;
      new;
      assert b.Valid();
    }

    /** get_new_iter_child: takes the next slot of the pool. */
    method GetNewChild() returns (child: int)
      requires |nodes| < MAX_BTREE_DEPTH
      modifies this`nodes
      ensures nodes == old(nodes) + [Slot(-1, null, -1, 0, 0)] && child == |old(nodes)|
    {
      child := |nodes|;
      nodes := nodes + [Slot(-1, null, -1, 0, 0)];
    }

    /** GET_NEW_CHILD and to_child. */
    method PushSlot(x: Node)
      requires bln < |nodes| && Pool(nodes) && (bln + 1 == |nodes| ==> |nodes| < MAX_BTREE_DEPTH)
      modifies this`nodes, this`bln
      ensures nodes == Pushed(old(nodes), old(bln), x) && bln == old(bln) + 1
    {
      if nodes[bln].child == -1 {
        var child := GetNewChild();
        nodes := nodes[bln := nodes[bln].(child := child)];
      }
      var child := nodes[bln].child;
      nodes := nodes[child := nodes[child].(parent := bln, ik := 0, inn := 0, self := x)];
      bln := child;
    }

    /** Steps into child c of the current node. */
    method ToChild(x: Node, ghost c: nat)
      requires Base() == true && On() == true && !finished
      requires Inner(Spot(cur, c)) && Track(nodes[bln], Spot(cur, c)) && x == cur.kids[c].ref
      modifies this`nodes, this`bln, this`up, this`cur
      ensures Base() == true && On() == true && cur == old(cur).kids[c] && up == old(up) + [Spot(old(cur), c)]
      ensures nodes[bln].ik == nodes[bln].inn == 0 && nodes[bln].self == x && bln == |up|
    {
      ghost var s := Spot(cur, c);
      assert Stack(nodes, bln, up, cur, b.tree);
      PathPush(up, s, b.tree);
      PathSound(up + [s], cur.kids[c], b.tree, b.t, b.height);
      StackPush(nodes, bln, up, s, b.tree);
      assert b.Valid() && allocated(Own(b.tree));
      PushSlot(x);
      up, cur := up + [s], cur.kids[c];
      assert b.Valid();
    }

    /** The current node in memory. */
    lemma Here()
      requires Base() == true && On() == true
      ensures |up| <= b.height && Sound(cur, b.t, b.height - |up|) == true && nodes[bln].self == cur.ref
      ensures cur.ref.keys == cur.keys && cur.ref.kids == Refs(cur.kids) && cur.ref.scion == cur.scion
      ensures (cur.ref.leaf <==> cur.kids == []) && (cur.kids == [] <==> |up| == b.height)
      ensures cur.kids != [] ==> |cur.kids| == |cur.keys| + 1
    {
      PathSound(up, cur, b.tree, b.t, b.height);
      NodeFields(cur, b.t, b.height - |up|);
    }

    method SetSlot(ik: int, inn: int)
      requires Base() == true && On() == true && 0 <= ik < |cur.keys|
      modifies this`nodes
      ensures Base() == true && On() == true
      ensures nodes == old(nodes)[bln := old(nodes)[bln].(ik := ik, inn := inn)]
    {
      StackSet(nodes, bln, up, cur, b.tree, ik, inn);
      assert b.Valid() && allocated(Own(b.tree));
      nodes := nodes[bln := nodes[bln].(ik := ik, inn := inn)];
      assert b.Valid();
    }

    /** findkindex with a cursor: searches the current node and records the slot, or 0 for none. */
    method FindSlot(k: int) returns (i: int, found: bool)
      requires Base() == true && On() == true
      modifies this`nodes
      ensures Base() == true && On() == true && -1 <= i < |cur.keys|
      ensures Hit(cur, nodes[bln], k, i, found) == true
    {
      Here();
      assert b.Valid() && allocated(Own(b.tree));
      i, found := b.Locate(nodes[bln].self, k, cur, b.height - |up|);
      assert b.Valid();
      var s := if i > 0 then i else 0;
      SetSlot(s, s);
    }

    /** tochildrecurse: steps into child c and down its leftmost branch. */
    method ToChildRecurse(x: Node, ghost c: nat)
      requires Base() == true && On() == true && !finished
      requires Inner(Spot(cur, c)) && Track(nodes[bln], Spot(cur, c)) && x == cur.kids[c].ref
      modifies this`nodes, this`bln, this`up, this`cur
      ensures Valid() == true && Rest() == Flat(old(cur).kids[c]) + (After(old(cur), c) + Tail(old(up)))
      decreases b.height - |up|
    {
      TailPush(up, Spot(cur, c));
      ghost var tail := After(cur, c) + Tail(up);
      ToChild(x, c);
      Here();
      if !x.leaf {
        FirstThenRest(cur, tail);
        ToChildRecurse(x.kids[nodes[bln].inn], 0);
      } else {
        assert cur.keys[0..] == cur.keys == Flat(cur);
      }
    }

    /** The key the cursor leaves, compared with the parent's current key, tells on which side its child was. */
    lemma Sides(s: Spot, ik: nat)
      requires Base() == true && On() == true && up != [] && s == up[|up| - 1] && ik < |cur.keys|
      ensures Inner(s) && Sound(s.tr, b.t, b.height - |up| + 1) == true && s.tr.ref.keys == s.tr.keys
      ensures Track(nodes[bln - 1], s)
      ensures cur.keys[ik].key > s.tr.keys[nodes[bln - 1].ik].key <==> nodes[bln - 1].ik != s.c
      ensures cur.keys[ik].key < s.tr.keys[nodes[bln - 1].ik].key <==> nodes[bln - 1].ik == s.c
    {
      PathSound(up, cur, b.tree, b.t, b.height);
      NodeFields(s.tr, b.t, b.height - |up| + 1);
      assert Shaped(s.tr, b.t, b.height - |up| + 1);
      assert Shaped(cur, b.t, b.height - |up|);
      KeysSorted(cur, b.t, b.height - |up|);
      KidKey(s.tr, s.c, cur.keys[ik]);
    }

    /** Moves to the parent's slot. */
    method Up(ghost s: Spot)
      requires Base() == true && On() == true && !finished && up != [] && s == up[|up| - 1]
      modifies this`bln, this`up, this`cur
      ensures Base() == true && On() == true && up == old(up)[..|old(up)| - 1] && cur == s.tr && bln == old(bln) - 1
    {
      StackPop(nodes, bln, up, cur, b.tree, nodes[bln - 1].ik, nodes[bln - 1].inn);
      assert Track(nodes[bln - 1], s);
      assert nodes[bln - 1 := nodes[bln - 1].(ik := nodes[bln - 1].ik, inn := nodes[bln - 1].inn)] == nodes;
      assert b.Valid() && allocated(Own(b.tree));
      bln := nodes[bln].parent;
      up, cur := up[..|up| - 1], s.tr;
      assert b.Valid();
    }

    /** One level up: `more` when the parent has no key to come either. */
    method ToParent() returns (more: bool)
      requires Base() == true && On() == true && !finished && up != []
      modifies this`nodes, this`bln, this`up, this`cur
      ensures Base() == true && On() == true && |up| < |old(up)|
      ensures more ==> Tail(up) == Tail(old(up))
      ensures !more ==> nodes[bln].inn == nodes[bln].ik && Top(cur, nodes[bln].ik) + Tail(up) == Tail(old(up))
    {
      Here();
      ghost var s := up[|up| - 1];
      Sides(s, nodes[bln].ik);
      var child := nodes[bln].self.keys[nodes[bln].ik];
      Up(s);
      var f := nodes[bln];
      var n := |f.self.keys|;
      var x := Cmp(child.key, f.self.keys[f.ik].key);
      more := false;
      if x > 0 {
        more := f.inn + 1 >= n;
        SetSlot(if f.ik + 1 < n then f.ik + 1 else f.ik, if f.inn + 1 < n then f.inn + 1 else f.inn);
      }
      AfterLast(s.tr);
    }

    method Finish()
      requires Base() == true
      modifies this`finished
      ensures Valid() == true && finished
    {
      assert b.Valid() && allocated(Own(b.tree));
      finished := true;
      assert b.Valid();
    }

    /** toparentrecurse: climbs to the nearest ancestor with a key still to come. */
    method ToParentRecurse()
      requires Base() == true && On() == true && !finished
      modifies this`nodes, this`bln, this`finished, this`up, this`cur
      ensures Valid() == true && Rest() == Tail(old(up))
      decreases |up|
    {
      if nodes[bln].parent == -1 {
        Finish();
      } else {
        var more := ToParent();
        if more {
          ToParentRecurse();
        }
      }
    }

    /** iter_leaf: past the current key of a leaf. */
    method IterLeaf()
      requires Base() == true && On() == true && !finished && cur.kids == []
      modifies this`nodes, this`bln, this`finished, this`up, this`cur
      ensures Valid() == true && old(Rest()) == [old(cur).keys[old(nodes)[old(bln)].ik]] + Rest()
    {
      Here();
      var f := nodes[bln];
      LeafStep(cur.keys, f.ik, Tail(up));
      if f.ik + 1 < |f.self.keys| {
        SetSlot(f.ik + 1, f.inn);
      } else {
        ToParentRecurse();
      }
    }

    /** iter_node: past the current key of an internal node, to the smallest entry of the child on its right. */
    method IterNode()
      requires Base() == true && On() == true && !finished && cur.kids != [] && nodes[bln].inn == nodes[bln].ik
      modifies this`nodes, this`bln, this`finished, this`up, this`cur
      ensures Valid() == true && old(Rest()) == [old(cur).keys[old(nodes)[old(bln)].ik]] + Rest()
    {
      Here();
      var f := nodes[bln];
      var n := |f.self.keys|;
      AfterStep(cur, f.ik, Tail(up));
      SetSlot(if f.ik + 1 < n then f.ik + 1 else f.ik, if f.inn + 1 <= n then f.inn + 1 else f.inn);
      ToChildRecurse(f.self.kids[f.inn + 1], f.ik + 1);
    }

    /** btNext: the entry under the cursor, which moves on. */
    method Next() returns (r: Option<Entry>)
      requires Valid() == true
      modifies this`nodes, this`bln, this`finished, this`up, this`cur
      ensures Valid() == true
      ensures r == (if old(Rest()) == [] then None else Some(old(Rest())[0]))
      ensures Rest() == if old(Rest()) == [] then [] else old(Rest())[1..]
    {
      if finished {
        return None;
      }
      Here();
      var f := nodes[bln];
      r := Some(f.self.keys[f.ik]);
      if f.self.leaf {
        IterLeaf();
      } else {
        IterNode();
      }
    }
  }
}
