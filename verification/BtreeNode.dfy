/**
  The three ways bt_code.c moves keys between neighbouring nodes in memory: splitting a full child,
  lending a key through the parent, and merging two children.
 */
module BtreeNode {
  import opened Entries
  import opened BtreeSpec
  import opened BtreeOrder

  /** Adds up the counters of some nodes. */
  method SumScions(ns: seq<Node>, ghost trs: seq<Tree>, ghost keep: set<Tree>) returns (s: int)
    requires ns == Refs(trs) && forall c :: c in trs ==> c in keep
    requires forall c :: c in keep ==> Rep(c)
    ensures s == Scions(trs)
    ensures forall c :: c in keep ==> Rep(c)
  {
    assert forall c :: c in keep ==> allocated(Own(c));
    s := 0;
    for i := 0 to |ns|
      invariant s == Scions(trs[..i])
    {
      assert trs[i] in keep && Fields(trs[i]);
      s := s + ns[i].scion;
      assert trs[..i + 1] == trs[..i] + [trs[i]];
      ScionsConcat(trs[..i], [trs[i]]);
      Single(trs[i], 0, 0);
    }
    assert trs[..|ns|] == trs;
  }

  // ---------------------------------------------------------------- what an operation leaves alone

  /** The subtrees hanging off x and off its children i..j-1. */
  ghost function Around(x: Tree, i: nat, j: nat): (s: set<Tree>)
    requires i <= j <= |x.kids|
  {
    (set k | 0 <= k < |x.kids| && !(i <= k < j) :: x.kids[k])
    + (set k, l | i <= k < j && 0 <= l < |x.kids[k].kids| :: x.kids[k].kids[l])
  }

  lemma KidApart(x: Tree, k: nat, m: nat)
    requires Distinct(x) && k < |x.kids| && m < |x.kids| && k != m
    ensures x.kids[k].ref !in Own(x.kids[m]) && x.ref !in Own(x.kids[m])
  {
    Apart(x);
    assert x.kids[k].ref in Own(x.kids[k]);
  }

  lemma GrandkidApart(x: Tree, k: nat, m: nat, l: nat)
    requires Distinct(x) && k < |x.kids| && m < |x.kids| && l < |x.kids[m].kids|
    ensures x.kids[k].ref !in Own(x.kids[m].kids[l]) && x.ref !in Own(x.kids[m].kids[l])
  {
    Apart(x);
    Apart(x.kids[m]);
    if k != m {
      KidApart(x, k, m);
    }
  }

  lemma AroundApart(x: Tree, i: nat, j: nat, k: nat)
    requires Distinct(x) && i <= k < j <= |x.kids|
    ensures forall c :: c in Around(x, i, j) ==> x.ref !in Own(c) && x.kids[k].ref !in Own(c)
  {
    forall m | 0 <= m < |x.kids| && !(i <= m < j)
      ensures x.ref !in Own(x.kids[m]) && x.kids[k].ref !in Own(x.kids[m])
    {
      KidApart(x, k, m);
    }
    forall m, l | i <= m < j && 0 <= l < |x.kids[m].kids|
      ensures x.ref !in Own(x.kids[m].kids[l]) && x.kids[k].ref !in Own(x.kids[m].kids[l])
    {
      GrandkidApart(x, k, m, l);
    }
  }

  lemma AroundRep(x: Tree, i: nat, j: nat)
    requires Rep(x) && i <= j <= |x.kids|
    ensures forall c :: c in Around(x, i, j) ==> Rep(c)
    ensures forall k :: 0 <= k < |x.kids| ==> Fields(x.kids[k])
  {
    assert forall k :: 0 <= k < |x.kids| ==> Rep(x.kids[k]);
  }

  /** A tree is in memory when its touched nodes have the right fields and all else is in memory. */
  lemma RepIntro(x: Tree, i: nat, j: nat)
    requires i <= j <= |x.kids| && Fields(x)
    requires forall k :: i <= k < j ==> Fields(x.kids[k])
    requires forall c :: c in Around(x, i, j) ==> Rep(c)
    ensures Rep(x)
  {
    forall k | 0 <= k < |x.kids| ensures Rep(x.kids[k]) {
      if i <= k < j {
        assert forall l :: 0 <= l < |x.kids[k].kids| ==> x.kids[k].kids[l] in Around(x, i, j);
      } else {
        assert x.kids[k] in Around(x, i, j);
      }
    }
  }

  lemma RepIntro2(x: Tree, i: nat, a: Tree, b: Tree, keep: set<Tree>)
    requires i + 2 <= |x.kids| && Fields(x) && x.kids[i] == a && x.kids[i + 1] == b && Fields(a) && Fields(b)
    requires Around(x, i, i + 2) <= keep && forall c :: c in keep ==> Rep(c)
    ensures Rep(x)
  {
    RepIntro(x, i, i + 2);
  }

  /** Overwrites a node. */
  method Write(n: Node, keys: seq<Entry>, kids: seq<Node>, scion: int, ghost keep: set<Tree>)
    requires forall c :: c in keep ==> Rep(c) && n !in Own(c)
    modifies n
    ensures n.leaf == old(n.leaf) && n.keys == keys && n.kids == kids && n.scion == scion
    ensures forall c :: c in keep ==> Rep(c)
  {
    assert forall c :: c in keep ==> allocated(Own(c));
    n.keys, n.kids, n.scion := keys, kids, scion;
  }

  method Alloc(leaf: bool, keys: seq<Entry>, kids: seq<Node>, scion: int, ghost keep: set<Tree>) returns (n: Node)
    requires forall c :: c in keep ==> Rep(c)
    ensures fresh(n) && n.leaf == leaf && n.keys == keys && n.kids == kids && n.scion == scion
    ensures forall c :: c in keep ==> Rep(c) && n !in Own(c)
  {
    assert forall c :: c in keep ==> allocated(Own(c));
    n := new Node(leaf, keys, kids, scion);
  }

  lemma RepIntro1(x: Tree, i: nat, a: Tree, keep: set<Tree>)
    requires i + 1 <= |x.kids| && Fields(x) && x.kids[i] == a && Fields(a)
    requires Around(x, i, i + 1) <= keep && forall c :: c in keep ==> Rep(c)
    ensures Rep(x)
  {
    RepIntro(x, i, i + 1);
  }

  /** The kids of x other than i. */
  ghost function Others(x: Tree, i: nat): (s: set<Tree>) {
    set k | 0 <= k < |x.kids| && k != i :: x.kids[k]
  }

  lemma OthersReady(x: Tree, i: nat)
    requires Rep(x) && Distinct(x) && i < |x.kids|
    ensures forall c :: c in Others(x, i) ==> Rep(c) && x.ref !in Own(c) && Own(c) !! Own(x.kids[i])
    ensures Rep(x.kids[i]) && Distinct(x.kids[i]) && x.ref !in Own(x.kids[i]) && Own(x.kids[i]) <= Own(x) && Fields(x)
  {
    Apart(x);
  }

  /** Child i of x was replaced by c, and x got keys ks and counter s. */
  lemma ReplaceRep(x: Tree, ks: seq<Entry>, i: nat, c: Tree, s: int)
    requires i < |x.kids| && c.ref == x.kids[i].ref
    requires Rep(c) && forall k :: k in Others(x, i) ==> Rep(k)
    requires x.ref.keys == ks && x.ref.kids == Refs(x.kids) && x.ref.scion == s && !x.ref.leaf
    ensures Rep(Replace(x, ks, i, c, s))
  {
    var r := Replace(x, ks, i, c, s);
    RefsPatch(x.kids, i, i + 1, [c]);
    RefsPair(c, c);
    assert Refs(x.kids)[..i] + [c.ref] + Refs(x.kids)[i + 1..] == Refs(x.kids);
    forall k | 0 <= k < |r.kids| ensures Rep(r.kids[k]) {
      assert r.kids[k] == if k == i then c else x.kids[k];
      assert k != i ==> x.kids[k] in Others(x, i);
    }
  }

  lemma LeafSound(r: Tree, t: nat)
    requires r.kids == [] && |r.keys| <= 2 * t - 1 && r.scion == |r.keys| && Sorted(r.keys) && Fields(r)
    ensures Sound(r, t, 0) == true && Flat(r) == r.keys && Own(r) == multiset{r.ref}
  {
    assert Flat(r) == Body(r.keys, r.kids);
    assert Own(r) == multiset{r.ref};
    assert Rep(r) && Distinct(r) && WF(r, t, 0);
  }

  lemma KidFields(x: Tree, t: nat, h: nat)
    requires Sound(x, t, h) == true && h > 0
    ensures |x.kids| == |x.keys| + 1 && x.ref.keys == x.keys && x.ref.kids == Refs(x.kids) && !x.ref.leaf
    ensures forall k :: 0 <= k < |x.kids| ==> x.kids[k].ref.keys == x.kids[k].keys && (x.kids[k].ref.leaf <==> h == 1)
    ensures forall k :: 0 <= k < |x.kids| ==> t - 1 <= |x.kids[k].keys| <= 2 * t - 1
  {
    forall k | 0 <= k < |x.kids|
      ensures x.kids[k].ref.keys == x.kids[k].keys && (x.kids[k].ref.leaf <==> h == 1) &&
        t - 1 <= |x.kids[k].keys| <= 2 * t - 1
    {
      assert Rep(x.kids[k]) && Kid(x.kids[k], t, h - 1) && WF(x.kids[k], t, h - 1);
    }
  }

  /** What an operation that goes down into child i of x relies on. */
  lemma DownReady(x: Tree, i: nat, t: nat, h: nat)
    requires Sound(x, t, h) == true && h > 0 && i <= |x.keys|
    ensures |x.kids| == |x.keys| + 1 && Sound(x.kids[i], t, h - 1) == true && Shaped(x, t, h) == true
    ensures t - 1 <= |x.kids[i].keys| <= 2 * t - 1
    ensures x.ref.keys == x.keys && x.ref.kids == Refs(x.kids) && x.ref.scion == x.scion && !x.ref.leaf
    ensures x.ref !in Own(x.kids[i]) && x.ref in Own(x) && Own(x.kids[i]) <= Own(x)
    ensures forall c :: c in Others(x, i) ==> Rep(c) && Own(c) !! Own(x.kids[i]) && x.ref !in Own(c)
  {
    assert Kid(x.kids[i], t, h - 1);
    OthersReady(x, i);
    PutFlat(x, i, x.kids[i], 0);
    SortedParts(Before(x, i), Flat(x.kids[i]), After(x, i));
  }

  /** Insertion in child i of x made it c. */
  lemma InsertDone(x: Tree, i: nat, e: Entry, c: Tree, t: nat, h: nat)
    requires Shaped(x, t, h) == true && h > 0 && i <= |x.keys| && |x.kids| == |x.keys| + 1 && Between(x, i, e.key) &&
      !Has(Flat(x), e.key)
    requires Sound(c, t, h - 1) == true && t - 1 <= |c.keys| && Flat(c) == Ins(Flat(x.kids[i]), e) &&
      c.ref == x.kids[i].ref
    requires forall n :: n in Own(c) ==> n in Own(x.kids[i]) || n !in Own(x)
    requires x.ref.keys == x.keys && x.ref.kids == Refs(x.kids) && x.ref.scion == x.scion + 1 && !x.ref.leaf
    requires forall k :: k in Others(x, i) ==> Rep(k)
    ensures Sound(Put(x, i, c, 1), t, h) == true
    ensures Flat(Put(x, i, c, 1)) == Ins(Flat(x), e)
    ensures forall n :: n in Own(Put(x, i, c, 1)) ==> n in Own(x) || n in Own(c)
  {
    ReplaceDistinct(x, x.keys, i, c, x.scion + 1);
    ReplaceRep(x, x.keys, i, c, x.scion + 1);
    InsertStep(x, i, e, c, t, h, 0, 0);
    InsMeaning(Flat(x), e);
  }

  // ---------------------------------------------------------------- splitting

  lemma SplitRefs(x: Tree, i: nat, t: nat, z: Node)
    requires t >= 2 && |x.kids| == |x.keys| + 1 && i <= |x.keys| && |x.kids[i].keys| == 2 * t - 1
    requires x.kids[i].kids == [] || |x.kids[i].kids| == 2 * t
    ensures Refs(SplitKid(x, i, t, z).kids) == Refs(x.kids)[..i] + [x.kids[i].ref, z] + Refs(x.kids)[i + 1..]
    ensures var cs := x.kids[i].kids;
      if cs == [] then Refs(Take(cs, t)) == Refs(Drop(cs, t)) == []
      else Refs(Take(cs, t)) == Refs(cs)[..t] && Refs(Drop(cs, t)) == Refs(cs)[t..]
  {
    var y := x.kids[i];
    var a, b := Low(y, t - 1, y.ref), High(y, t - 1, z);
    RefsPatch(x.kids, i, i + 1, [a, b]);
    RefsPair(a, b);
    if y.kids != [] {
      RefsCut(y.kids, t);
    }
  }

  lemma SplitAround(x: Tree, i: nat, t: nat, z: Node, h: nat)
    requires t >= 2 && h > 0 && WF(x, t, h) && i <= |x.keys| && |x.kids[i].keys| == 2 * t - 1
    ensures var r, y := SplitKid(x, i, t, z), x.kids[i];
      && Around(r, i, i + 2) <= Around(x, i, i + 1)
      && r.kids[i] == Low(y, t - 1, y.ref) && r.kids[i + 1] == High(y, t - 1, z)
  {
    var y, r := x.kids[i], SplitKid(x, i, t, z);
    assert Kid(y, t, h - 1);
    forall k | 0 <= k < |r.kids| && !(i <= k < i + 2) ensures r.kids[k] in Around(x, i, i + 1) {
      assert r.kids[k] == x.kids[if k < i then k else k - 1];
    }
    forall k, l | i <= k < i + 2 && 0 <= l < |r.kids[k].kids| ensures r.kids[k].kids[l] in Around(x, i, i + 1) {
      assert r.kids[k].kids[l] == y.kids[if k == i then l else l + t];
    }
  }

  lemma SplitReady(x: Tree, i: nat, t: nat, h: nat) returns (keep: set<Tree>)
    requires Rep(x) && Distinct(x)
    requires t >= 2 && h > 0 && WF(x, t, h) && i <= |x.keys| && |x.kids[i].keys| == 2 * t - 1
    ensures x.ref != x.kids[i].ref && Fields(x) && Fields(x.kids[i])
    ensures var y := x.kids[i]; (y.kids == [] || |y.kids| == 2 * t) && y.scion == 2 * t - 1 + Scions(y.kids)
    ensures forall c :: c in x.kids[i].kids ==> c in keep
    ensures keep == Around(x, i, i + 1)
    ensures forall c :: c in keep ==> Rep(c) && x.ref !in Own(c) && x.kids[i].ref !in Own(c)
  {
    keep := Around(x, i, i + 1);
    assert Kid(x.kids[i], t, h - 1) && WF(x.kids[i], t, h - 1);
    AroundApart(x, i, i + 1, i);
    AroundRep(x, i, i + 1);
    Apart(x);
    assert forall c :: c in x.kids[i].kids ==> c in keep;
  }

  lemma SplitRep(x: Tree, i: nat, t: nat, z: Node, h: nat, keep: set<Tree>)
    requires t >= 2 && h > 0 && WF(x, t, h) && i <= |x.keys| && |x.kids[i].keys| == 2 * t - 1
    requires forall c ::
      c in {SplitKid(x, i, t, z), Low(x.kids[i], t - 1, x.kids[i].ref), High(x.kids[i], t - 1, z)} ==> Fields(c)
    requires keep == Around(x, i, i + 1) && forall c :: c in keep ==> Rep(c)
    ensures Rep(SplitKid(x, i, t, z))
  {
    SplitAround(x, i, t, z, h);
    RepIntro2(SplitKid(x, i, t, z), i, Low(x.kids[i], t - 1, x.kids[i].ref), High(x.kids[i], t - 1, z), keep);
  }

  /** The fields after the upper half of child i moved to node z and its median up into x. */
  ghost predicate Halved(x: Tree, i: nat, t: nat, z: Node)
    requires t >= 2 && |x.kids| == |x.keys| + 1 && i <= |x.keys| && |x.kids[i].keys| == 2 * t - 1
    reads x.ref, x.kids[i].ref, z
  {
    var y := x.kids[i];
    && x.ref.keys == x.keys[..i] + [y.keys[t - 1]] + x.keys[i..] && x.ref.scion == x.scion && !x.ref.leaf
    && x.ref.kids == Refs(x.kids)[..i] + [y.ref, z] + Refs(x.kids)[i + 1..]
    && y.ref.keys == y.keys[..t - 1] && y.ref.kids == Refs(Take(y.kids, t)) &&
      y.ref.scion == t - 1 + Scions(Take(y.kids, t))
    && z.keys == y.keys[t..] && z.kids == Refs(Drop(y.kids, t)) && z.scion == t - 1 + Scions(Drop(y.kids, t))
    && (y.ref.leaf <==> y.kids == []) && (z.leaf <==> y.kids == [])
  }

  lemma HalvedRep(x: Tree, i: nat, t: nat, z: Node, h: nat, keep: set<Tree>)
    requires t >= 2 && h > 0 && WF(x, t, h) && i <= |x.keys| && |x.kids[i].keys| == 2 * t - 1 &&
      Halved(x, i, t, z) == true
    requires x.kids[i].kids == [] || |x.kids[i].kids| == 2 * t
    requires keep == Around(x, i, i + 1) && forall c :: c in keep ==> Rep(c)
    ensures Rep(SplitKid(x, i, t, z))
  {
    SplitRefs(x, i, t, z);
    SplitRep(x, i, t, z, h, keep);
  }

  method SplitMoves(x: Node, y: Node, i: nat, t: nat, ghost xt: Tree, ghost keep: set<Tree>) returns (z: Node)
    requires t >= 2 && |xt.kids| == |xt.keys| + 1 && i <= |xt.keys| && |xt.kids[i].keys| == 2 * t - 1
    requires x == xt.ref && y == xt.kids[i].ref && x != y && Fields(xt) && Fields(xt.kids[i])
    requires var yt := xt.kids[i]; (yt.kids == [] || |yt.kids| == 2 * t) && yt.scion == 2 * t - 1 + Scions(yt.kids)
    requires forall c :: c in xt.kids[i].kids ==> c in keep
    requires forall c :: c in keep ==> Rep(c) && x !in Own(c) && y !in Own(c)
    modifies x, y
    ensures fresh(z) && Halved(xt, i, t, z) && forall c :: c in keep ==> Rep(c)
  {
    ghost var trs := xt.kids[i].kids;
    var ykeys, ykids, zkids, yscion, zscion := y.keys, y.kids, [], y.scion, t - 1;
    yscion := yscion - zscion;
    if !y.leaf {
      RefsCut(trs, t);
      assert trs == trs[..t] + trs[t..];
      ScionsConcat(trs[..t], trs[t..]);
      var moved := SumScions(ykids[t..], trs[t..], keep);
      yscion, zscion := yscion - moved, zscion + moved;
      ykids, zkids := ykids[..t], ykids[t..];
    }
    z := Alloc(y.leaf, ykeys[t..], zkids, zscion, keep);
    Write(y, ykeys[..t - 1], ykids, yscion - 1, keep);
    Write(x, x.keys[..i] + [ykeys[t - 1]] + x.keys[i..], x.kids[..i] + [y, z] + x.kids[i + 1..], x.scion, keep);
  }

  /** Cuts the full child i of x in two around its median, which moves up into x. */
  method SplitChild(x: Node, i: nat, t: nat, ghost xt: Tree, ghost h: nat) returns (z: Node)
    requires Rep(xt) && Distinct(xt) && xt.ref == x
    requires t >= 2 && h > 0 && WF(xt, t, h) && i <= |xt.keys| && |xt.kids[i].keys| == 2 * t - 1
    modifies x, x.kids[i]
    ensures fresh(z) && Rep(SplitKid(xt, i, t, z))
  {
    ghost var keep := SplitReady(xt, i, t, h);
    z := SplitMoves(x, x.kids[i], i, t, xt, keep);
    HalvedRep(xt, i, t, z, h, keep);
  }

  // ---------------------------------------------------------------- two neighbouring children

  /** What moving keys between children i and i+1 relies on. */
  lemma PairReady(x: Tree, i: nat, t: nat, h: nat) returns (keep: set<Tree>)
    requires Rep(x) && Distinct(x) && h > 0 && WF(x, t, h) && i < |x.keys|
    ensures x.ref != x.kids[i].ref && x.ref != x.kids[i + 1].ref && x.kids[i].ref != x.kids[i + 1].ref
    ensures forall c :: c in {x, x.kids[i], x.kids[i + 1]} ==> Fields(c)
    ensures Kid(x.kids[i], t, h - 1) && Kid(x.kids[i + 1], t, h - 1)
    ensures keep == Around(x, i, i + 2)
    ensures forall c :: c in x.kids[i].kids || c in x.kids[i + 1].kids ==> c in keep
    ensures forall c :: c in keep ==>
      Rep(c) && x.ref !in Own(c) && x.kids[i].ref !in Own(c) && x.kids[i + 1].ref !in Own(c)
  {
    keep := Around(x, i, i + 2);
    AroundApart(x, i, i + 2, i);
    AroundApart(x, i, i + 2, i + 1);
    AroundRep(x, i, i + 2);
    PairApart(x, i);
    PairKids(x, i);
  }

  lemma PairApart(x: Tree, i: nat)
    requires Distinct(x) && i + 1 < |x.kids|
    ensures x.ref != x.kids[i].ref && x.ref != x.kids[i + 1].ref && x.kids[i].ref != x.kids[i + 1].ref
  {
    KidApart(x, i, i + 1);
    KidApart(x, i + 1, i);
    assert x.kids[i].ref in Own(x.kids[i]) && x.kids[i + 1].ref in Own(x.kids[i + 1]);
  }

  lemma PairKids(x: Tree, i: nat)
    requires i + 1 < |x.kids|
    ensures forall c :: c in x.kids[i].kids || c in x.kids[i + 1].kids ==> c in Around(x, i, i + 2)
  {
  }

  // ---------------------------------------------------------------- merging

  lemma MergeAround(x: Tree, i: nat, e: Entry)
    requires |x.kids| == |x.keys| + 1 && i < |x.keys|
    ensures Around(MergeKids(x, i, e), i, i + 1) <= Around(x, i, i + 2)
    ensures MergeKids(x, i, e).kids[i] == Join(x.kids[i], e, x.kids[i + 1], x.kids[i].ref)
  {
    var y, z, r := x.kids[i], x.kids[i + 1], MergeKids(x, i, e);
    forall k | 0 <= k < |r.kids| && k != i ensures r.kids[k] in Around(x, i, i + 2) {
      assert r.kids[k] == x.kids[if k < i then k else k + 1];
    }
    forall l | 0 <= l < |r.kids[i].kids| ensures r.kids[i].kids[l] in Around(x, i, i + 2) {
      assert r.kids[i].kids[l] == if l < |y.kids| then y.kids[l] else z.kids[l - |y.kids|];
    }
  }

  lemma MergeRep(x: Tree, i: nat, e: Entry, keep: set<Tree>)
    requires |x.kids| == |x.keys| + 1 && i < |x.keys|
    requires forall c :: c in {MergeKids(x, i, e), Join(x.kids[i], e, x.kids[i + 1], x.kids[i].ref)} ==> Fields(c)
    requires keep == Around(x, i, i + 2) && forall c :: c in keep ==> Rep(c)
    ensures Rep(MergeKids(x, i, e))
  {
    MergeAround(x, i, e);
    RepIntro1(MergeKids(x, i, e), i, Join(x.kids[i], e, x.kids[i + 1], x.kids[i].ref), keep);
  }

  lemma MergeRefs(x: Tree, i: nat, e: Entry)
    requires |x.kids| == |x.keys| + 1 && i < |x.keys|
    ensures Refs(MergeKids(x, i, e).kids) == Refs(x.kids)[..i] + [x.kids[i].ref] + Refs(x.kids)[i + 2..]
    ensures Refs(x.kids[i].kids + x.kids[i + 1].kids) == Refs(x.kids[i].kids) + Refs(x.kids[i + 1].kids)
  {
    var m := Join(x.kids[i], e, x.kids[i + 1], x.kids[i].ref);
    RefsPatch(x.kids, i, i + 2, [m]);
    RefsPair(m, m);
    RefsConcat(x.kids[i].kids, x.kids[i + 1].kids);
  }

  /** Glues child i, entry e and child i+1 together in child i's node; x loses the key between them. */
  method MergeChildren(x: Node, i: nat, e: Entry, ghost xt: Tree, ghost t: nat, ghost h: nat)
    requires Rep(xt) && Distinct(xt) && xt.ref == x && h > 0 && WF(xt, t, h) && i < |xt.keys|
    modifies x, x.kids[i]
    ensures Rep(MergeKids(xt, i, e))
  {
    ghost var keep := PairReady(xt, i, t, h);
    var y, z := x.kids[i], x.kids[i + 1];
    ghost var yt, zt := xt.kids[i], xt.kids[i + 1];
    var scion := y.scion + 1 + |z.keys|;
    if !y.leaf {
      var moved := SumScions(z.kids, zt.kids, keep);
      scion := scion + moved;
    }
    ScionsConcat(yt.kids, zt.kids);
    Write(y, y.keys + [e] + z.keys, y.kids + z.kids, scion, keep);
    Write(x, x.keys[..i] + x.keys[i + 1..], x.kids[..i] + [y] + x.kids[i + 2..], x.scion, keep);
    MergeRefs(xt, i, e);
    MergeRep(xt, i, e, keep);
  }

  // ---------------------------------------------------------------- lending a key

  /** The kids of children i and i+1 are dealt out anew between the two. */
  ghost predicate Redeal(x: Tree, i: nat, a: Tree, b: Tree) {
    i + 1 < |x.kids| && a.kids + b.kids == x.kids[i].kids + x.kids[i + 1].kids
  }

  lemma SwapAround(x: Tree, i: nat, a: Tree, e: Entry, b: Tree)
    requires |x.kids| == |x.keys| + 1 && i < |x.keys| && Redeal(x, i, a, b)
    ensures Around(Swap(x, i, a, e, b), i, i + 2) <= Around(x, i, i + 2)
    ensures Swap(x, i, a, e, b).kids[i] == a && Swap(x, i, a, e, b).kids[i + 1] == b
  {
    var r, all := Swap(x, i, a, e, b), x.kids[i].kids + x.kids[i + 1].kids;
    forall k | 0 <= k < |r.kids| && !(i <= k < i + 2) ensures r.kids[k] in Around(x, i, i + 2) {
      assert r.kids[k] == x.kids[k];
    }
    forall k | 0 <= k < |all| ensures all[k] in Around(x, i, i + 2) {
      assert all[k] == if k < |x.kids[i].kids| then x.kids[i].kids[k] else x.kids[i + 1].kids[k - |x.kids[i].kids|];
    }
    forall k, l | i <= k < i + 2 && 0 <= l < |r.kids[k].kids| ensures r.kids[k].kids[l] in Around(x, i, i + 2) {
      assert r.kids[k].kids[l] == all[if k == i then l else l + |a.kids|];
    }
  }

  lemma SwapRep(x: Tree, i: nat, a: Tree, e: Entry, b: Tree, keep: set<Tree>)
    requires |x.kids| == |x.keys| + 1 && i < |x.keys| && Redeal(x, i, a, b)
    requires forall c :: c in {Swap(x, i, a, e, b), a, b} ==> Fields(c)
    requires keep == Around(x, i, i + 2) && forall c :: c in keep ==> Rep(c)
    ensures Rep(Swap(x, i, a, e, b))
  {
    SwapAround(x, i, a, e, b);
    RepIntro2(Swap(x, i, a, e, b), i, a, b, keep);
  }

  lemma SwapRefs(x: Tree, i: nat, a: Tree, e: Entry, b: Tree)
    requires |x.kids| == |x.keys| + 1 && i < |x.keys| && a.ref == x.kids[i].ref && b.ref == x.kids[i + 1].ref
    ensures Refs(Swap(x, i, a, e, b).kids) == Refs(x.kids)
  {
    RefsPatch(x.kids, i, i + 2, [a, b]);
    RefsPair(a, b);
    assert Refs(x.kids)[..i] + [a.ref, b.ref] + Refs(x.kids)[i + 2..] == Refs(x.kids);
  }

  lemma LendRightParts(y: Tree, e: Entry, c: Tree, t: nat, h: nat)
    requires WF(y, t, h) && WF(c, t, h) && y.keys != []
    ensures var n := |y.keys| - 1;
      var a, b, d := Low(y, n, y.ref), Join(High(y, n, c.ref), e, c, c.ref), Drop(y.kids, n + 1);
      && a.kids + b.kids == y.kids + c.kids && b.keys == [e] + c.keys && Refs(b.kids) == Refs(d) + Refs(c.kids)
      && a.scion == y.scion - 1 - Scions(d) && b.scion == c.scion + 1 + Scions(d)
      && (a.kids == [] <==> y.kids == []) && (b.kids == [] <==> c.kids == [])
  {
    var n := |y.keys| - 1;
    var d := High(y, n, c.ref);
    assert y.kids == Take(y.kids, n + 1) + d.kids;
    ScionsConcat(Take(y.kids, n + 1), d.kids);
    ScionsConcat(d.kids, c.kids);
    assert d.keys + [e] + c.keys == [e] + c.keys;
    RefsConcat(d.kids, c.kids);
  }

  /** The fields after the last key of child i and its last kid, if any, moved over to child i+1. */
  ghost predicate LentRight(x: Tree, i: nat)
    requires |x.kids| == |x.keys| + 1 && i < |x.keys| && x.kids[i].keys != []
    reads x.ref, x.kids[i].ref, x.kids[i + 1].ref
  {
    var y, c, n := x.kids[i], x.kids[i + 1], |x.kids[i].keys| - 1;
    var d := Drop(y.kids, n + 1);
    && x.ref.keys == x.keys[i := y.keys[n]] && x.ref.kids == Refs(x.kids) && x.ref.scion == x.scion && !x.ref.leaf
    && y.ref.keys == y.keys[..n] && y.ref.kids == Refs(Take(y.kids, n + 1)) && y.ref.scion == y.scion - 1 - Scions(d)
    && c.ref.keys == [x.keys[i]] + c.keys && c.ref.kids == Refs(d) + Refs(c.kids) &&
      c.ref.scion == c.scion + 1 + Scions(d)
    && (y.ref.leaf <==> y.kids == []) && (c.ref.leaf <==> c.kids == [])
  }

  lemma LendRightFields(x: Tree, i: nat, t: nat, h: nat)
    requires |x.kids| == |x.keys| + 1 && i < |x.keys| && x.kids[i].keys != [] && LentRight(x, i)
    requires WF(x.kids[i], t, h) && WF(x.kids[i + 1], t, h)
    ensures var y, c, n := x.kids[i], x.kids[i + 1], |x.kids[i].keys| - 1;
      var a, b := Low(y, n, y.ref), Join(High(y, n, c.ref), x.keys[i], c, c.ref);
      Redeal(x, i, a, b) && Fields(Swap(x, i, a, y.keys[n], b)) && Fields(a) && Fields(b)
  {
    var y, c, n, e := x.kids[i], x.kids[i + 1], |x.kids[i].keys| - 1, x.keys[i];
    LendRightParts(y, e, c, t, h);
    SwapRefs(x, i, Low(y, n, y.ref), y.keys[n], Join(High(y, n, c.ref), e, c, c.ref));
  }

  lemma LendRightRep(x: Tree, i: nat, t: nat, h: nat, keep: set<Tree>)
    requires |x.kids| == |x.keys| + 1 && i < |x.keys| && x.kids[i].keys != []
    requires WF(x.kids[i], t, h) == true && WF(x.kids[i + 1], t, h) == true && LentRight(x, i) == true
    requires keep == Around(x, i, i + 2) && forall c :: c in keep ==> Rep(c)
    ensures Rep(BorrowLeft(x, i)) == true
  {
    var y, c, n := x.kids[i], x.kids[i + 1], |x.kids[i].keys| - 1;
    LendRightFields(x, i, t, h);
    SwapRep(x, i, Low(y, n, y.ref), y.keys[n], Join(High(y, n, c.ref), x.keys[i], c, c.ref), keep);
  }

  method LendRightMoves(x: Node, y: Node, c: Node, i: nat, ghost xt: Tree, ghost keep: set<Tree>)
    requires |xt.kids| == |xt.keys| + 1 && i < |xt.keys| && x == xt.ref && y == xt.kids[i].ref &&
      c == xt.kids[i + 1].ref
    requires x != y && x != c && y != c && forall f :: f in {xt, xt.kids[i], xt.kids[i + 1]} ==> Fields(f)
    requires xt.kids[i].keys != [] && (xt.kids[i].kids == [] <==> xt.kids[i + 1].kids == [])
    requires xt.kids[i].kids == [] || |xt.kids[i].kids| == |xt.kids[i].keys| + 1
    requires forall f :: f in xt.kids[i].kids ==> f in keep
    requires forall f :: f in keep ==> Rep(f) && x !in Own(f) && y !in Own(f) && c !in Own(f)
    modifies x, y, c
    ensures LentRight(xt, i)
    ensures forall f :: f in keep ==> Rep(f)
  {
    ghost var yt := xt.kids[i];
    assert Fields(xt) && Fields(yt) && Fields(xt.kids[i + 1]);
    var n := |y.keys| - 1;
    var down, up := x.keys[i], y.keys[n];
    var ykids, ckids, dscion := y.kids, c.kids, 0;
    if !c.leaf {
      assert yt.kids[n + 1] in keep;
      dscion := y.kids[n + 1].scion;
      ykids, ckids := ykids[..n + 1], [ykids[n + 1]] + ckids;
      RefsCut(yt.kids, n + 1);
      assert yt.kids[n + 1..] == [yt.kids[n + 1]];
      Single(yt.kids[n + 1], 0, 0);
    }
    Write(c, [down] + c.keys, ckids, c.scion + 1 + dscion, keep);
    Write(y, y.keys[..n], ykids, y.scion - 1 - dscion, keep);
    Write(x, x.keys[i := up], x.kids, x.scion, keep);
  }

  /** The key between children i and i+1 goes down to i+1, the last key of child i takes its place. */
  method LendRight(x: Node, i: nat, ghost xt: Tree, ghost t: nat, ghost h: nat)
    requires Rep(xt) && Distinct(xt) && xt.ref == x && h > 0 && WF(xt, t, h) && i < |xt.keys| && xt.kids[i].keys != []
    modifies x, x.kids[i], x.kids[i + 1]
    ensures Rep(BorrowLeft(xt, i))
  {
    ghost var keep := PairReady(xt, i, t, h);
    LendRightMoves(x, x.kids[i], x.kids[i + 1], i, xt, keep);
    LendRightRep(xt, i, t, h - 1, keep);
  }

  lemma LendLeftParts(c: Tree, e: Entry, y: Tree, t: nat, h: nat)
    requires WF(y, t, h) && WF(c, t, h) && y.keys != []
    ensures var a, b, d := Join(c, e, Low(y, 0, c.ref), c.ref), High(y, 0, y.ref), Take(y.kids, 1);
      && a.kids + b.kids == c.kids + y.kids && a.keys == c.keys + [e] && Refs(a.kids) == Refs(c.kids) + Refs(d)
      && a.scion == c.scion + 1 + Scions(d) && b.scion == y.scion - 1 - Scions(d)
      && (a.kids == [] <==> c.kids == []) && (b.kids == [] <==> y.kids == [])
  {
    var d, u := Take(y.kids, 1), Drop(y.kids, 1);
    TakeDrop(c.kids, y.kids, 1);
    ScionsConcat(d, u);
    ScionsConcat(c.kids, d);
    RefsConcat(c.kids, d);
    assert c.keys + [e] + y.keys[..0] == c.keys + [e];
  }

  lemma TakeDrop(c: seq<Tree>, y: seq<Tree>, n: nat)
    requires n <= |y| || y == []
    ensures Take(y, n) + Drop(y, n) == y && (c + Take(y, n)) + Drop(y, n) == c + y
  {
  }

  /** The fields after the first key of child i+1 and its first kid, if any, moved over to child i. */
  ghost predicate LentLeft(x: Tree, i: nat)
    requires |x.kids| == |x.keys| + 1 && i < |x.keys| && x.kids[i + 1].keys != []
    reads x.ref, x.kids[i].ref, x.kids[i + 1].ref
  {
    var c, y := x.kids[i], x.kids[i + 1];
    var d := Take(y.kids, 1);
    && x.ref.keys == x.keys[i := y.keys[0]] && x.ref.kids == Refs(x.kids) && x.ref.scion == x.scion && !x.ref.leaf
    && y.ref.keys == y.keys[1..] && y.ref.kids == Refs(Drop(y.kids, 1)) && y.ref.scion == y.scion - 1 - Scions(d)
    && c.ref.keys == c.keys + [x.keys[i]] && c.ref.kids == Refs(c.kids) + Refs(d) &&
      c.ref.scion == c.scion + 1 + Scions(d)
    && (y.ref.leaf <==> y.kids == []) && (c.ref.leaf <==> c.kids == [])
  }

  lemma LendLeftFields(x: Tree, i: nat, t: nat, h: nat)
    requires |x.kids| == |x.keys| + 1 && i < |x.keys| && x.kids[i + 1].keys != [] && LentLeft(x, i)
    requires WF(x.kids[i], t, h) && WF(x.kids[i + 1], t, h)
    ensures var c, y := x.kids[i], x.kids[i + 1];
      var a, b := Join(c, x.keys[i], Low(y, 0, c.ref), c.ref), High(y, 0, y.ref);
      Redeal(x, i, a, b) && Fields(Swap(x, i, a, y.keys[0], b)) && Fields(a) && Fields(b)
  {
    var c, y, e := x.kids[i], x.kids[i + 1], x.keys[i];
    LendLeftParts(c, e, y, t, h);
    SwapRefs(x, i, Join(c, e, Low(y, 0, c.ref), c.ref), y.keys[0], High(y, 0, y.ref));
  }

  lemma LendLeftRep(x: Tree, i: nat, t: nat, h: nat, keep: set<Tree>)
    requires |x.kids| == |x.keys| + 1 && i < |x.keys| && x.kids[i + 1].keys != []
    requires WF(x.kids[i], t, h) == true && WF(x.kids[i + 1], t, h) == true && LentLeft(x, i) == true
    requires keep == Around(x, i, i + 2) && forall c :: c in keep ==> Rep(c)
    ensures Rep(BorrowRight(x, i)) == true
  {
    var c, y := x.kids[i], x.kids[i + 1];
    LendLeftFields(x, i, t, h);
    SwapRep(x, i, Join(c, x.keys[i], Low(y, 0, c.ref), c.ref), y.keys[0], High(y, 0, y.ref), keep);
  }

  method LendLeftMoves(x: Node, c: Node, y: Node, i: nat, ghost xt: Tree, ghost keep: set<Tree>)
    requires |xt.kids| == |xt.keys| + 1 && i < |xt.keys| && x == xt.ref && c == xt.kids[i].ref &&
      y == xt.kids[i + 1].ref
    requires x != y && x != c && y != c && forall f :: f in {xt, xt.kids[i], xt.kids[i + 1]} ==> Fields(f)
    requires xt.kids[i + 1].keys != [] && (xt.kids[i].kids == [] <==> xt.kids[i + 1].kids == [])
    requires forall f :: f in xt.kids[i + 1].kids ==> f in keep
    requires forall f :: f in keep ==> Rep(f) && x !in Own(f) && y !in Own(f) && c !in Own(f)
    modifies x, y, c
    ensures LentLeft(xt, i)
    ensures forall f :: f in keep ==> Rep(f)
  {
    ghost var yt := xt.kids[i + 1];
    assert Fields(xt) && Fields(yt) && Fields(xt.kids[i]);
    var down, up := x.keys[i], y.keys[0];
    var ykids, ckids, dscion := y.kids, c.kids, 0;
    if !c.leaf {
      assert yt.kids[0] in keep;
      dscion := y.kids[0].scion;
      ykids, ckids := ykids[1..], ckids + [ykids[0]];
      RefsCut(yt.kids, 1);
      assert yt.kids[..1] == [yt.kids[0]];
      Single(yt.kids[0], 0, 0);
    }
    Write(c, c.keys + [down], ckids, c.scion + 1 + dscion, keep);
    Write(x, x.keys[i := up], x.kids, x.scion, keep);
    Write(y, y.keys[1..], ykids, y.scion - 1 - dscion, keep);
  }

  /** The key between children i and i+1 goes down to i, the first key of child i+1 takes its place. */
  method LendLeft(x: Node, i: nat, ghost xt: Tree, ghost t: nat, ghost h: nat)
    requires Rep(xt) && Distinct(xt) && xt.ref == x && h > 0 && WF(xt, t, h) && i < |xt.keys| &&
      xt.kids[i + 1].keys != []
    modifies x, x.kids[i], x.kids[i + 1]
    ensures Rep(BorrowRight(xt, i))
  {
    ghost var keep := PairReady(xt, i, t, h);
    LendLeftMoves(x, x.kids[i], x.kids[i + 1], i, xt, keep);
    LendLeftRep(xt, i, t, h - 1, keep);
  }
}
