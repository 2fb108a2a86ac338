/**
  One secondary index (ai/src/ai_btree.c): an outer B-tree from key to the address of a digest holder,
  and the operations reduced_iAdd and reduced_iRem that put and delete (key, digest) pairs.
 */
module Sindex {
  import opened Wrappers
  import opened Entries
  import opened BtreeSpec
  import opened BtreeOrder
  import opened Btree
  import opened BtreeDelete
  import opened Nested

  datatype Code = Ok | KeyFound | KeyNotFound

  // ---------------------------------------------------------------- sums over the outer tree

  /** How many entries of s point to p. */
  ghost function Uses(s: seq<Entry>, p: int): (n: nat) {
    if s == [] then 0 else (if s[0].val == p then 1 else 0) + Uses(s[1..], p)
  }

  /** The entries of s point to distinct addresses, which are those in a. */
  ghost predicate Addressed(s: seq<Entry>, a: set<int>) {
    forall p :: Uses(s, p) == if p in a then 1 else 0
  }

  lemma {:induction false} UsesConcat(l: seq<Entry>, r: seq<Entry>, p: int)
    ensures Uses(l + r, p) == Uses(l, p) + Uses(r, p)
  {
    if l == [] {
      assert l + r == r;
    } else {
      UsesConcat(l[1..], r, p);
      assert (l + r)[1..] == l[1..] + r;
    }
  }

  lemma UsesMid(l: seq<Entry>, e: Entry, r: seq<Entry>, p: int)
    ensures Uses(l + [e] + r, p) == Uses(l, p) + Uses(r, p) + if e.val == p then 1 else 0
    ensures Uses(l + r, p) == Uses(l, p) + Uses(r, p)
  {
    UsesConcat(l + [e], r, p);
    UsesConcat(l, [e], p);
    UsesConcat(l, r, p);
  }

  lemma Cut(s: seq<Entry>, i: nat)
    requires i < |s|
    ensures s == s[..i] + [s[i]] + s[i + 1..]
  {
  }

  /** Only one entry points to its address. */
  lemma Alone(s: seq<Entry>, i: nat, a: set<int>)
    requires i < |s| && Addressed(s, a)
    ensures s[i].val in a && Uses(s[..i], s[i].val) == Uses(s[i + 1..], s[i].val) == 0
    ensures Addressed(s[..i] + s[i + 1..], a - {s[i].val})
  {
    Cut(s, i);
    UsesMid(s[..i], s[i], s[i + 1..], s[i].val);
    forall p ensures Uses(s[..i] + s[i + 1..], p) == if p in a - {s[i].val} then 1 else 0 {
      UsesMid(s[..i], s[i], s[i + 1..], p);
    }
  }

  lemma AddressedIns(l: seq<Entry>, e: Entry, r: seq<Entry>, a: set<int>)
    requires Addressed(l + r, a) && e.val !in a
    ensures Addressed(l + [e] + r, a + {e.val})
  {
    forall p ensures Uses(l + [e] + r, p) == if p in a + {e.val} then 1 else 0 {
      UsesMid(l, e, r, p);
    }
  }

  lemma {:induction false} Used(s: seq<Entry>, j: nat)
    requires j < |s|
    ensures Uses(s, s[j].val) > 0
  {
    if j > 0 {
      Used(s[1..], j - 1);
    }
  }

  lemma ValsDiffer(s: seq<Entry>, i: nat, j: nat, a: set<int>)
    requires i < j < |s| && Addressed(s, a)
    ensures s[i].val != s[j].val && s[i].val in a && s[j].val in a
  {
    Alone(s, i, a);
    Alone(s, j, a);
    Used(s[i + 1..], j - i - 1);
  }

  /** The bytes of all holders that s points to. */
  ghost function Total(s: seq<Entry>, w: map<int, int>): (n: int) {
    if s == [] then 0 else (if s[0].val in w then w[s[0].val] else 0) + Total(s[1..], w)
  }

  lemma {:induction false} TotalConcat(a: seq<Entry>, b: seq<Entry>, w: map<int, int>)
    ensures Total(a + b, w) == Total(a, w) + Total(b, w)
  {
    if a == [] {
      assert a + b == b;
    } else {
      TotalConcat(a[1..], b, w);
      assert (a + b)[1..] == a[1..] + b;
    }
  }

  lemma {:induction false} TotalSame(s: seq<Entry>, w: map<int, int>, v: map<int, int>)
    requires forall p :: Uses(s, p) > 0 ==> p in w && p in v && w[p] == v[p]
    ensures Total(s, w) == Total(s, v)
  {
    if s != [] {
      assert Uses(s, s[0].val) > 0;
      TotalSame(s[1..], w, v);
    }
  }

  lemma TotalMid(l: seq<Entry>, e: Entry, r: seq<Entry>, w: map<int, int>)
    requires e.val in w
    ensures Total(l + [e] + r, w) == Total(l + r, w) + w[e.val] && Total(l + r, w) == Total(l, w) + Total(r, w)
  {
    TotalConcat(l + [e], r, w);
    TotalConcat(l, [e], w);
    TotalConcat(l, r, w);
    assert Total([e], w) == w[e.val];
  }

  /** One holder changes its size. */
  lemma TotalSet(s: seq<Entry>, i: nat, w: map<int, int>, n: int)
    requires i < |s| && Addressed(s, w.Keys)
    ensures s[i].val in w && Total(s, w[s[i].val := n]) == Total(s, w) - w[s[i].val] + n
  {
    Alone(s, i, w.Keys);
    Cut(s, i);
    TotalMid(s[..i], s[i], s[i + 1..], w);
    TotalMid(s[..i], s[i], s[i + 1..], w[s[i].val := n]);
    TotalSame(s[..i] + s[i + 1..], w, w[s[i].val := n]);
  }

  /** A key is added with a new holder. */
  lemma TotalIns(s: seq<Entry>, e: Entry, w: map<int, int>, n: int)
    requires Sorted(s) && !Has(s, e.key) && Addressed(s, w.Keys) && e.val !in w
    ensures Total(Ins(s, e), w[e.val := n]) == Total(s, w) + n
  {
    var i := InsPlace(s, e);
    var l, r, v := s[..i], s[i..], w[e.val := n];
    TotalMid(l, e, r, v);
    assert s == l + r;
    TotalSame(s, w, v);
  }

  lemma InsAddressed(s: seq<Entry>, e: Entry, a: set<int>)
    requires Sorted(s) && !Has(s, e.key) && Addressed(s, a) && e.val !in a
    ensures Addressed(Ins(s, e), a + {e.val})
  {
    var i := InsPlace(s, e);
    assert s == s[..i] + s[i..];
    AddressedIns(s[..i], e, s[i..], a);
  }

  /** A key is deleted with its holder. */
  lemma TotalDel(s: seq<Entry>, i: nat, w: map<int, int>)
    requires Sorted(s) && i < |s| && Addressed(s, w.Keys)
    ensures s[i].val in w && Total(Del(s, s[i].key), w - {s[i].val}) == Total(s, w) - w[s[i].val]
    ensures Addressed(Del(s, s[i].key), w.Keys - {s[i].val})
  {
    DelAt(s, i);
    Alone(s, i, w.Keys);
    Cut(s, i);
    TotalMid(s[..i], s[i], s[i + 1..], w);
    TotalSame(s[..i] + s[i + 1..], w, w - {s[i].val});
  }

  // ---------------------------------------------------------------- pairs

  /** The (key, digest) pairs of an outer tree whose holders have the given digests. */
  ghost function PairsOf(s: seq<Entry>, d: map<int, set<int>>): (r: set<(int, int)>) {
    set e, x | e in s && e.val in d && x in d[e.val] :: (e.key, x)
  }

  lemma PairsAt(s: seq<Entry>, i: nat, d: map<int, set<int>>)
    requires Sorted(s) && Addressed(s, d.Keys) && i < |s|
    ensures s[i].val in d && forall x :: (s[i].key, x) in PairsOf(s, d) <==> x in d[s[i].val]
  {
    Alone(s, i, d.Keys);
    forall x | (s[i].key, x) in PairsOf(s, d) ensures x in d[s[i].val] {
      var e :| e in s && e.val in d && x in d[e.val] && e.key == s[i].key;
    }
  }

  /** The holder of key s[i] changes to n. */
  lemma PairsSet(s: seq<Entry>, i: nat, d: map<int, set<int>>, n: set<int>)
    requires Sorted(s) && Addressed(s, d.Keys) && i < |s|
    ensures forall k, x :: (k, x) in PairsOf(s, d[s[i].val := n]) <==>
      if k == s[i].key then x in n else (k, x) in PairsOf(s, d)
  {
    Alone(s, i, d.Keys);
    OthersApart(s, i, d.Keys);
  }

  lemma PairKeys(s: seq<Entry>, d: map<int, set<int>>)
    ensures forall k, x :: (k, x) in PairsOf(s, d) ==> Has(s, k)
  {
    forall k, x | (k, x) in PairsOf(s, d) ensures Has(s, k) {
      var e :| e in s && e.val in d && x in d[e.val] && e.key == k;
      var i :| 0 <= i < |s| && s[i] == e;
    }
  }

  /** Deleting a key whose holder is empty takes away no pair. */
  lemma PairsDel(s: seq<Entry>, e: Entry, d: map<int, set<int>>)
    requires Sorted(s) && Addressed(s, d.Keys) && e in s && e.val in d && d[e.val] == {}
    ensures PairsOf(Del(s, e.key), d - {e.val}) == PairsOf(s, d)
  {
    DelMembers(s, e.key);
    var i :| 0 <= i < |s| && s[i] == e;
    PairsAt(s, i, d);
    OthersApart(s, i, d.Keys);
    var l, r := PairsOf(Del(s, e.key), d - {e.val}), PairsOf(s, d);
    forall k, x | (k, x) in r ensures (k, x) in l {
      var f :| f in s && f.val in d && x in d[f.val] && f.key == k;
      assert f.key != e.key;
    }
  }

  lemma OthersApart(s: seq<Entry>, i: nat, a: set<int>)
    requires Addressed(s, a) && i < |s|
    ensures forall f :: f in s && f != s[i] ==> f.val != s[i].val
  {
    forall f | f in s && f != s[i] ensures f.val != s[i].val {
      var j :| 0 <= j < |s| && s[j] == f;
      if i < j {
        ValsDiffer(s, i, j, a);
      } else {
        ValsDiffer(s, j, i, a);
      }
    }
  }

  lemma InsMembers(s: seq<Entry>, e: Entry)
    requires Sorted(s) && !Has(s, e.key)
    ensures forall x :: x in Ins(s, e) <==> x in s || x == e
  {
    var i := InsPlace(s, e);
    InsBetween(s[..i], s[i..], e, s, Ins(s, e));
  }

  lemma InsBetween(a: seq<Entry>, b: seq<Entry>, e: Entry, s: seq<Entry>, r: seq<Entry>)
    requires s == a + b && r == a + [e] + b
    ensures forall x :: x in r <==> x in s || x == e
  {
    assert r == a + ([e] + b);
  }

  /** A new key whose holder is empty adds no pair. */
  lemma PairsIns(s: seq<Entry>, e: Entry, d: map<int, set<int>>)
    requires Sorted(s) && !Has(s, e.key) && Addressed(s, d.Keys) && e.val !in d
    ensures PairsOf(Ins(s, e), d[e.val := {}]) == PairsOf(s, d)
  {
    InsMembers(s, e);
    forall x | x in s ensures x.val in d {
      var j :| 0 <= j < |s| && s[j] == x;
      Alone(s, j, d.Keys);
    }
  }

  // ---------------------------------------------------------------- the index

  /** n occupies f, has the digests d and weighs w; t tells whether it is a tree. */
  ghost predicate Holder(n: Nbtr, f: set<object>, d: set<int>, w: int, t: bool)
    reads f
  {
    n in f && n.Repr == f && n.Valid() && n.Digests() == d && n.Weight() == w && (t <==> n.nbtr != null)
  }

  /**
    The holders by address, what each occupies, has and weighs and whether it is a tree, what the outer
    tree occupies, and everything that any of them occupies.
   */
  datatype Layout = Layout(objs: map<int, Nbtr>, foot: map<int, set<object>>, sets: map<int, set<int>>,
                           weights: map<int, int>, kinds: map<int, bool>, nodes: set<object>, all: set<object>)

  /** The holders share nothing with each other or with the outer tree. */
  ghost predicate Separate(g: Layout) {
    && g.nodes <= g.all && (forall p :: p in g.foot ==> g.foot[p] <= g.all)
    && (forall p :: p in g.foot ==> g.foot[p] !! g.nodes)
    && (forall p, q :: p in g.foot && q in g.foot && p != q ==> g.foot[p] !! g.foot[q])
  }

  /** Every address has its holder. */
  ghost predicate Table(g: Layout)
    reads g.all
  {
    && Separate(g) && g.objs.Keys == g.sets.Keys == g.weights.Keys == g.foot.Keys == g.kinds.Keys
    && forall p :: p in g.objs ==> Holder(g.objs[p], g.foot[p], g.sets[p], g.weights[p], g.kinds[p]) == true
  }

  /** The outer tree occupies nodes. */
  ghost predicate Outer(b: BTree, nodes: set<object>)
    reads nodes
  {
    b in nodes && (forall n :: n in Own(b.tree) ==> n in nodes) && b.Valid()
  }

  /**
    What a put of d costs where n digests s are in an array that weighs w: an array that is full, as its
    weight tells, doubles.
   */
  ghost function PutBytes(w: int, s: set<int>, d: int): int {
    if d !in s && w == 11 + 20 * |s| then 20 * |s| else 0
  }

  /** While the digests are in an array with room under the limit, they stay in it and the cost is exact. */
  ghost predicate Exact(t: bool, w: int, s: set<int>, d: int, diff: int, u: bool) {
    !t && |s| < 32 ==> !u && diff == PutBytes(w, s, d)
  }

  /** anbtr_check_convert and the insertion after it. */
  method PutIn(n: Nbtr, d: int, ghost f: set<object>, ghost s: set<int>, ghost w: int, ghost t: bool)
    returns (found: bool, diff: int, ghost u: bool)
    requires Holder(n, f, s, w, t) == true
    modifies f
    ensures n.Repr >= {n} && Holder(n, n.Repr, s + {d}, w + diff, u) == true && fresh(n.Repr - f)
    ensures (found <==> d in s) && (t ==> u) && Exact(t, w, s, d, diff, u) == true
  {
    if !t {
      ElemsSize(n.arr.data);
    }
    var grown := n.CheckConvert();
    found, diff := n.Put(d);
    diff := grown + diff;
    u := n.nbtr != null;
  }

  /** The deletion from a holder, and whether it is then empty. */
  method TakeFrom(n: Nbtr, d: int, ghost f: set<object>, ghost s: set<int>, ghost w: int, ghost t: bool)
    returns (notfound: bool, diff: int, empty: bool)
    requires Holder(n, f, s, w, t) == true
    modifies f
    ensures Holder(n, f, s - {d}, w + diff, t) == true && (notfound <==> d !in s) && (empty <==> s - {d} == {})
  {
    notfound, diff := n.Take(d);
    assert n.Valid() && allocated(n.Repr);
    empty := n.IsEmpty();
    assert n.Valid();
  }

  /** The outer tree and the holders its entries point to, each to one of its own. */
  ghost predicate State(g: Layout, b: BTree)
    reads g.all
  {
    Separate(g) && Table(g) == true && Outer(b, g.nodes) == true && Addressed(b.Contents(), g.objs.Keys)
  }

  /** g with the holder at p changed. */
  ghost function Changed(g: Layout, p: int, f: set<object>, d: set<int>, w: int, t: bool): Layout {
    g.(foot := g.foot[p := f], sets := g.sets[p := d], weights := g.weights[p := w], kinds := g.kinds[p := t],
      all := g.all + f)
  }

  /** Everything but the holder at p is as g says. */
  ghost predicate Others(g: Layout, p: int, b: BTree)
    reads g.all
  {
    && Separate(g) && g.objs.Keys == g.sets.Keys == g.weights.Keys == g.foot.Keys == g.kinds.Keys
    && (forall q :: q in g.objs && q != p ==> Holder(g.objs[q], g.foot[q], g.sets[q], g.weights[q], g.kinds[q]) == true)
    && Outer(b, g.nodes) == true && Addressed(b.Contents(), g.objs.Keys)
  }

  lemma ChangedSeparate(g: Layout, p: int, f: set<object>, d: set<int>, w: int, t: bool)
    requires Separate(g) && p in g.foot && f !! g.all - g.foot[p]
    ensures Separate(Changed(g, p, f, d, w, t)) == true && Changed(g, p, f, d, w, t).all == g.all + f
  {
    assert forall q :: q in g.foot && q != p ==> g.foot[q] !! g.foot[p] && g.foot[q] <= g.all;
    assert g.nodes <= g.all && g.nodes !! g.foot[p];
  }

  /** No holder was lost, and no tree became an array. */
  ghost predicate Keeps(g: Layout, r: Layout) {
    forall p :: p in g.kinds ==> p in r.kinds && (g.kinds[p] ==> r.kinds[p])
  }

  /** From g to r the holder at p came to have the digests d and to weigh diff more. */
  ghost predicate Became(g: Layout, r: Layout, p: int, d: set<int>, diff: int) {
    && p in g.weights && Keeps(g, r) && r.objs == g.objs && r.sets == g.sets[p := d] &&
      r.weights == g.weights[p := g.weights[p] + diff]
  }

  lemma ChangedState(g: Layout, p: int, f: set<object>, d: set<int>, diff: int, t: bool, b: BTree)
    requires Separate(g) == true && Others(g, p, b) == true && p in g.objs && p in g.weights && p in g.foot
    requires Holder(g.objs[p], f, d, g.weights[p] + diff, t) == true && f !! g.all - g.foot[p]
    requires p in g.kinds && (g.kinds[p] ==> t)
    ensures var r := Changed(g, p, f, d, g.weights[p] + diff, t);
      State(r, b) == true && r.all - g.all <= f - g.foot[p]
  {
    var r := Changed(g, p, f, d, g.weights[p] + diff, t);
    assert Others(g, p, b);
    ChangedSeparate(g, p, f, d, g.weights[p] + diff, t);
    assert Table(r);
    assert g.foot[p] <= g.all;
  }

  lemma ChangedBecame(g: Layout, p: int, f: set<object>, d: set<int>, diff: int, t: bool)
    requires p in g.weights && p in g.kinds && (g.kinds[p] ==> t)
    ensures Became(g, Changed(g, p, f, d, g.weights[p] + diff, t), p, d, diff) == true
  {
  }

  /** From g to r the holder at p got d, for diff bytes. */
  ghost predicate Charged(g: Layout, r: Layout, p: int, d: int, diff: int) {
    && p in g.sets && p in g.weights && p in g.kinds && p in r.sets && p in r.weights && p in r.kinds
    && r.sets[p] == g.sets[p] + {d} && r.weights[p] == g.weights[p] + diff
    && Exact(g.kinds[p], g.weights[p], g.sets[p], d, diff, r.kinds[p])
  }

  /** Puts d into the holder at p, and leaves the others and the outer tree alone. */
  method PutAt(n: Nbtr, p: int, d: int, b: BTree, ghost g: Layout)
    returns (found: bool, diff: int, ghost f: set<object>, ghost u: bool)
    requires State(g, b) == true && p in g.objs && n == g.objs[p]
    modifies g.foot[p]
    ensures p in g.sets && p in g.weights && p in g.foot && p in g.kinds && (g.kinds[p] ==> u) &&
      Separate(g) == true && f !! g.all - g.foot[p]
    ensures Others(g, p, b) == true && Holder(n, f, g.sets[p] + {d}, g.weights[p] + diff, u) == true
    ensures fresh(f - g.foot[p]) && b.Contents() == old(b.Contents()) && (found <==> d in g.sets[p])
    ensures Exact(g.kinds[p], g.weights[p], g.sets[p], d, diff, u) == true
  {
    assert allocated(g.nodes) && allocated(g.foot);
    assert Holder(n, g.foot[p], g.sets[p], g.weights[p], g.kinds[p]);
    found, diff, u := PutIn(n, d, g.foot[p], g.sets[p], g.weights[p], g.kinds[p]);
    f := n.Repr;
  }

  method PutOne(n: Nbtr, p: int, d: int, b: BTree, ghost g: Layout) returns (found: bool, diff: int, ghost r: Layout)
    requires State(g, b) == true && p in g.objs && n == g.objs[p]
    modifies g.all
    ensures State(r, b) == true && fresh(r.all - g.all) && b.Contents() == old(b.Contents())
    ensures p in g.sets && (found <==> d in g.sets[p]) && Became(g, r, p, g.sets[p] + {d}, diff) == true
    ensures Charged(g, r, p, d, diff) == true
  {
    assert p in g.foot && g.foot[p] <= g.all;
    ghost var f, u;
    found, diff, f, u := PutAt(n, p, d, b, g);
    ChangedState(g, p, f, g.sets[p] + {d}, diff, u, b);
    ChangedBecame(g, p, f, g.sets[p] + {d}, diff, u);
    r := Changed(g, p, f, g.sets[p] + {d}, g.weights[p] + diff, u);
  }

  /** g with the new holder n at p, and with more nodes in the outer tree. */
  ghost function Added(g: Layout, p: int, n: Nbtr, f: set<object>, w: int, nodes: set<object>): Layout {
    Layout(g.objs[p := n], g.foot[p := f], g.sets[p := {}], g.weights[p := w], g.kinds[p := false], nodes,
      g.all + f + nodes)
  }

  lemma AddedSeparate(g: Layout, p: int, n: Nbtr, f: set<object>, w: int, nodes: set<object>)
    requires Separate(g) && f !! g.all && nodes !! f && nodes !! g.all - g.nodes
    ensures Separate(Added(g, p, n, f, w, nodes)) == true
  {
    assert forall q :: q in g.foot ==> g.foot[q] <= g.all - g.nodes;
  }

  lemma AddedState(g: Layout, p: int, n: Nbtr, f: set<object>, w: int, nodes: set<object>, b: BTree)
    requires Separate(g) == true && Table(g) == true && p !in g.objs && Holder(n, f, {}, w, false) == true
    requires Outer(b, nodes) == true && Addressed(b.Contents(), g.objs.Keys + {p})
    requires f !! g.all && nodes !! f && nodes !! g.all - g.nodes
    ensures State(Added(g, p, n, f, w, nodes), b) == true
  {
    var r := Added(g, p, n, f, w, nodes);
    AddedSeparate(g, p, n, f, w, nodes);
    assert Table(g) && Table(r);
    assert r.objs.Keys == g.objs.Keys + {p};
  }

  /** btIndAdd: the key of e is put into the outer tree, pointing to the new holder n. */
  method OuterAdd(b: BTree, e: Entry, n: Nbtr, ghost f: set<object>, ghost w: int, ghost g: Layout)
    returns (ghost nodes: set<object>)
    requires State(g, b) == true && !Has(b.Contents(), e.key) && e.val !in g.objs
    requires Holder(n, f, {}, w, false) == true && f !! g.all
    modifies g.nodes
    ensures Separate(g) == true && Table(g) == true && Holder(n, f, {}, w, false) == true && Outer(b, nodes) == true
    ensures fresh(nodes - g.nodes) && nodes !! f && nodes !! g.all - g.nodes &&
      b.Contents() == Ins(old(b.Contents()), e)
  {
    assert Table(g) == true && Separate(g) && allocated(g.all) && allocated(f);
    assert g.nodes <= g.all && g.nodes !! g.all - g.nodes;
    b.Insert(e);
    nodes := g.nodes + (set n: object | n in Own(b.tree));
  }

  /** From g to r the empty holder n of weight w was added at p. */
  ghost predicate Gained(g: Layout, r: Layout, p: int, n: Nbtr, w: int) {
    r.objs == g.objs[p := n] && r.sets == g.sets[p := {}] && r.weights == g.weights[p := w] &&
      r.kinds == g.kinds[p := false]
  }

  method AddKey(b: BTree, e: Entry, n: Nbtr, ghost w: int, ghost g: Layout) returns (ghost r: Layout)
    requires State(g, b) == true && !Has(b.Contents(), e.key) && e.val !in g.objs
    requires n in n.Repr && Holder(n, n.Repr, {}, w, false) == true && n.Repr !! g.all
    modifies g.nodes
    ensures State(r, b) == true && fresh(r.all - g.all - old(n.Repr)) && b.Contents() == Ins(old(b.Contents()), e)
    ensures Gained(g, r, e.val, n, w) == true
  {
    ghost var f := n.Repr;
    NewKeyReady(b, e, g);
    ghost var nodes := OuterAdd(b, e, n, f, w, g);
    AddedState(g, e.val, n, f, w, nodes, b);
    r := Added(g, e.val, n, f, w, nodes);
  }

  /** A new holder, with an array of one slot, and its key in the outer tree. */
  method CreateKey(b: BTree, e: Entry, ghost g: Layout) returns (n: Nbtr, w: int, ghost r: Layout)
    requires State(g, b) == true && !Has(b.Contents(), e.key) && e.val !in g.objs
    modifies g.nodes
    ensures State(r, b) == true && fresh(r.all - g.all) && b.Contents() == Ins(old(b.Contents()), e)
    ensures Gained(g, r, e.val, n, w) == true && w == 31
  {
    assert allocated(g.all);
    n := new Nbtr();
    w := n.Weight();
    assert Holder(n, n.Repr, {}, w, false);
    r := AddKey(b, e, n, w, g);
  }

  lemma NewKeyReady(b: BTree, e: Entry, g: Layout)
    requires State(g, b) == true && !Has(b.Contents(), e.key) && e.val !in g.objs
    ensures Addressed(Ins(b.Contents(), e), g.objs.Keys + {e.val})
  {
    assert Outer(b, g.nodes) && Shaped(b.tree, b.t, b.height);
    InsAddressed(b.Contents(), e, g.objs.Keys);
  }

  /** What a change of the holder of key k means for the pairs and for the bytes. */
  lemma BecameMeans(s: seq<Entry>, e: Entry, g: Layout, r: Layout, d: set<int>, diff: int)
    requires Sorted(s) && Addressed(s, g.sets.Keys) && g.sets.Keys == g.weights.Keys && e in s
    requires Became(g, r, e.val, d, diff) == true
    ensures e.val in g.sets && Total(s, r.weights) == Total(s, g.weights) + diff
    ensures forall x :: (e.key, x) in PairsOf(s, g.sets) <==> x in g.sets[e.val]
    ensures forall k, x :: (k, x) in PairsOf(s, r.sets) <==> if k == e.key then x in d else (k, x) in PairsOf(s, g.sets)
  {
    var i :| 0 <= i < |s| && s[i] == e;
    Alone(s, i, g.sets.Keys);
    TotalSet(s, i, g.weights, g.weights[e.val] + diff);
    PairsAt(s, i, g.sets);
    PairsSet(s, i, g.sets, d);
  }

  /** The outer entries of a layout. */
  ghost predicate Keyed(s: seq<Entry>, g: Layout) {
    Sorted(s) && g.objs.Keys == g.sets.Keys == g.weights.Keys == g.kinds.Keys && Addressed(s, g.sets.Keys)
  }

  lemma OuterEntries(b: BTree, g: Layout)
    requires State(g, b) == true
    ensures b.Valid() && Keyed(b.Contents(), g) == true && forall e :: e in b.Contents() ==> e.val in g.objs
  {
    assert Outer(b, g.nodes) && Shaped(b.tree, b.t, b.height);
    assert Table(g);
    var s := b.Contents();
    forall e | e in s ensures e.val in g.objs {
      var i :| 0 <= i < |s| && s[i] == e;
      Alone(s, i, g.objs.Keys);
    }
  }

  lemma GainMeans(s: seq<Entry>, e: Entry, g: Layout, r: Layout, n: Nbtr, w: int)
    requires Keyed(s, g) == true && !Has(s, e.key) && e.val !in g.objs && Gained(g, r, e.val, n, w) == true
    requires Filled(g.sets, g.sets.Keys) == true
    ensures e in Ins(s, e) && Total(Ins(s, e), r.weights) == Total(s, g.weights) + w
    ensures PairsOf(Ins(s, e), r.sets) == PairsOf(s, g.sets)
    ensures Filled(r.sets, r.sets.Keys - {e.val}) == true && e.val in r.objs && Persist(s, g, Ins(s, e), r) == true
  {
    TotalIns(s, e, g.weights, w);
    PairsIns(s, e, g.sets);
    InsMembers(s, e);
  }

  lemma OuterKeyed(b: BTree, g: Layout)
    requires State(g, b) == true
    ensures Keyed(b.Contents(), g) == true
  {
    OuterEntries(b, g);
  }

  lemma AddMeans(s: seq<Entry>, e: Entry, g: Layout, r: Layout, d: int, diff: int)
    requires Keyed(s, g) == true && e in s && e.val in g.sets && Filled(g.sets, g.sets.Keys - {e.val}) == true
    requires Became(g, r, e.val, g.sets[e.val] + {d}, diff) == true
    ensures Total(s, r.weights) == Total(s, g.weights) + diff
    ensures (e.key, d) in PairsOf(s, g.sets) <==> d in g.sets[e.val]
    ensures PairsOf(s, r.sets) == PairsOf(s, g.sets) + {(e.key, d)}
    ensures Filled(r.sets, r.sets.Keys) == true && Persist(s, g, s, r) == true
  {
    BecameMeans(s, e, g, r, g.sets[e.val] + {d}, diff);
    assert d in r.sets[e.val];
  }

  /** Takes d from the holder at p, and leaves the others and the outer tree alone. */
  method TakeAt(n: Nbtr, p: int, d: int, b: BTree, ghost g: Layout) returns (notfound: bool, diff: int, empty: bool)
    requires State(g, b) == true && p in g.objs && n == g.objs[p]
    modifies g.foot[p]
    ensures p in g.sets && p in g.weights && p in g.foot && p in g.kinds && Separate(g) == true
    ensures Others(g, p, b) == true && Holder(n, g.foot[p], g.sets[p] - {d}, g.weights[p] + diff, g.kinds[p]) == true
    ensures b.Contents() == old(b.Contents()) && (notfound <==> d !in g.sets[p]) && (empty <==> g.sets[p] - {d} == {})
  {
    assert allocated(g.nodes) && allocated(g.foot);
    assert Holder(n, g.foot[p], g.sets[p], g.weights[p], g.kinds[p]);
    notfound, diff, empty := TakeFrom(n, d, g.foot[p], g.sets[p], g.weights[p], g.kinds[p]);
  }

  method TakeOne(n: Nbtr, p: int, d: int, b: BTree, ghost g: Layout)
    returns (notfound: bool, diff: int, empty: bool, ghost r: Layout)
    requires State(g, b) == true && p in g.objs && n == g.objs[p]
    modifies g.all
    ensures State(r, b) == true && r.all == g.all && b.Contents() == old(b.Contents())
    ensures p in g.sets && (notfound <==> d !in g.sets[p]) && (empty <==> g.sets[p] - {d} == {})
    ensures Became(g, r, p, g.sets[p] - {d}, diff) == true
  {
    assert p in g.foot && g.foot[p] <= g.all;
    notfound, diff, empty := TakeAt(n, p, d, b, g);
    ChangedState(g, p, g.foot[p], g.sets[p] - {d}, diff, g.kinds[p], b);
    ChangedBecame(g, p, g.foot[p], g.sets[p] - {d}, diff, g.kinds[p]);
    r := Changed(g, p, g.foot[p], g.sets[p] - {d}, g.weights[p] + diff, g.kinds[p]);
  }

  /** g without the holder at p. */
  ghost function Dropped(g: Layout, p: int): Layout {
    Layout(g.objs - {p}, g.foot - {p}, g.sets - {p}, g.weights - {p}, g.kinds - {p}, g.nodes, g.all)
  }

  lemma DroppedState(g: Layout, p: int, b: BTree)
    requires Table(g) == true && Outer(b, g.nodes) == true && p in g.objs && Addressed(b.Contents(), g.objs.Keys - {p})
    ensures State(Dropped(g, p), b) == true
  {
    var r := Dropped(g, p);
    assert Table(g) && Separate(r) && Table(r);
    assert r.objs.Keys == g.objs.Keys - {p};
  }

  lemma DropReady(s: seq<Entry>, e: Entry, g: Layout)
    requires Keyed(s, g) == true && e in s
    ensures Addressed(Del(s, e.key), g.objs.Keys - {e.val}) && Has(s, e.key)
    ensures e.val in g.weights &&
      Total(Del(s, e.key), Dropped(g, e.val).weights) == Total(s, g.weights) - g.weights[e.val]
  {
    var i :| 0 <= i < |s| && s[i] == e;
    TotalDel(s, i, g.weights);
  }

  /** btIndDelete: the key of e is deleted from the outer tree, and its holder is given up. */
  method DropKey(b: BTree, e: Entry, ghost g: Layout) returns (ghost r: Layout)
    requires State(g, b) == true && e in b.Contents() && e.val in g.objs
    modifies g.nodes
    ensures r == Dropped(g, e.val) && State(r, b) == true && b.Contents() == Del(old(b.Contents()), e.key)
  {
    OuterKeyed(b, g);
    DropReady(b.Contents(), e, g);
    assert Table(g) == true && allocated(g.all) && Outer(b, g.nodes) && g.nodes <= g.all;
    Remove(b, e);
    DroppedState(g, e.val, b);
    r := Dropped(g, e.val);
  }

  lemma TakeMeans(s: seq<Entry>, e: Entry, g: Layout, r: Layout, d: int, diff: int)
    requires Keyed(s, g) == true && e in s && e.val in g.sets && Filled(g.sets, g.sets.Keys) == true
    requires Became(g, r, e.val, g.sets[e.val] - {d}, diff) == true
    ensures Total(s, r.weights) == Total(s, g.weights) + diff
    ensures (e.key, d) in PairsOf(s, g.sets) <==> d in g.sets[e.val]
    ensures PairsOf(s, r.sets) == PairsOf(s, g.sets) - {(e.key, d)}
    ensures e.val in r.sets && r.sets[e.val] == g.sets[e.val] - {d} && Filled(r.sets, r.sets.Keys - {e.val}) == true
    ensures r.sets[e.val] != {} ==> Filled(r.sets, r.sets.Keys) == true
  {
    BecameMeans(s, e, g, r, g.sets[e.val] - {d}, diff);
  }

  /** Deleting a key whose holder is empty changes no pair. */
  lemma DropMeans(s: seq<Entry>, e: Entry, g: Layout)
    requires Keyed(s, g) == true && e in s && e.val in g.sets && g.sets[e.val] == {} &&
      Filled(g.sets, g.sets.Keys - {e.val}) == true
    ensures PairsOf(Del(s, e.key), Dropped(g, e.val).sets) == PairsOf(s, g.sets)
    ensures Filled(Dropped(g, e.val).sets, Dropped(g, e.val).sets.Keys) == true
    ensures Total(Del(s, e.key), Dropped(g, e.val).weights) == Total(s, g.weights) - g.weights[e.val]
  {
    DropReady(s, e, g);
    PairsDel(s, e, g.sets);
  }

  /** The holders in a are not empty. */
  ghost predicate Filled(sets: map<int, set<int>>, a: set<int>) {
    forall p :: p in a && p in sets ==> sets[p] != {}
  }

  /** The holder at p is new. */
  ghost predicate Blank(g: Layout, p: int) {
    p in g.sets && p in g.weights && p in g.kinds && g.sets[p] == {} && g.weights[p] == 31 && !g.kinds[p]
  }

  /** The holder at p is an array with the digest d alone. */
  ghost predicate Sole(g: Layout, p: int, d: int) {
    p in g.sets && p in g.weights && p in g.kinds && g.sets[p] == {d} && g.weights[p] == 31 && !g.kinds[p]
  }

  /** Where the holder of k is. */
  ghost function Where(s: seq<Entry>, k: int): (r: Option<int>) {
    if s == [] then None else if s[0].key == k then Some(s[0].val) else Where(s[1..], k)
  }

  lemma {:induction false} WhereIs(s: seq<Entry>, k: int)
    requires Sorted(s)
    ensures Where(s, k).Some? <==> Has(s, k)
    ensures forall p :: Entry(k, p) in s ==> Where(s, k) == Some(p)
  {
    if s != [] {
      var u := s[1..];
      assert forall i :: 0 < i < |s| ==> s[i] == u[i - 1];
      WhereIs(u, k);
    }
  }

  /** What a put of (k, d) costs: exact for an array, and 31 bytes for a new key, whose holder is at p. */
  ghost predicate Billed(at: Option<int>, now: Option<int>, g: Layout, r: Layout, d: int, p: int, diff: int) {
    if at.None? then now == Some(p) && diff == 31 && Sole(r, p, d)
    else now == at && Charged(g, r, at.value, d, diff)
  }

  lemma BilledNew(g: Layout, m: Layout, r: Layout, d: int, p: int, diff: int)
    requires Blank(m, p) == true && Charged(m, r, p, d, diff) == true
    ensures diff == 0 && Billed(None, Some(p), g, r, d, p, 31) == true
  {
    assert {} + {d} == {d};
  }

  /** From (s, g) to (t, r) no key was lost, and no tree became an array. */
  ghost predicate Persist(s: seq<Entry>, g: Layout, t: seq<Entry>, r: Layout) {
    Keeps(g, r) && forall e :: e in s ==> e in t
  }

  lemma PersistTwice(s: seq<Entry>, g: Layout, t: seq<Entry>, r: Layout, u: seq<Entry>, q: Layout)
    requires Persist(s, g, t, r) == true && Persist(t, r, u, q) == true
    ensures Persist(s, g, u, q) == true
  {
  }

  class Index {
    const ibtr: BTree
    /** Bytes held outside the outer tree. */
    var nsize: int
    /** The digest holders by address. */
    var objs: map<int, Nbtr>

    /** What the index holds, and where. */
    ghost var pairs: set<(int, int)>
    ghost var g: Layout

    ghost predicate Base()
      reads this, g.all
    {
      objs == g.objs && this !in g.all && State(g, ibtr) == true && pairs == PairsOf(ibtr.Contents(), g.sets)
    }

    /** nsize and x together account for every holder. */
    ghost predicate Bytes(x: int)
      reads this, ibtr
    {
      nsize + x == Total(ibtr.Contents(), g.weights)
    }

    /** No key is left without digests, and nsize accounts for every holder. */
    ghost predicate Valid()
      reads this, g.all
    {
      Base() && Filled(g.sets, g.sets.Keys) == true && Bytes(0)
    }

    /** An empty index whose outer nodes have n slots of ksize bytes. */
    constructor (n: nat, ksize: nat)
      requires 3 <= n < 511
      ensures Valid() && fresh(g.all) && pairs == {} && nsize == 0 && ibtr.t == (n + 1) / 2 && ibtr.Contents() == []
    {
      var b := new BTree(n, ksize);
      ibtr := b;
      nsize, objs, pairs := 0, map[], {};
      ghost var nodes := {b} + (set n: object | n in Own(b.tree));
      g := Layout(map[], map[], map[], map[], map[], nodes, nodes);
    }

    method SetLayout(o: map<int, Nbtr>, size: int, ghost r: Layout)
      requires r.objs == o && this !in r.all && State(r, ibtr) == true
      modifies this
      ensures Base() == true && g == r && nsize == size && ibtr.Contents() == old(ibtr.Contents())
      ensures pairs == PairsOf(ibtr.Contents(), r.sets)
    {
      assert allocated(r.all);
      g, objs, nsize := r, o, size;
      pairs := PairsOf(ibtr.Contents(), r.sets);
    }

    /** Puts d into the holder at p, of which x bytes are not counted yet. */
    method AddTo(p: int, d: int, x: int) returns (found: bool, ghost diff: int)
      requires Base() == true && p in objs
      modifies this, g.all
      ensures Base() == true && (forall o :: o in g.all ==> o in old(g.all) || fresh(o)) &&
        ibtr.Contents() == old(ibtr.Contents())
      ensures p in old(g).sets && (found <==> d in old(g).sets[p]) &&
        Became(old(g), g, p, old(g).sets[p] + {d}, diff) == true
      ensures nsize == old(nsize) + diff + x && pairs == PairsOf(ibtr.Contents(), g.sets)
      ensures Charged(old(g), g, p, d, diff) == true
    {
      var more; ghost var r;
      found, more, r := PutOne(objs[p], p, d, ibtr, g);
      SetLayout(objs, nsize + more + x, r);
      diff := more;
    }

    /** A key without holder gets an empty one at address p. */
    method NewKey(k: int, p: int)
      requires Valid() == true && !Has(ibtr.Contents(), k) && p !in objs
      modifies this, g.all
      ensures Base() == true && (forall o :: o in g.all ==> o in old(g.all) || fresh(o)) && pairs == old(pairs)
      ensures Persist(old(ibtr.Contents()), old(g), ibtr.Contents(), g) == true
      ensures Entry(k, p) in ibtr.Contents() && p in objs && Bytes(SIZEOF_NBTR) &&
        Filled(g.sets, g.sets.Keys - {p}) == true
      ensures Blank(g, p) == true && nsize == old(nsize) + 22
    {
      assert g.nodes <= g.all;
      ghost var was, s := g, ibtr.Contents();
      OuterKeyed(ibtr, g);
      var o, v; ghost var r;
      o, v, r := CreateKey(ibtr, Entry(k, p), g);
      GainMeans(s, Entry(k, p), was, r, o, v);
      SetLayout(objs[p := o], nsize + (v - SIZEOF_NBTR), r);
    }

    /** btIndFind: the address of the holder of k. */
    method FindKey(k: int) returns (r: Option<int>)
      requires Valid() == true
      ensures Valid() == true && pairs == old(pairs) && (r.Some? <==> Has(ibtr.Contents(), k))
      ensures r.Some? ==> Entry(k, r.value) in ibtr.Contents() && r.value in objs
    {
      OuterEntries(ibtr, g);
      assert allocated(g.all) && State(g, ibtr) == true;
      r := ibtr.Find(k);
    }

    /** Puts (k, d) where k has its holder at p, of which x bytes are not counted yet. */
    method AddAt(k: int, p: int, d: int, x: int) returns (found: bool, ghost diff: int)
      requires Base() == true && Entry(k, p) in ibtr.Contents() && p in objs && Bytes(x) &&
        Filled(g.sets, g.sets.Keys - {p}) == true
      modifies this, g.all
      ensures Valid() == true && (forall o :: o in g.all ==> o in old(g.all) || fresh(o)) &&
        pairs == old(pairs) + {(k, d)} && (found <==> (k, d) in old(pairs))
      ensures Persist(old(ibtr.Contents()), old(g), ibtr.Contents(), g) == true
      ensures Charged(old(g), g, p, d, diff) == true && ibtr.Contents() == old(ibtr.Contents())
      ensures nsize == old(nsize) + diff + x
    {
      ghost var was := g;
      ghost var s := ibtr.Contents();
      OuterKeyed(ibtr, g);
      found, diff := AddTo(p, d, x);
      AddMeans(s, Entry(k, p), was, g, d, diff);
    }

    method AddNew(k: int, p: int, d: int) returns (found: bool, ghost cost: int)
      requires Valid() == true && !Has(ibtr.Contents(), k) && p !in objs
      modifies this, g.all
      ensures Valid() == true && (forall o :: o in g.all ==> o in old(g.all) || fresh(o)) &&
        pairs == old(pairs) + {(k, d)} && (found <==> (k, d) in old(pairs))
      ensures Persist(old(ibtr.Contents()), old(g), ibtr.Contents(), g) == true
      ensures Entry(k, p) in ibtr.Contents() && Billed(None, Some(p), old(g), g, d, p, cost) == true
      ensures nsize == old(nsize) + cost
    {
      ghost var s0, g0 := ibtr.Contents(), g;
      NewKey(k, p);
      ghost var s1, g1 := ibtr.Contents(), g;
      ghost var diff;
      found, diff := AddAt(k, p, d, SIZEOF_NBTR);
      BilledNew(g0, g1, g, d, p, diff);
      cost := 31;
      PersistTwice(s0, g0, s1, g1, ibtr.Contents(), g);
    }

    method AddOld(k: int, p: int, d: int) returns (found: bool, ghost cost: int)
      requires Valid() == true && Entry(k, p) in ibtr.Contents() && p in objs
      modifies this, g.all
      ensures Valid() == true && (forall o :: o in g.all ==> o in old(g.all) || fresh(o)) &&
        pairs == old(pairs) + {(k, d)} && (found <==> (k, d) in old(pairs))
      ensures Persist(old(ibtr.Contents()), old(g), ibtr.Contents(), g) == true
      ensures Charged(old(g), g, p, d, cost) == true && ibtr.Contents() == old(ibtr.Contents())
      ensures nsize == old(nsize) + cost
    {
      found, cost := AddAt(k, p, d, 0);
    }

    /** reduced_iAdd: puts (k, d); p is the address a new holder would get. */
    method Add(k: int, d: int, p: int) returns (code: Code, ghost cost: int)
      requires Valid() == true && p !in objs
      modifies this, g.all
      ensures Valid() == true && (forall o :: o in g.all ==> o in old(g.all) || fresh(o)) &&
        pairs == old(pairs) + {(k, d)}
      ensures code == if (k, d) in old(pairs) then KeyFound else Ok
      ensures Persist(old(ibtr.Contents()), old(g), ibtr.Contents(), g) == true
      ensures Billed(Where(old(ibtr.Contents()), k), Where(ibtr.Contents(), k), old(g), g, d, p, cost) == true
      ensures nsize == old(nsize) + cost
    {
      Whereabouts(k);
      var r := FindKey(k);
      var found;
      if r.Some? {
        found, cost := AddOld(k, r.value, d);
      } else {
        found, cost := AddNew(k, p, d);
      }
      Whereabouts(k);
      code := if found then KeyFound else Ok;
    }

    lemma Whereabouts(k: int)
      requires Valid() == true
      ensures Where(ibtr.Contents(), k).Some? <==> Has(ibtr.Contents(), k)
      ensures forall p :: Entry(k, p) in ibtr.Contents() ==> Where(ibtr.Contents(), k) == Some(p)
    {
      OuterEntries(ibtr, g);
      WhereIs(ibtr.Contents(), k);
    }

    /** Takes d from the holder at p. */
    method TakeTo(p: int, d: int) returns (notfound: bool, empty: bool, ghost diff: int)
      requires Base() == true && p in objs
      modifies this, g.all
      ensures Base() == true && g.all == old(g.all) && ibtr.Contents() == old(ibtr.Contents()) &&
        nsize == old(nsize) + diff
      ensures p in old(g).sets && p in g.sets && (notfound <==> d !in old(g).sets[p]) && (empty <==> g.sets[p] == {})
      ensures Became(old(g), g, p, old(g).sets[p] - {d}, diff) == true && pairs == PairsOf(ibtr.Contents(), g.sets)
    {
      var less; ghost var r;
      notfound, less, empty, r := TakeOne(objs[p], p, d, ibtr, g);
      SetLayout(objs, nsize + less, r);
      diff := less;
    }

    /** Takes d from the holder at p of key k. */
    method TakeKey(k: int, p: int, d: int) returns (notfound: bool, empty: bool)
      requires Valid() == true && Entry(k, p) in ibtr.Contents() && p in objs
      modifies this, g.all
      ensures Base() == true && Bytes(0) && g.all == old(g.all) && Entry(k, p) in ibtr.Contents()
      ensures pairs == old(pairs) - {(k, d)} && (notfound <==> (k, d) !in old(pairs))
      ensures p in g.sets && (empty <==> g.sets[p] == {}) && Filled(g.sets, g.sets.Keys - {p}) == true
      ensures !empty ==> Filled(g.sets, g.sets.Keys) == true
    {
      ghost var was, s := g, ibtr.Contents();
      OuterKeyed(ibtr, g);
      ghost var diff;
      notfound, empty, diff := TakeTo(p, d);
      TakeMeans(s, Entry(k, p), was, g, d, diff);
    }

    /** Gives up key k, whose holder at p is empty. */
    method Drop(k: int, p: int)
      requires Base() == true && Bytes(0) && Entry(k, p) in ibtr.Contents()
      requires p in g.sets && g.sets[p] == {} && Filled(g.sets, g.sets.Keys - {p}) == true
      modifies this, g.all
      ensures Valid() == true && g.all == old(g.all) && pairs == old(pairs)
    {
      ghost var was, s := g, ibtr.Contents();
      OuterKeyed(ibtr, g);
      assert p in objs && Holder(objs[p], g.foot[p], g.sets[p], g.weights[p], g.kinds[p]) && g.nodes <= g.all;
      DropMeans(s, Entry(k, p), g);
      var w := objs[p].Weight();
      ghost var r := DropKey(ibtr, Entry(k, p), g);
      SetLayout(objs - {p}, nsize - w, r);
    }

    /** reduced_iRem: deletes (k, d). */
    method Rem(k: int, d: int) returns (code: Code)
      requires Valid() == true
      modifies this, g.all
      ensures Valid() == true && g.all == old(g.all) && pairs == old(pairs) - {(k, d)}
      ensures code == if (k, d) in old(pairs) then Ok else KeyNotFound
    {
      var r := FindKey(k);
      if r.None? {
        PairKeys(ibtr.Contents(), g.sets);
        return KeyNotFound;
      }
      var notfound, empty := TakeKey(k, r.value, d);
      if empty {
        Drop(k, r.value);
      }
      code := if notfound then KeyNotFound else Ok;
    }
  }
}
