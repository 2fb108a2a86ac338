/**
  What a key costs as its digests are put one by one (ai/src/ai_btree.c): while the digests are in an
  array, the array has as many slots as the least power of two that is enough.
 */
module Growth {
  import opened Entries
  import opened Wrappers
  import BtreeSpec
  import opened BtreeBytes
  import opened Nested
  import opened Sindex
  import opened IndexQuery

  ghost predicate PowerOfTwo(p: int) {
    p == 1 || (p > 1 && p % 2 == 0 && PowerOfTwo(p / 2))
  }

  /** p is the least power of two that is not below n. */
  ghost predicate Enough(n: int, p: int) {
    PowerOfTwo(p) && n <= p && forall q :: PowerOfTwo(q) && n <= q ==> p <= q
  }

  lemma {:induction false} Gap(p: int, q: int)
    requires PowerOfTwo(p) && PowerOfTwo(q) && p < q
    ensures 2 * p <= q
    decreases q
  {
    if p > 1 {
      Gap(p / 2, q / 2);
    }
  }

  /** The slots after one more digest: twice as many if all were used. */
  function Grown(n: int, p: int): int {
    if n == p then 2 * p else p
  }

  lemma EnoughMore(n: int, p: int)
    requires Enough(n, p)
    ensures Enough(n + 1, Grown(n, p))
  {
    forall q | PowerOfTwo(q) && n + 1 <= q ensures Grown(n, p) <= q {
      if n == p {
        Gap(p, q);
      }
    }
    assert PowerOfTwo(2 * p / 2);
  }

  lemma EnoughOne()
    ensures Enough(0, 1) && Enough(1, 1)
  {
  }

  /** A new holder into which the digests ds are put. */
  method FillHolder(ds: seq<int>) returns (n: Nbtr, ghost p: int)
    requires NoDup(ds) && |ds| <= 32
    ensures n.Valid() && n.Digests() == Elems(ds) && n.nbtr == null && n.arr.data == ds
    ensures Enough(|ds|, p) && n.Weight() == 11 + 20 * p
  {
    n := new Nbtr();
    EnoughOne();
    for i := 0 to |ds|
      invariant n.Valid() && fresh(n.Repr) && n.nbtr == null && n.arr.data == ds[..i] && Enough(i, n.arr.capacity)
    {
      EnoughMore(i, n.arr.capacity);
      var _ := n.CheckConvert();
      var _, _ := n.Put(ds[i]);
    }
    p := n.arr.capacity;
  }

  /** A holder whose digests are in a tree weighs what the tree's nodes in memory say. */
  lemma TreeWeight(n: Nbtr)
    requires n.Valid() && n.nbtr != null
    ensures n.Weight() == 81 + 368 * |Which(BtreeSpec.Own(n.nbtr.tree),
      true)| + 520 * |Which(BtreeSpec.Own(n.nbtr.tree), false)|
  {
    MsizeByNodes(n.nbtr);
  }

  /** The holder at a is an array with the digests s, of which it has as many slots as are enough. */
  ghost predicate Tight(g: Layout, a: int, s: set<int>, p: int) {
    && a in g.sets && a in g.weights && a in g.kinds && !g.kinds[a] && g.sets[a] == s
    && g.weights[a] == 11 + 20 * p && Enough(|s|, p)
  }

  lemma TightNew(g: Layout, a: int, d: int)
    requires Sole(g, a, d)
    ensures Tight(g, a, {d}, 1)
  {
    EnoughOne();
  }

  lemma TightMore(g: Layout, r: Layout, a: int, s: set<int>, p: int, d: int, diff: int)
    requires Tight(g, a, s, p) && Charged(g, r, a, d, diff) && d !in s && |s| < 32
    ensures Tight(r, a, s + {d}, Grown(|s|, p)) && diff == 20 * (Grown(|s|, p) - p)
  {
    EnoughMore(|s|, p);
  }

  /** A key whose holder is at `at` has the digests s, in an array, and size is base and what that costs. */
  ghost predicate Paid(at: Option<int>, g: Layout, size: int, s: set<int>, p: int, base: int) {
    if s == {} then at == None && size == base else at.Some? && Tight(g, at.value, s, p) && size == base + 11 + 20 * p
  }

  /** One more digest, where there are fewer than fit into an array. */
  lemma PaidMore(at: Option<int>, now: Option<int>, g: Layout, r: Layout, d: int, a: int, diff: int, was: int,
                 size: int, s: set<int>, p: int, base: int) returns (q: int)
    requires Paid(at, g, was, s, p, base) == true && d !in s && |s| < 32
    requires Billed(at, now, g, r, d, a, diff) == true && size == was + diff
    ensures Paid(now, r, size, s + {d}, q, base) == true
  {
    assert d in s + {d};
    if s == {} {
      TightNew(r, now.value, d);
      assert s + {d} == {d};
      q := 1;
    } else {
      TightMore(g, r, at.value, s, p, d, diff);
      q := Grown(|s|, p);
    }
  }

  method PutMore(idx: Index, k: int, d: int, ghost s: set<int>, ghost p: int, ghost base: int) returns (ghost q: int)
    requires idx.Valid() == true && Paid(Where(idx.ibtr.Contents(), k), idx.g, idx.nsize, s, p, base) == true
    requires d !in s && |s| < 32
    modifies idx, idx.g.all
    ensures idx.Valid() == true && (forall o :: o in idx.g.all ==> o in old(idx.g.all) || fresh(o))
    ensures Paid(Where(idx.ibtr.Contents(), k), idx.g, idx.nsize, s + {d}, q, base) == true
    ensures idx.pairs == old(idx.pairs) + {(k, d)}
  {
    assert allocated(idx.g.all);
    ghost var at, g, was := Where(idx.ibtr.Contents(), k), idx.g, idx.nsize;
    var a := Address(idx);
    var _, cost := idx.Add(k, d, a);
    q := PaidMore(at, Where(idx.ibtr.Contents(), k), g, idx.g, d, a, cost, was, idx.nsize, s, p, base);
  }

  lemma NoHolder(idx: Index, k: int)
    requires idx.Valid() == true && forall d :: (k, d) !in idx.pairs
    ensures Where(idx.ibtr.Contents(), k) == None
  {
    idx.Whereabouts(k);
    OuterKeyed(idx.ibtr, idx.g);
    NoPairs(idx.ibtr.Contents(), idx.g, k);
  }

  lemma NoPairs(s: seq<Entry>, g: Layout, k: int)
    requires Keyed(s, g) && Filled(g.sets, g.sets.Keys) && forall d :: (k, d) !in PairsOf(s, g.sets)
    ensures !Has(s, k)
  {
    if Has(s, k) {
      var i :| 0 <= i < |s| && s[i].key == k;
      Alone(s, i, g.sets.Keys);
      PairsAt(s, i, g.sets);
      var t := g.sets[s[i].val];
      forall d ensures d !in t {
        assert (k, d) !in PairsOf(s, g.sets);
      }
    }
  }

  /** An index without pairs has no key and holds no bytes outside its outer tree. */
  lemma NothingLeft(idx: Index)
    requires idx.Valid() == true && idx.pairs == {}
    ensures idx.ibtr.Contents() == [] && idx.nsize == 0
  {
    OuterKeyed(idx.ibtr, idx.g);
    var s := idx.ibtr.Contents();
    if s != [] {
      NoPairs(s, idx.g, s[0].key);
    }
  }

  ghost function Under(k: int, s: set<int>): set<(int, int)> {
    set d | d in s :: (k, d)
  }

  lemma UnderMore(was: set<(int, int)>, k: int, s: set<int>, d: int)
    ensures was + Under(k, s + {d}) == was + Under(k, s) + {(k, d)}
  {
  }

  lemma UnderNone(was: set<(int, int)>, k: int)
    ensures was + Under(k, {}) == was
  {
  }

  /** The digests s are the first i of ds. */
  ghost predicate First(ds: seq<int>, i: int, s: set<int>) {
    0 <= i <= |ds| && s == Elems(ds[..i]) && |s| == i
  }

  lemma FirstMore(ds: seq<int>, i: nat, s: set<int>)
    requires NoDup(ds) && i < |ds| && First(ds, i, s) == true
    ensures ds[i] !in s && First(ds, i + 1, s + {ds[i]}) == true && |s| == i
  {
    ElemsPrefix(ds, i);
  }

  lemma FirstAll(ds: seq<int>, s: set<int>)
    requires First(ds, |ds|, s) == true
    ensures s == Elems(ds) && |s| == |ds|
  {
    assert ds[..|ds|] == ds;
  }

  /**
    Puts different digests under a key that has none: the index then holds 11 + 20 * p more bytes outside
    its outer tree, where p is the least power of two that is not below their number.
   */
  method FillKey(idx: Index, k: int, ds: seq<int>) returns (ghost p: int)
    requires idx.Valid() == true && NoDup(ds) && |ds| <= 32 && forall d :: (k, d) !in idx.pairs
    modifies idx, idx.g.all
    ensures idx.Valid() == true && idx.pairs == old(idx.pairs) + Under(k, Elems(ds))
    ensures if ds == [] then idx.nsize == old(idx.nsize)
            else Enough(|ds|, p) && idx.nsize == old(idx.nsize) + 11 + 20 * p
  {
    NoHolder(idx, k);
    ghost var s, base, was := {}, idx.nsize, idx.pairs;
    UnderNone(was, k);
    p := 1;
    for i := 0 to |ds|
      invariant idx.Valid() == true && (forall o :: o in idx.g.all ==> o in old(idx.g.all) || fresh(o))
      invariant First(ds, i, s) == true && idx.pairs == was + Under(k, s)
      invariant Paid(Where(idx.ibtr.Contents(), k), idx.g, idx.nsize, s, p, base) == true
    {
      FirstMore(ds, i, s);
      UnderMore(was, k, s, ds[i]);
      p := PutMore(idx, k, ds[i], s, p, base);
      s := s + {ds[i]};
    }
    FirstAll(ds, s);
  }

  /** The same for a new index, which then holds nothing else. */
  method FillIndex(n: nat, ksize: nat, k: int, ds: seq<int>) returns (idx: Index, ghost p: int)
    requires 3 <= n < 511 && NoDup(ds) && |ds| <= 32
    ensures idx.Valid() == true && idx.pairs == Under(k, Elems(ds))
    ensures if ds == [] then idx.nsize == 0 else Enough(|ds|, p) && idx.nsize == 11 + 20 * p
  {
    idx := new Index(n, ksize);
    p := FillKey(idx, k, ds);
  }
}
