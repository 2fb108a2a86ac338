/** How deep a B-tree of a given number of keys can be, and why the iterator's slot pool suffices. */
module BtreeDepth {
  import opened Entries
  import opened BtreeSpec

  /** The slots an iterator has, one for each level it visits. */
  const MAX_BTREE_DEPTH := 16

  ghost function Power(t: nat, n: nat): (r: nat) {
    if n == 0 then 1 else t * Power(t, n - 1)
  }

  /** Kids that each hold at least m entries hold at least m times their number together. */
  lemma {:induction false} ScionsAtLeast(cs: seq<Tree>, m: nat)
    requires forall i :: 0 <= i < |cs| ==> cs[i].scion >= m
    ensures Scions(cs) >= |cs| * m
  {
    if cs != [] {
      ScionsAtLeast(cs[1..], m);
      assert |cs| * m == m + (|cs| - 1) * m;
    }
  }

  lemma MulMono(a: nat, b: nat, m: nat)
    requires a <= b
    ensures a * m <= b * m
  {
  }

  /** A non-root node with leaves h levels below it counts at least t^(h+1) - 1 entries. */
  lemma {:induction false} KidCount(tr: Tree, t: nat, h: nat)
    requires t >= 1 && Kid(tr, t, h)
    ensures tr.scion >= Power(t, h + 1) - 1
    decreases h
  {
    if h == 0 {
      assert Power(t, 1) == t * Power(t, 0) == t;
    } else {
      var p := Power(t, h);
      PowerPositive(t, h);
      forall i | 0 <= i < |tr.kids| ensures tr.kids[i].scion >= p - 1 {
        KidCount(tr.kids[i], t, h - 1);
      }
      ScionsAtLeast(tr.kids, p - 1);
      MulMono(t, |tr.kids|, p - 1);
      assert t * (p - 1) == t * p - t;
    }
  }

  lemma {:induction false} PowerPositive(t: nat, n: nat)
    requires t >= 1
    ensures Power(t, n) >= 1
  {
    if n > 0 {
      PowerPositive(t, n - 1);
    }
  }

  /** A tree of h+1 levels whose root holds a key has at least 2 t^h - 1 entries. */
  lemma MinimalCount(tr: Tree, t: nat, h: nat)
    requires t >= 1 && WF(tr, t, h) && tr.keys != []
    ensures |Flat(tr)| >= 2 * Power(t, h) - 1
  {
    ScionIsCount(tr, t, h);
    if h > 0 {
      var p := Power(t, h);
      PowerPositive(t, h);
      forall i | 0 <= i < |tr.kids| ensures tr.kids[i].scion >= p - 1 {
        assert Kid(tr.kids[i], t, h - 1);
        KidCount(tr.kids[i], t, h - 1);
      }
      ScionsAtLeast(tr.kids, p - 1);
      MulMono(2, |tr.kids|, p - 1);
    }
  }

  lemma {:induction false} PowerMono(a: nat, t: nat, m: nat, n: nat)
    requires 1 <= a <= t && m <= n
    ensures Power(a, m) <= Power(t, n)
    decreases n
  {
    PowerPositive(t, n);
    if m > 0 {
      PowerMono(a, t, m - 1, n - 1);
      MulMono(a, t, Power(a, m - 1));
      MulMono(Power(a, m - 1), Power(t, n - 1), t);
    }
  }

  lemma NineToTheTenth()
    ensures Power(9, 10) == 3486784401
  {
    assert Power(9, 5) == 59049;
    assert Power(9, 8) == 9 * (9 * (9 * Power(9, 5)));
  }

  /** With nodes of at least 17 slots and a 32-bit key count no leaf is deeper than 9. */
  lemma DepthBound(tr: Tree, t: nat, h: nat)
    requires t >= 9 && WF(tr, t, h) && (h > 0 ==> tr.keys != []) && |Flat(tr)| < 0x1_0000_0000
    ensures h + 1 <= 10 < MAX_BTREE_DEPTH
  {
    if h >= 10 {
      MinimalCount(tr, t, h);
      PowerMono(9, t, 10, h);
      NineToTheTenth();
    }
  }
}
