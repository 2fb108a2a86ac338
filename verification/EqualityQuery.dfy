/**
  Batched equality queries (get_recl in ai/src/ai_btree.c). Unlike a range query, one that has returned a
  whole array and is continued after a put turned the array into a tree starts over in the tree.
 */
module EqualityQuery {
  import opened Nested
  import opened Query

  /** get_recl on the holder of the key; a key without holder is like an empty array. */
  function EqBatch(c: Qctx, y: Cell, q: seq<bool>, bsize: nat): (r: Qctx) {
    if y.tree then FromCell(c, y, c.newIbtr, q, bsize)
    else if c.nbtrDone then c
    else FromCell(c, y, c.newIbtr, q, bsize)
  }

  /** The pairs returned by successive batches, of sizes ns, on the successive states ys of the holder. */
  ghost function EqOut(c: Qctx, ys: seq<Cell>, q: seq<bool>, ns: seq<nat>): (out: seq<Rec>)
    requires |ns| == |ys|
    decreases ys
  {
    if ys == [] then [] else
      var r := EqBatch(c, ys[0], q, ns[0]);
      r.recl + if |r.recl| < ns[0] then [] else EqOut(Next(r), ys[1..], q, ns[1..])
  }

  ghost predicate EqEnds(c: Qctx, ys: seq<Cell>, q: seq<bool>, ns: seq<nat>)
    requires |ns| == |ys|
    decreases ys
  {
    ys != [] &&
      var r := EqBatch(c, ys[0], q, ns[0]);
      |r.recl| < ns[0] || EqEnds(Next(r), ys[1..], q, ns[1..])
  }

  ghost function EqRan(c: Qctx, ys: seq<Cell>, q: seq<bool>, ns: seq<nat>): (n: nat)
    requires |ns| == |ys|
    ensures n <= |ys| && (ys != [] ==> n > 0)
    decreases ys
  {
    if ys == [] then 0 else
      var r := EqBatch(c, ys[0], q, ns[0]);
      1 + if |r.recl| < ns[0] then 0 else EqRan(Next(r), ys[1..], q, ns[1..])
  }

  ghost function Views(ys: seq<Cell>): (vs: seq<seq<Cell>>) {
    seq(|ys|, i requires 0 <= i < |ys| => [ys[i]])
  }

  /** The successive states of the holder of key k, with puts in between. */
  ghost predicate Holders(ys: seq<Cell>, k: int) {
    Chain(Views(ys)) && forall i :: 0 <= i < |ys| ==> ys[i].key == k
  }

  lemma OnlyKey(y: Cell, k: int)
    requires y.key == k
    ensures InKeys([y], k, k) == [y]
  {
    assert InKeys([y][1..], k, k) == [];
  }

  /** In a tree an equality query is a range query over one key, whatever nbtrDone says. */
  lemma EqIsRange(c: Qctx, y: Cell, k: int, q: seq<bool>, bsize: nat)
    requires y.key == k && y.tree && (!c.newIbtr ==> c.bkey == k) && c.recl == [] && bsize > 0
    ensures var r, s := EqBatch(c, y, q, bsize), Batch(c.(nbtrDone := false), [y], k, k, q, bsize);
      r.(nbtrDone := false) == s && (|s.recl| >= bsize ==> s.bkey == k)
  {
    OnlyKey(y, k);
    var digs := if c.newIbtr then y.digs else Above(y.digs, c.bdig);
    IgnoreDone(c, k, digs, q, bsize);
    var a := c.(nbtrDone := false);
    var m := FromTreeIsSel(a, k, digs, q, bsize);
    assert FromCell(a, y, c.newIbtr, q, bsize) == FromTree(a, k, digs, q, bsize);
    var v := [y];
    assert v[1..] == [] && v[0] == y;
    var f := FromTree(a, k, digs, q, bsize);
    assert Walk(f.(nbtrDone := false), v[1..], true, k, q, bsize) == f;
  }

  lemma {:induction false} IgnoreDone(c: Qctx, k: int, digs: seq<int>, q: seq<bool>, bsize: nat)
    ensures FromTree(c.(nbtrDone := false), k, digs, q, bsize) == FromTree(c, k, digs, q, bsize).(nbtrDone := false)
    decreases digs
  {
    if digs != [] {
      IgnoreDone(AddRec(c, k, digs[0], q), k, digs[1..], q, bsize);
    }
  }

  lemma {:induction false} EqRunIsRange(c: Qctx, ys: seq<Cell>, k: int, q: seq<bool>, ns: seq<nat>)
    requires Holders(ys, k) && (forall i :: 0 <= i < |ys| ==> ys[i].tree) && (!c.newIbtr ==> c.bkey == k)
    requires c.recl == [] && Sizes(ns, |ys|)
    ensures var a, vs := c.(nbtrDone := false), Views(ys);
      && EqOut(c, ys, q, ns) == RunOut(a, vs, k, k, q, ns) && EqEnds(c, ys, q, ns) == Ends(a, vs, k, k, q, ns)
      && EqRan(c, ys, q, ns) == Ran(a, vs, k, k, q, ns)
    decreases ys
  {
    if ys != [] {
      EqIsRange(c, ys[0], k, q, ns[0]);
      assert Views(ys)[0] == [ys[0]] && Views(ys)[1..] == Views(ys[1..]);
      var r := EqBatch(c, ys[0], q, ns[0]);
      if |r.recl| >= ns[0] {
        TailChain(Views(ys));
        EqRunIsRange(Next(r), ys[1..], k, q, ns[1..]);
      }
    }
  }

  /** Once in a tree, always in a tree. */
  lemma {:induction false} StaysTree(ys: seq<Cell>, k: int, i: nat)
    requires Holders(ys, k) && i < |ys| && ys[0].tree
    ensures ys[i].tree
  {
    if i > 0 {
      StaysTree(ys, k, i - 1);
      assert Grows(Views(ys)[i - 1], Views(ys)[i]);
      assert ys[i - 1] in Views(ys)[i - 1];
    }
  }

  /** The pairs are all in the last state that a batch saw. */
  ghost predicate EqWithin(c: Qctx, ys: seq<Cell>, q: seq<bool>, ns: seq<nat>)
    requires |ns| == |ys| > 0
  {
    Within(EqOut(c, ys, q, ns), [ys[EqRan(c, ys, q, ns) - 1]], q)
  }

  /** A query that begins in a tree. */
  lemma TreeExactlyOnce(c: Qctx, ys: seq<Cell>, k: int, q: seq<bool>, ns: seq<nat>)
    requires Holders(ys, k) && ys != [] && ys[0].tree && (!c.newIbtr ==> c.bkey == k) && c.recl == [] && Sizes(ns, |ys|)
    ensures var a := c.(nbtrDone := false);
      && Fresh(EqOut(c, ys, q, ns), a, k, k, q) == true && EqWithin(c, ys, q, ns) == true
      && (EqEnds(c, ys, q, ns) ==> Covers(EqOut(c, ys, q, ns), a, [ys[0]], k, k, q) == true)
  {
    forall i | 0 <= i < |ys| ensures ys[i].tree {
      StaysTree(ys, k, i);
    }
    EqRunIsRange(c, ys, k, q, ns);
    assert Views(ys)[0] == [ys[0]] && [ys[0]][0] == ys[0];
    ExactlyOnce(c.(nbtrDone := false), Views(ys), k, k, q, ns);
    assert Views(ys)[EqRan(c, ys, q, ns) - 1] == [ys[EqRan(c, ys, q, ns) - 1]];
  }

  /** The digests of y that can be queried. */
  ghost predicate Open(y: Cell, d: int, q: seq<bool>) {
    d in y.digs && Queryable(q, d)
  }

  /** The first batch filled up from an array that the next batch finds turned into a tree. */
  ghost predicate Restarts(ys: seq<Cell>, q: seq<bool>, bsize: nat) {
    |ys| > 1 && !ys[0].tree && ys[1].tree && |Sel(ys[0].key, ys[0].digs, q)| >= bsize
  }

  /** A digest of the array lies above the one the context held before the query. */
  ghost predicate HasHigher(y: Cell, c: Qctx, q: seq<bool>) {
    exists d :: Open(y, d, q) && d > c.bdig
  }

  /**
    A finished equality query, with batches of whatever sizes, has returned every queryable pair that was
    there when it began, and only pairs that are there. It has returned none twice exactly when it did not
    restart, or when no digest of the array lies above the digest the context held before the query.
   */
  lemma EqualityExactlyOnceIff(c: Qctx, ys: seq<Cell>, k: int, q: seq<bool>, ns: seq<nat>)
    requires Holders(ys, k) && ys != [] && c.newIbtr && !c.nbtrDone && c.recl == [] && Sizes(ns, |ys|)
    requires EqEnds(c, ys, q, ns)
    ensures Covers(EqOut(c, ys, q, ns), c, [ys[0]], k, k, q) && EqWithin(c, ys, q, ns)
    ensures Unique(EqOut(c, ys, q, ns)) <==> !(Restarts(ys, q, ns[0]) && HasHigher(ys[0], c, q))
  {
    if ys[0].tree {
      TreeExactlyOnce(c, ys, k, q, ns);
      assert c.(nbtrDone := false) == c;
    } else {
      FromArray(c, ys, k, q, ns);
    }
  }

  lemma FromArray(c: Qctx, ys: seq<Cell>, k: int, q: seq<bool>, ns: seq<nat>)
    requires Holders(ys, k) && ys != [] && c.newIbtr && !c.nbtrDone && c.recl == [] && Sizes(ns, |ys|)
    requires EqEnds(c, ys, q, ns) && !ys[0].tree
    ensures Covers(EqOut(c, ys, q, ns), c, [ys[0]], k, k, q) && EqWithin(c, ys, q, ns) == true
    ensures Unique(EqOut(c, ys, q, ns)) <==> !(Restarts(ys, q, ns[0]) && HasHigher(ys[0], c, q))
  {
    var y, r := ys[0], EqBatch(c, ys[0], q, ns[0]);
    assert ViewOk(Views(ys)[0]) && Views(ys)[0] == [y] && CellOk([y][0]);
    AllRecsIsSel(c, k, y.digs, q);
    assert [] + Sel(k, y.digs, q) == Sel(k, y.digs, q);
    SelFacts(k, y.digs, q);
    OneCell(y, q);
    assert Within(r.recl, [y], q);
    if |r.recl| < ns[0] {
      assert EqOut(c, ys, q, ns) == r.recl;
    } else {
      AfterFullArray(c, r, ys, k, q, ns);
    }
  }

  lemma AfterFullArray(c: Qctx, r: Qctx, ys: seq<Cell>, k: int, q: seq<bool>, ns: seq<nat>)
    requires Holders(ys, k) && ys != [] && c.newIbtr && !c.nbtrDone && c.recl == [] && Sizes(ns, |ys|)
    requires EqEnds(c, ys, q, ns) && !ys[0].tree && r == EqBatch(c, ys[0], q, ns[0])
    requires r == c.(recl := Sel(k, ys[0].digs, q), nbtrDone := true, bkey := k) && |r.recl| >= ns[0]
    requires Unique(r.recl) && forall x :: x in r.recl <==> x.key == k && Open(ys[0], x.dig, q)
    ensures Covers(EqOut(c, ys, q, ns), c, [ys[0]], k, k, q) && EqWithin(c, ys, q, ns) == true
    ensures Unique(EqOut(c, ys, q, ns)) <==> !(Restarts(ys, q, ns[0]) && HasHigher(ys[0], c, q))
  {
    var zs, n, ms := ys[1..], Next(r), ns[1..];
    OneCell(ys[0], q);
    var rest := EqOut(n, zs, q, ms);
    assert EqOut(c, ys, q, ns) == r.recl + rest;
    if zs[0].tree {
      assert Views(ys)[1..] == Views(zs);
      TailChain(Views(ys));
      TreeExactlyOnce(n, zs, k, q, ms);
      assert Grows(Views(ys)[0], Views(ys)[1]) && Views(ys)[0] == [ys[0]] && Views(ys)[1] == [zs[0]];
      CoversLess(rest, n.(nbtrDone := false), [ys[0]], [zs[0]], k, k, q);
      Twice(r, rest, ys[0], n.(nbtrDone := false), k, q);
    } else {
      assert rest == [];
      assert r.recl + [] == r.recl;
    }
    ArrayWithin(c, r, ys, k, q, ns);
  }

  lemma ArrayWithin(c: Qctx, r: Qctx, ys: seq<Cell>, k: int, q: seq<bool>, ns: seq<nat>)
    requires Holders(ys, k) && |ys| > 1 && c.recl == [] && Sizes(ns, |ys|) && r == EqBatch(c, ys[0], q, ns[0])
    requires |r.recl| >= ns[0] && r.bkey == k && r.nbtrDone
    requires forall x :: x in r.recl ==> x.key == k && Open(ys[0], x.dig, q)
    ensures EqWithin(c, ys, q, ns) == true
  {
    var zs, n, ms, last := ys[1..], Next(r), ns[1..], EqRan(c, ys, q, ns) - 1;
    OneCell(ys[0], q);
    assert Views(ys)[0] == [ys[0]] && Views(ys)[last] == [ys[last]];
    Stays(Views(ys), last, q);
    if zs[0].tree {
      assert Views(ys)[1..] == Views(zs);
      TailChain(Views(ys));
      TreeExactlyOnce(n, zs, k, q, ms);
    } else {
      assert EqOut(n, zs, q, ms) == [];
    }
  }

  /** The array's pairs above the stale digest, and only those, come again. */
  lemma Twice(r: Qctx, rest: seq<Rec>, y: Cell, a: Qctx, k: int, q: seq<bool>)
    requires y.key == k && Unique(r.recl) && forall x :: x in r.recl <==> x.key == k && Open(y, x.dig, q)
    requires Fresh(rest, a, k, k, q) && Covers(rest, a, [y], k, k, q) && !a.newIbtr && !a.nbtrDone && a.bkey == k
    ensures Unique(r.recl + rest) <==> !HasHigher(y, a, q)
  {
    OneCell(y, q);
    if d :| Open(y, d, q) && d > a.bdig {
      var x := Rec(k, d);
      assert x in r.recl && x in rest;
      var i :| 0 <= i < |r.recl| && r.recl[i] == x;
      var j :| 0 <= j < |rest| && rest[j] == x;
      var s := r.recl + rest;
      assert s[i] == s[|r.recl| + j];
    } else {
      UniqueConcat(r.recl, rest);
    }
  }

  function UpTo(n: nat): (s: seq<int>)
    ensures |s| == n && forall i :: 0 <= i < n ==> s[i] == i + 1
  {
    seq(n, i => i + 1)
  }

  /** A full array of 32 digests, turned into a tree by the put of a 33rd. */
  ghost function Flip(n: nat): (ys: seq<Cell>) {
    [Cell(7, false, UpTo(32))] + seq(n, i => Cell(7, true, UpTo(33)))
  }

  lemma FlipHolders(n: nat)
    ensures Holders(Flip(n), 7)
  {
    var ys := Flip(n);
    var vs := Views(ys);
    assert forall d :: d in Elems(UpTo(32)) ==> d in UpTo(33) by {
      forall d | d in Elems(UpTo(32)) ensures d in UpTo(33) {
        assert UpTo(33)[d - 1] == d;
      }
    }
    forall i | 0 < i < |vs| ensures Grows(vs[i - 1], vs[i]) {
      assert ys[i] in vs[i] && vs[i - 1] == [ys[i - 1]];
    }
  }

  /** Enough batches after the put for the query to end. */
  ghost function Rounds(): (n: nat) {
    |Recs([Cell(7, true, UpTo(33))])| + 1
  }

  /** Batches of 32. */
  ghost function Even(n: nat): (ns: seq<nat>)
    ensures Sizes(ns, n)
  {
    seq(n, i => 32)
  }

  /** An equality query that returns a whole array a second time. */
  lemma EqualityRepeats(q: seq<bool>)
    requires forall d :: Queryable(q, d)
    ensures var c, ys, ns := Qctx(true, 0, 0, false, []), Flip(Rounds()), Even(Rounds() + 1);
      && Holders(ys, 7) && Elems(ys[1].digs) == Elems(ys[0].digs) + {33} && |ns| == |ys|
      && EqEnds(c, ys, q, ns) && !Unique(EqOut(c, ys, q, ns))
  {
    var n := Rounds();
    FlipHolders(n);
    OneMoreDigest(32);
    SelAll(7, UpTo(32), q);
    Repeats(Qctx(true, 0, 0, false, []), Flip(n), Cell(7, true, UpTo(33)), 7, UpTo(32)[0], q, Even(n + 1));
  }

  lemma OneMoreDigest(n: nat)
    ensures Elems(UpTo(n + 1)) == Elems(UpTo(n)) + {n + 1}
  {
    assert UpTo(n + 1) == UpTo(n) + [n + 1];
  }

  /** A digest of the array above the stale one makes the query repeat itself. */
  lemma Repeats(c: Qctx, ys: seq<Cell>, z: Cell, k: int, d: int, q: seq<bool>, ns: seq<nat>)
    requires Holders(ys, k) && |ys| > 1 + |Recs([z])| && !ys[0].tree && z.tree &&
      (forall i :: 0 < i < |ys| ==> ys[i] == z)
    requires c.newIbtr && !c.nbtrDone && c.recl == [] && Sizes(ns, |ys|) && |Sel(k, ys[0].digs, q)| >= ns[0]
    requires Open(ys[0], d, q) && d > c.bdig
    ensures EqEnds(c, ys, q, ns) && !Unique(EqOut(c, ys, q, ns))
  {
    FlipEnds(c, ys, z, k, q, ns);
    EqualityExactlyOnceIff(c, ys, k, q, ns);
    assert ys[1] == z && ys[0].key == k;
  }

  /** A full batch from an array, and a tree from then on. */
  lemma FlipEnds(c: Qctx, ys: seq<Cell>, z: Cell, k: int, q: seq<bool>, ns: seq<nat>)
    requires Holders(ys, k) && |ys| > 1 + |Recs([z])| && !ys[0].tree && z.tree &&
      (forall i :: 0 < i < |ys| ==> ys[i] == z)
    requires c.newIbtr && !c.nbtrDone && c.recl == [] && Sizes(ns, |ys|) && |Sel(k, ys[0].digs, q)| >= ns[0]
    ensures EqEnds(c, ys, q, ns)
  {
    var r, zs := EqBatch(c, ys[0], q, ns[0]), ys[1..];
    AllRecsIsSel(c, k, ys[0].digs, q);
    assert [] + Sel(k, ys[0].digs, q) == Sel(k, ys[0].digs, q);
    assert Views(ys)[1..] == Views(zs);
    TailChain(Views(ys));
    TreeEnds(Next(r), zs, z, k, q, ns[1..]);
  }

  /** On a tree that stays as it is the query ends. */
  lemma TreeEnds(c: Qctx, zs: seq<Cell>, z: Cell, k: int, q: seq<bool>, ns: seq<nat>)
    requires Holders(zs, k) && (forall i :: 0 <= i < |zs| ==> zs[i] == z) && z.tree && |zs| > |Recs([z])|
    requires !c.newIbtr && c.bkey == k && c.recl == [] && Sizes(ns, |zs|)
    ensures EqEnds(c, zs, q, ns)
  {
    assert zs[0] == z && [z][0] == z;
    assert forall i :: 0 <= i < |zs| ==> Views(zs)[i] == [z];
    EqRunIsRange(c, zs, k, q, ns);
    QueryEnds(c.(nbtrDone := false), Views(zs), k, k, q, ns);
  }

  lemma {:induction false} SelAll(k: int, digs: seq<int>, q: seq<bool>)
    requires forall d :: Queryable(q, d)
    ensures |Sel(k, digs, q)| == |digs|
  {
    if digs != [] {
      SelAll(k, digs[1..], q);
    }
  }
}
