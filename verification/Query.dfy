/**
  Batched range queries (ai/src/ai_btree.c): each batch walks the keys in range from where the last one
  stopped, and puts may happen between batches.
 */
module Query {
  import opened Nested
  import Digest

  /** One key with its digests: in order when they are in a tree, in any order when in an array. */
  datatype Cell = Cell(key: int, tree: bool, digs: seq<int>)

  /** A pair that a query returns. */
  datatype Rec = Rec(key: int, dig: int)

  /**
    as_sindex_qctx. `recl` is the list of pairs returned by the batch (n_bdigs is its length);
    `bkey`, `bdig` and `nbtrDone` say where it stopped.
   */
  datatype Qctx = Qctx(newIbtr: bool, bkey: int, bdig: int, nbtrDone: bool, recl: seq<Rec>)

  ghost predicate Rising(s: seq<int>) {
    forall i, j :: 0 <= i < j < |s| ==> s[i] < s[j]
  }

  ghost predicate CellOk(c: Cell) {
    NoDup(c.digs) && if c.tree then Rising(c.digs) else |c.digs| <= AI_ARR_MAX_USED
  }

  ghost predicate ViewOk(v: seq<Cell>) {
    (forall i :: 0 <= i < |v| ==> CellOk(v[i])) && forall i, j :: 0 <= i < j < |v| ==> v[i].key < v[j].key
  }

  // ---------------------------------------------------------------- one batch

  const AS_PARTITIONS := 4096

  /** Whether the partition of a digest, its low 12 bits, is one of those that can be queried. */
  predicate Queryable(q: seq<bool>, d: int) {
    d % AS_PARTITIONS < |q| && q[d % AS_PARTITIONS]
  }

  /** as_partition_getid reads the first bytes of a digest, the least significant ones, and keeps 12 bits. */
  lemma PartitionOfDigest(q: seq<bool>, s: seq<int>)
    requires Digest.AllBytes(s) && |s| == Digest.DIGEST_BYTES && |q| == AS_PARTITIONS
    ensures Queryable(q, Digest.Number(s)) <==> q[(s[0] + 256 * s[1]) % 4096]
  {
    var t := s[1..];
    assert Digest.Number(s) == s[0] + 256 * Digest.Number(t) && Digest.Number(t) == s[1] + 256 * Digest.Number(t[1..]);
    LowBits(s[0], s[1], Digest.Number(t[1..]));
  }

  lemma LowBits(a: int, b: int, n: int)
    ensures (a + 256 * (b + 256 * n)) % 4096 == (a + 256 * b) % 4096
  {
    assert a + 256 * (b + 256 * n) == (a + 256 * b) + 4096 * (16 * n);
  }

  /** btree_addsinglerec: appends the pair when its partition can be queried. */
  function AddRec(c: Qctx, k: int, d: int, q: seq<bool>): Qctx {
    if Queryable(q, d) then c.(recl := c.recl + [Rec(k, d)]) else c
  }

  /** The loop of add_recs_from_nbtr over the digests still to visit. */
  function FromTree(c: Qctx, k: int, digs: seq<int>, q: seq<bool>, bsize: nat): (r: Qctx)
    decreases digs
  {
    if digs == [] then c else
      var a := AddRec(c, k, digs[0], q);
      if |a.recl| == bsize then a.(bkey := k, bdig := digs[0]) else FromTree(a, k, digs[1..], q, bsize)
  }

  function AllRecs(c: Qctx, k: int, digs: seq<int>, q: seq<bool>): (r: Qctx)
    decreases digs
  {
    if digs == [] then c else AllRecs(AddRec(c, k, digs[0], q), k, digs[1..], q)
  }

  /** add_recs_from_arr: the whole array, whatever the batch limit. */
  function FromArr(c: Qctx, k: int, digs: seq<int>, q: seq<bool>): (r: Qctx) {
    AllRecs(c, k, digs, q).(nbtrDone := true, bkey := k)
  }

  /** The digests above d. */
  function Above(s: seq<int>, d: int): (r: seq<int>) {
    if s == [] then [] else if s[0] > d then s else Above(s[1..], d)
  }

  function FromCell(c: Qctx, x: Cell, full: bool, q: seq<bool>, bsize: nat): (r: Qctx) {
    if x.tree then FromTree(c, x.key, if full then x.digs else Above(x.digs, c.bdig), q, bsize)
    else FromArr(c, x.key, x.digs, q)
  }

  /** The loop of get_numeric_range_recl over the keys in range. */
  function Walk(c: Qctx, v: seq<Cell>, fullrng: bool, sfk: int, q: seq<bool>, bsize: nat): (r: Qctx)
    decreases v
  {
    if v == [] then c else
      var full := fullrng || v[0].key != sfk;
      if !full && c.nbtrDone then Walk(c.(nbtrDone := false), v[1..], true, sfk, q, bsize) else
        var a := FromCell(c, v[0], full, q, bsize);
        if |a.recl| >= bsize then a else Walk(a.(nbtrDone := false), v[1..], true, sfk, q, bsize)
  }

  function InKeys(v: seq<Cell>, lo: int, hi: int): (r: seq<Cell>) {
    if v == [] then [] else (if lo <= v[0].key <= hi then [v[0]] else []) + InKeys(v[1..], lo, hi)
  }

  /** get_numeric_range_recl. */
  function Batch(c: Qctx, v: seq<Cell>, beg: int, end: int, q: seq<bool>, bsize: nat): (r: Qctx) {
    var sfk := if c.newIbtr then beg else c.bkey;
    Walk(c, InKeys(v, sfk, end), c.newIbtr, sfk, q, bsize)
  }

  // ---------------------------------------------------------------- what has been passed

  /** The pair lies at or before the point where c stopped. */
  ghost predicate Before(c: Qctx, x: Rec) {
    x.key < c.bkey || (x.key == c.bkey && (c.nbtrDone || x.dig <= c.bdig))
  }

  ghost predicate Passed(c: Qctx, x: Rec) {
    !c.newIbtr && Before(c, x)
  }

  /** The pairs of a cell, and of a list of cells, that can be returned. */
  ghost predicate InCell(y: Cell, x: Rec, q: seq<bool>) {
    x.key == y.key && x.dig in y.digs && Queryable(q, x.dig)
  }

  ghost predicate Wanted(v: seq<Cell>, x: Rec, q: seq<bool>) {
    exists i :: 0 <= i < |v| && InCell(v[i], x, q)
  }

  ghost predicate Unique(s: seq<Rec>) {
    forall i, j :: 0 <= i < j < |s| ==> s[i] != s[j]
  }

  lemma UniqueConcat(s: seq<Rec>, t: seq<Rec>)
    requires Unique(s) && Unique(t) && forall x :: x in s ==> x !in t
    ensures Unique(s + t)
  {
    var u := s + t;
    forall i, j | 0 <= i < j < |u| ensures u[i] != u[j] {
      if i < |s| <= j {
        assert s[i] in s && t[j - |s|] in t;
      }
    }
  }

  /** The pairs of key k with the digests that can be queried. */
  ghost function Sel(k: int, digs: seq<int>, q: seq<bool>): (e: seq<Rec>) {
    if digs == [] then [] else (if Queryable(q, digs[0]) then [Rec(k, digs[0])] else []) + Sel(k, digs[1..], q)
  }

  lemma {:induction false} SelFacts(k: int, digs: seq<int>, q: seq<bool>)
    requires NoDup(digs)
    ensures Unique(Sel(k, digs, q)) && |Sel(k, digs, q)| <= |digs|
    ensures forall x :: x in Sel(k, digs, q) <==> x.key == k && x.dig in digs && Queryable(q, x.dig)
  {
    if digs != [] {
      SelFacts(k, digs[1..], q);
      assert digs == [digs[0]] + digs[1..];
      assert digs[0] !in digs[1..];
    }
  }

  lemma {:induction false} AllRecsIsSel(c: Qctx, k: int, digs: seq<int>, q: seq<bool>)
    ensures AllRecs(c, k, digs, q) == c.(recl := c.recl + Sel(k, digs, q))
    decreases digs
  {
    if digs == [] {
      assert c.recl + [] == c.recl;
    } else {
      AllRecsIsSel(AddRec(c, k, digs[0], q), k, digs[1..], q);
      assert c.recl + ([Rec(k, digs[0])] + Sel(k, digs[1..], q)) == c.recl + [Rec(k, digs[0])] + Sel(k, digs[1..], q);
      assert [] + Sel(k, digs[1..], q) == Sel(k, digs[1..], q);
    }
  }

  /** The tree loop returns the queryable digests of a prefix, which is everything unless the batch is full. */
  lemma {:induction false} FromTreeIsSel(c: Qctx, k: int, digs: seq<int>, q: seq<bool>, bsize: nat) returns (m: nat)
    requires |c.recl| < bsize
    ensures m <= |digs|
    ensures var r := FromTree(c, k, digs, q, bsize);
      && r.recl == c.recl + Sel(k, digs[..m], q) && |r.recl| <= bsize
      && (|r.recl| < bsize ==> m == |digs| && r == c.(recl := r.recl))
      && (|r.recl| == bsize ==> m > 0 && r == c.(recl := r.recl, bkey := k, bdig := digs[m - 1]))
    decreases digs
  {
    m := 0;
    if digs == [] {
      assert c.recl + [] == c.recl;
    } else {
      var a := AddRec(c, k, digs[0], q);
      var one := if Queryable(q, digs[0]) then [Rec(k, digs[0])] else [];
      assert a.recl == c.recl + one;
      if |a.recl| == bsize {
        m := 1;
        assert digs[..1] == [digs[0]] && digs[..1][1..] == [] && one + [] == one;
      } else {
        var n := FromTreeIsSel(a, k, digs[1..], q, bsize);
        m := n + 1;
        assert digs[..m][0] == digs[0] && digs[..m][1..] == digs[1..][..n];
        assert c.recl + (one + Sel(k, digs[1..][..n], q)) == c.recl + one + Sel(k, digs[1..][..n], q);
      }
    }
  }

  // ---------------------------------------------------------------- a walk over whole cells

  /**
    What a visit returned beside c's list: pairs of `have`, each once. It returned all of them unless the
    batch is full; a full batch has passed what it returned and returned what it passed.
   */
  ghost predicate Out(r: Qctx, c: Qctx, v: seq<Cell>, e: seq<Rec>, q: seq<bool>, bsize: nat) {
    && r.recl == c.recl + e && Unique(e) && |r.recl| < bsize + AI_ARR_MAX_USED
    && (forall x :: x in e ==> Wanted(v, x, q))
    && (|r.recl| < bsize ==> forall x :: Wanted(v, x, q) ==> x in e)
    && (|r.recl| >= bsize ==>
          && (exists i :: 0 <= i < |v| && v[i].key == r.bkey && (!r.nbtrDone ==> v[i].tree))
          && (forall x :: x in e ==> Before(r, x))
          && (forall x :: Wanted(v, x, q) && Before(r, x) ==> x in e))
  }

  lemma PrefixBelow(s: seq<int>, m: nat)
    requires Rising(s) && 0 < m <= |s|
    ensures forall d :: d in s ==> (d in s[..m] <==> d <= s[m - 1])
  {
    forall d | d in s ensures d in s[..m] <==> d <= s[m - 1] {
      var i :| 0 <= i < |s| && s[i] == d;
      if i < m {
        assert s[..m][i] == d;
      }
    }
  }

  lemma OneCell(y: Cell, q: seq<bool>)
    ensures forall x :: Wanted([y], x, q) <==> InCell(y, x, q)
  {
    forall x ensures Wanted([y], x, q) <==> InCell(y, x, q) {
      if InCell(y, x, q) {
        assert InCell([y][0], x, q);
      }
    }
  }

  lemma TreeStep(c: Qctx, y: Cell, q: seq<bool>, bsize: nat) returns (e: seq<Rec>)
    requires CellOk(y) && |c.recl| < bsize && !c.nbtrDone && y.tree
    ensures Out(FromCell(c, y, true, q, bsize), c, [y], e, q, bsize) == true
  {
    var m := FromTreeIsSel(c, y.key, y.digs, q, bsize);
    var digs := y.digs[..m];
    e := Sel(y.key, digs, q);
    SelFacts(y.key, digs, q);
    OneCell(y, q);
    if m > 0 {
      PrefixBelow(y.digs, m);
    }
    assert m == |y.digs| ==> digs == y.digs;
    assert forall d :: d in digs ==> d in y.digs;
    assert [y][0] == y;
  }

  lemma ArrayStep(c: Qctx, y: Cell, q: seq<bool>, bsize: nat) returns (e: seq<Rec>)
    requires CellOk(y) && |c.recl| < bsize && !c.nbtrDone && !y.tree
    ensures Out(FromCell(c, y, true, q, bsize), c, [y], e, q, bsize) == true
  {
    AllRecsIsSel(c, y.key, y.digs, q);
    e := Sel(y.key, y.digs, q);
    SelFacts(y.key, y.digs, q);
    OneCell(y, q);
    assert [y][0] == y;
  }

  lemma {:induction false} WalkFull(c: Qctx, v: seq<Cell>, sfk: int, q: seq<bool>, bsize: nat) returns (e: seq<Rec>)
    requires ViewOk(v) && |c.recl| < bsize && !c.nbtrDone
    ensures Out(Walk(c, v, true, sfk, q, bsize), c, v, e, q, bsize) == true
    decreases v
  {
    e := [];
    if v == [] {
      assert c.recl + [] == c.recl;
    } else {
      if v[0].tree {
        e := TreeStep(c, v[0], q, bsize);
      } else {
        e := ArrayStep(c, v[0], q, bsize);
      }
      var a := FromCell(c, v[0], true, q, bsize);
      if |a.recl| >= bsize {
        StopHere(a, c, v, e, q, bsize);
      } else {
        var b := a.(nbtrDone := false);
        var e2 := WalkFull(b, v[1..], sfk, q, bsize);
        GoOn(Walk(b, v[1..], true, sfk, q, bsize), a, b, c, v, e, e2, q, bsize);
        e := e + e2;
      }
    }
  }

  lemma WantedTail(v: seq<Cell>, x: Rec, q: seq<bool>)
    requires ViewOk(v) && v != []
    ensures Wanted(v, x, q) <==> InCell(v[0], x, q) || Wanted(v[1..], x, q)
    ensures Wanted(v[1..], x, q) ==> x.key > v[0].key
  {
    var w := v[1..];
    if Wanted(w, x, q) {
      var i :| 0 <= i < |w| && InCell(w[i], x, q);
      assert v[i + 1] == w[i];
    }
    if Wanted(v, x, q) && !InCell(v[0], x, q) {
      var i :| 0 <= i < |v| && InCell(v[i], x, q);
      assert w[i - 1] == v[i];
    }
  }

  lemma WantedTails(v: seq<Cell>, q: seq<bool>)
    requires ViewOk(v) && v != []
    ensures forall x :: Wanted(v, x, q) <==> InCell(v[0], x, q) || Wanted(v[1..], x, q)
    ensures forall x :: Wanted(v[1..], x, q) ==> x.key > v[0].key
  {
    forall x ensures Wanted(v, x, q) <==> InCell(v[0], x, q) || Wanted(v[1..], x, q) {
      WantedTail(v, x, q);
    }
    forall x | Wanted(v[1..], x, q) ensures x.key > v[0].key {
      WantedTail(v, x, q);
    }
  }

  lemma StopHere(r: Qctx, c: Qctx, v: seq<Cell>, e: seq<Rec>, q: seq<bool>, bsize: nat)
    requires ViewOk(v) && v != [] && Out(r, c, [v[0]], e, q, bsize) == true && |r.recl| >= bsize
    ensures Out(r, c, v, e, q, bsize) == true
  {
    OneCell(v[0], q);
    WantedTails(v, q);
  }

  lemma GoOn(r: Qctx, a: Qctx, b: Qctx, c: Qctx, v: seq<Cell>, e1: seq<Rec>, e2: seq<Rec>, q: seq<bool>, bsize: nat)
    requires ViewOk(v) && v != [] && Out(a, c, [v[0]], e1, q, bsize) == true && |a.recl| < bsize && b.recl == a.recl
    requires Out(r, b, v[1..], e2, q, bsize) == true
    ensures Out(r, c, v, e1 + e2, q, bsize) == true
  {
    OneCell(v[0], q);
    WantedTails(v, q);
    UniqueConcat(e1, e2);
    assert c.recl + (e1 + e2) == c.recl + e1 + e2;
    if |r.recl| >= bsize {
      var i :| 0 <= i < |v[1..]| && v[1..][i].key == r.bkey && (!r.nbtrDone ==> v[1..][i].tree);
      assert v[i + 1] == v[1..][i] && v[0].key < v[i + 1].key;
    }
  }

  // ---------------------------------------------------------------- one batch, fresh or resumed

  ghost predicate InSpan(beg: int, end: int, x: Rec) {
    beg <= x.key <= end
  }

  /**
    c may be resumed on v: the key where it stopped is still there, as a tree if it stopped inside it.
    A query starts with newIbtr set and nbtrDone clear.
   */
  ghost predicate Resumable(c: Qctx, v: seq<Cell>, beg: int, end: int) {
    if c.newIbtr then !c.nbtrDone else
      && beg <= c.bkey <= end
      && exists i :: 0 <= i < |v| && v[i].key == c.bkey && (!c.nbtrDone ==> v[i].tree)
  }

  lemma {:induction false} InKeysMembers(v: seq<Cell>, lo: int, hi: int)
    ensures forall x :: x in InKeys(v, lo, hi) <==> x in v && lo <= x.key <= hi
  {
    if v != [] {
      assert v == [v[0]] + v[1..];
      InKeysMembers(v[1..], lo, hi);
    }
  }

  /** A cell put before cells with greater keys. */
  lemma ViewCons(y: Cell, w: seq<Cell>)
    requires CellOk(y) && ViewOk(w) && forall x :: x in w ==> y.key < x.key
    ensures ViewOk([y] + w)
  {
    var v := [y] + w;
    forall i, j | 0 <= i < j < |v| ensures v[i].key < v[j].key {
      assert v[j] == w[j - 1] && w[j - 1] in w;
    }
  }

  lemma {:induction false} InKeysOrder(v: seq<Cell>, lo: int, hi: int)
    requires ViewOk(v)
    ensures ViewOk(InKeys(v, lo, hi))
  {
    if v != [] {
      var u, w := v[1..], InKeys(v[1..], lo, hi);
      InKeysOrder(u, lo, hi);
      InKeysMembers(u, lo, hi);
      forall x | x in w ensures v[0].key < x.key {
        var j :| 0 <= j < |u| && u[j] == x;
        assert v[j + 1] == x;
      }
      ViewCons(v[0], w);
      assert [] + w == w;
    }
  }

  lemma InKeysFacts(v: seq<Cell>, lo: int, hi: int)
    requires ViewOk(v)
    ensures ViewOk(InKeys(v, lo, hi)) && forall x :: x in InKeys(v, lo, hi) <==> x in v && lo <= x.key <= hi
  {
    InKeysOrder(v, lo, hi);
    InKeysMembers(v, lo, hi);
  }

  lemma WantedIn(v: seq<Cell>, lo: int, hi: int, q: seq<bool>)
    requires ViewOk(v)
    ensures forall x :: Wanted(InKeys(v, lo, hi), x, q) <==> Wanted(v, x, q) && lo <= x.key <= hi
  {
    InKeysFacts(v, lo, hi);
    var w := InKeys(v, lo, hi);
    forall x | Wanted(w, x, q) ensures Wanted(v, x, q) && lo <= x.key <= hi {
      var i :| 0 <= i < |w| && InCell(w[i], x, q);
      assert w[i] in w;
      var j :| 0 <= j < |v| && v[j] == w[i];
    }
    forall x | Wanted(v, x, q) && lo <= x.key <= hi ensures Wanted(w, x, q) {
      var i :| 0 <= i < |v| && InCell(v[i], x, q);
      assert v[i] in w;
      var j :| 0 <= j < |w| && w[j] == v[i];
    }
  }

  lemma {:induction false} AboveFacts(s: seq<int>, d: int)
    requires Rising(s)
    ensures Rising(Above(s, d)) && forall x :: x in Above(s, d) <==> x in s && x > d
  {
    if s != [] {
      assert s == [s[0]] + s[1..];
      AboveFacts(s[1..], d);
    }
  }

  /** The cells without what c has passed, when it stopped at the first of them. */
  ghost function Rest(c: Qctx, v: seq<Cell>): (w: seq<Cell>)
    requires v != []
  {
    if c.nbtrDone then v[1..] else [v[0].(digs := Above(v[0].digs, c.bdig))] + v[1..]
  }

  /** Resuming at the first key of v is starting afresh on the rest. */
  lemma ResumeIsFresh(c: Qctx, v: seq<Cell>, q: seq<bool>, bsize: nat)
    requires ViewOk(v) && v != [] && v[0].key == c.bkey && (!c.nbtrDone ==> v[0].tree)
    ensures ViewOk(Rest(c, v))
    ensures Walk(c, v, false, c.bkey, q, bsize) == Walk(c.(nbtrDone := false), Rest(c, v), true, c.bkey, q, bsize)
    ensures forall x :: Wanted(Rest(c, v), x, q) <==> Wanted(v, x, q) && !Before(c, x)
  {
    var w := Rest(c, v);
    if !c.nbtrDone {
      AboveFacts(v[0].digs, c.bdig);
      assert w[1..] == v[1..] && c.(nbtrDone := false) == c;
    }
    forall x ensures Wanted(w, x, q) <==> Wanted(v, x, q) && !Before(c, x) {
      WantedTail(v, x, q);
      if !c.nbtrDone {
        WantedTail(w, x, q);
      }
    }
  }

  /**
    A batch returns pairs of v in range that were not passed before, each once. When it is full, it can
    be resumed, it has passed what it returned and what was passed before, and it has returned whatever
    else it passed; otherwise it has returned everything left.
   */
  ghost predicate BatchOut(r: Qctx, c: Qctx, v: seq<Cell>, beg: int, end: int, q: seq<bool>, bsize: nat) {
    && Unique(r.recl) && |r.recl| < bsize + AI_ARR_MAX_USED
    && (forall x :: x in r.recl ==> InSpan(beg, end, x) && Wanted(v, x, q) && !Passed(c, x))
    && (|r.recl| < bsize ==>
          forall x :: InSpan(beg, end, x) && Wanted(v, x, q) && !Passed(c, x) ==> x in r.recl)
    && (|r.recl| >= bsize ==>
          && Resumable(r.(newIbtr := false), v, beg, end) == true
          && (forall x :: x in r.recl || Passed(c, x) ==> Before(r, x))
          && (forall x :: InSpan(beg, end, x) && Wanted(v, x, q) && Before(r, x) && !Passed(c, x) ==> x in r.recl))
  }

  /** The batch is a fresh walk over w, the cells of v in range without what was passed. */
  lemma BatchIsWalk(r: Qctx, a: Qctx, c: Qctx, v: seq<Cell>, w: seq<Cell>, e: seq<Rec>, beg: int, end: int,
                    q: seq<bool>, bsize: nat)
    requires Out(r, a, w, e, q, bsize) == true && a.recl == []
    requires forall x :: Wanted(w, x, q) <==> Wanted(v, x, q) && InSpan(beg, end, x) && !Passed(c, x)
    requires forall y :: y in w ==>
      beg <= y.key <= end && exists i :: 0 <= i < |v| && v[i].key == y.key && v[i].tree == y.tree
    requires |r.recl| >= bsize ==> forall x :: Passed(c, x) ==> Before(r, x)
    ensures BatchOut(r, c, v, beg, end, q, bsize) == true
  {
    assert [] + e == e;
    if |r.recl| >= bsize {
      var i :| 0 <= i < |w| && w[i].key == r.bkey && (!r.nbtrDone ==> w[i].tree);
      assert w[i] in w;
      var j :| 0 <= j < |v| && v[j].key == w[i].key && v[j].tree == w[i].tree;
      assert Resumable(r.(newIbtr := false), v, beg, end);
    }
  }

  lemma InKeysFrom(v: seq<Cell>, lo: int, hi: int)
    requires ViewOk(v)
    ensures forall y :: y in InKeys(v, lo, hi) ==>
      lo <= y.key <= hi && exists i :: 0 <= i < |v| && v[i].key == y.key && v[i].tree == y.tree
  {
    InKeysFacts(v, lo, hi);
    forall y | y in InKeys(v, lo, hi) ensures exists i :: 0 <= i < |v| && v[i].key == y.key && v[i].tree == y.tree {
      var i :| 0 <= i < |v| && v[i] == y;
    }
  }

  lemma FirstBatch(c: Qctx, v: seq<Cell>, beg: int, end: int, q: seq<bool>, bsize: nat)
    requires ViewOk(v) && c.newIbtr && Resumable(c, v, beg, end) && c.recl == [] && bsize > 0
    ensures BatchOut(Batch(c, v, beg, end, q, bsize), c, v, beg, end, q, bsize) == true
  {
    var w := InKeys(v, beg, end);
    InKeysFacts(v, beg, end);
    InKeysFrom(v, beg, end);
    WantedIn(v, beg, end, q);
    var e := WalkFull(c, w, beg, q, bsize);
    BatchIsWalk(Batch(c, v, beg, end, q, bsize), c, c, v, w, e, beg, end, q, bsize);
  }

  lemma StartsAt(v: seq<Cell>, c: Qctx, beg: int, end: int)
    requires ViewOk(v) && !c.newIbtr && Resumable(c, v, beg, end)
    ensures var w := InKeys(v, c.bkey, end); w != [] && w[0].key == c.bkey && (!c.nbtrDone ==> w[0].tree)
  {
    var w := InKeys(v, c.bkey, end);
    InKeysFacts(v, c.bkey, end);
    var i :| 0 <= i < |v| && v[i].key == c.bkey && (!c.nbtrDone ==> v[i].tree);
    assert v[i] in w;
    var j :| 0 <= j < |w| && w[j] == v[i];
    assert w[0] in w;
  }

  /** A full resumed batch has moved on. */
  lemma MovedOn(r: Qctx, a: Qctx, c: Qctx, w: seq<Cell>, e: seq<Rec>, q: seq<bool>, bsize: nat)
    requires Out(r, a, w, e, q, bsize) == true && a.recl == [] && |r.recl| >= bsize > 0
    requires forall x :: Wanted(w, x, q) ==> !Before(c, x) && x.key >= c.bkey
    ensures forall x :: Before(c, x) ==> Before(r, x)
  {
    assert [] + e == e && e[0] in e;
    assert Wanted(w, e[0], q) && Before(r, e[0]);
  }

  lemma NextBatch(c: Qctx, v: seq<Cell>, beg: int, end: int, q: seq<bool>, bsize: nat)
    requires ViewOk(v) && !c.newIbtr && Resumable(c, v, beg, end) && c.recl == [] && bsize > 0
    ensures BatchOut(Batch(c, v, beg, end, q, bsize), c, v, beg, end, q, bsize) == true
  {
    var u := InKeys(v, c.bkey, end);
    InKeysFacts(v, c.bkey, end);
    InKeysFrom(v, c.bkey, end);
    WantedIn(v, c.bkey, end, q);
    StartsAt(v, c, beg, end);
    ResumeIsFresh(c, u, q, bsize);
    var w, a := Rest(c, u), c.(nbtrDone := false);
    var r := Batch(c, v, beg, end, q, bsize);
    var e := WalkFull(a, w, c.bkey, q, bsize);
    if |r.recl| >= bsize {
      MovedOn(r, a, c, w, e, q, bsize);
    }
    RestFrom(c, u, v, beg, end);
    BatchIsWalk(r, a, c, v, w, e, beg, end, q, bsize);
  }

  lemma RestFrom(c: Qctx, u: seq<Cell>, v: seq<Cell>, beg: int, end: int)
    requires u != [] && beg <= c.bkey
    requires forall y :: y in u ==>
      c.bkey <= y.key <= end && exists i :: 0 <= i < |v| && v[i].key == y.key && v[i].tree == y.tree
    ensures forall y :: y in Rest(c, u) ==>
      beg <= y.key <= end && exists i :: 0 <= i < |v| && v[i].key == y.key && v[i].tree == y.tree
  {
    forall y | y in Rest(c, u) ensures exists z :: z in u && z.key == y.key && z.tree == y.tree {
      if y in u[1..] {
        assert y in u;
      } else {
        assert u[0] in u;
      }
    }
  }

  lemma BatchFacts(c: Qctx, v: seq<Cell>, beg: int, end: int, q: seq<bool>, bsize: nat)
    requires ViewOk(v) && Resumable(c, v, beg, end) && c.recl == [] && bsize > 0
    ensures BatchOut(Batch(c, v, beg, end, q, bsize), c, v, beg, end, q, bsize) == true
  {
    if c.newIbtr {
      FirstBatch(c, v, beg, end, q, bsize);
    } else {
      NextBatch(c, v, beg, end, q, bsize);
    }
  }

  // ---------------------------------------------------------------- whole queries

  /** Puts turned v into w: nothing was lost, and no tree became an array. */
  ghost predicate Grows(v: seq<Cell>, w: seq<Cell>) {
    forall y :: y in v ==> exists z :: z in w && z.key == y.key && (y.tree ==> z.tree) && Elems(y.digs) <= Elems(z.digs)
  }

  ghost predicate Chain(vs: seq<seq<Cell>>) {
    (forall i :: 0 <= i < |vs| ==> ViewOk(vs[i])) && forall i :: 0 < i < |vs| ==> Grows(vs[i - 1], vs[i])
  }

  /** What the caller does after a full batch: clears new_ibtr and n_bdigs. */
  function Next(r: Qctx): Qctx {
    r.(newIbtr := false, recl := [])
  }

  /** One batch size for each state; the caller may change it from batch to batch. */
  ghost predicate Sizes(ns: seq<nat>, n: nat) {
    |ns| == n && forall i :: 0 <= i < n ==> ns[i] > 0
  }

  /** The pairs returned by successive batches, of sizes ns, on the successive states vs of the index. */
  ghost function RunOut(c: Qctx, vs: seq<seq<Cell>>, beg: int, end: int, q: seq<bool>, ns: seq<nat>): (out: seq<Rec>)
    requires |ns| == |vs|
    decreases vs
  {
    if vs == [] then [] else
      var r := Batch(c, vs[0], beg, end, q, ns[0]);
      r.recl + if |r.recl| < ns[0] then [] else RunOut(Next(r), vs[1..], beg, end, q, ns[1..])
  }

  /** Some batch was not full, so the query ended. */
  ghost predicate Ends(c: Qctx, vs: seq<seq<Cell>>, beg: int, end: int, q: seq<bool>, ns: seq<nat>)
    requires |ns| == |vs|
    decreases vs
  {
    vs != [] &&
      var r := Batch(c, vs[0], beg, end, q, ns[0]);
      |r.recl| < ns[0] || Ends(Next(r), vs[1..], beg, end, q, ns[1..])
  }

  /** How many batches were made. */
  ghost function Ran(c: Qctx, vs: seq<seq<Cell>>, beg: int, end: int, q: seq<bool>, ns: seq<nat>): (n: nat)
    requires |ns| == |vs|
    ensures n <= |vs| && (vs != [] ==> n > 0)
    decreases vs
  {
    if vs == [] then 0 else
      var r := Batch(c, vs[0], beg, end, q, ns[0]);
      1 + if |r.recl| < ns[0] then 0 else Ran(Next(r), vs[1..], beg, end, q, ns[1..])
  }

  lemma GrowsFacts(v: seq<Cell>, w: seq<Cell>, c: Qctx, beg: int, end: int, q: seq<bool>)
    requires Grows(v, w)
    ensures Resumable(c, v, beg, end) ==> Resumable(c, w, beg, end)
    ensures forall x :: Wanted(v, x, q) ==> Wanted(w, x, q)
  {
    forall x | Wanted(v, x, q) ensures Wanted(w, x, q) {
      var i :| 0 <= i < |v| && InCell(v[i], x, q);
      assert v[i] in v && x.dig in Elems(v[i].digs);
      var z :| z in w && z.key == v[i].key && Elems(v[i].digs) <= Elems(z.digs);
      var j :| 0 <= j < |w| && w[j] == z;
    }
    if Resumable(c, v, beg, end) && !c.newIbtr {
      var i :| 0 <= i < |v| && v[i].key == c.bkey && (!c.nbtrDone ==> v[i].tree);
      assert v[i] in v;
      var z :| z in w && z.key == v[i].key && (v[i].tree ==> z.tree);
      var j :| 0 <= j < |w| && w[j] == z;
    }
  }

  /** The pairs of v in range that c has not passed are all in s. */
  ghost predicate Covers(s: seq<Rec>, c: Qctx, v: seq<Cell>, beg: int, end: int, q: seq<bool>) {
    forall x :: InSpan(beg, end, x) && Wanted(v, x, q) && !Passed(c, x) ==> x in s
  }

  /** s has only queryable pairs in range that c has not passed, each once. */
  ghost predicate Fresh(s: seq<Rec>, c: Qctx, beg: int, end: int, q: seq<bool>) {
    Unique(s) && forall x :: x in s ==> InSpan(beg, end, x) && Queryable(q, x.dig) && !Passed(c, x)
  }

  /** A full batch and then the rest of the query. */
  lemma Compose(r: Qctx, c: Qctx, v: seq<Cell>, rest: seq<Rec>, beg: int, end: int, q: seq<bool>, bsize: nat)
    requires BatchOut(r, c, v, beg, end, q, bsize) == true && |r.recl| >= bsize && Fresh(rest, Next(r), beg, end, q)
    ensures Fresh(r.recl + rest, c, beg, end, q)
    ensures Covers(rest, Next(r), v, beg, end, q) ==> Covers(r.recl + rest, c, v, beg, end, q)
  {
    UniqueConcat(r.recl, rest);
  }

  lemma CoversLess(s: seq<Rec>, c: Qctx, v: seq<Cell>, w: seq<Cell>, beg: int, end: int, q: seq<bool>)
    requires Covers(s, c, w, beg, end, q) && Grows(v, w)
    ensures Covers(s, c, v, beg, end, q)
  {
    GrowsFacts(v, w, c, beg, end, q);
  }

  /** A pair that is there stays there. */
  lemma {:induction false} Stays(vs: seq<seq<Cell>>, i: nat, q: seq<bool>)
    requires Chain(vs) && i < |vs|
    ensures forall x :: Wanted(vs[0], x, q) ==> Wanted(vs[i], x, q)
  {
    if i > 0 {
      Stays(vs, i - 1, q);
      GrowsFacts(vs[i - 1], vs[i], Qctx(true, 0, 0, false, []), 0, 0, q);
    }
  }

  /** The pairs of s are in v. */
  ghost predicate Within(s: seq<Rec>, v: seq<Cell>, q: seq<bool>) {
    forall x :: x in s ==> Wanted(v, x, q)
  }

  lemma TailChain(vs: seq<seq<Cell>>)
    requires Chain(vs) && vs != []
    ensures Chain(vs[1..])
  {
    var w := vs[1..];
    forall i | 0 < i < |w| ensures Grows(w[i - 1], w[i]) {
      assert w[i - 1] == vs[i] && w[i] == vs[i + 1];
    }
  }

  /** Nothing comes from nowhere: each pair returned is in the last state that a batch saw. */
  lemma {:induction false} RunWithin(c: Qctx, vs: seq<seq<Cell>>, beg: int, end: int, q: seq<bool>, ns: seq<nat>)
    requires Chain(vs) && vs != [] && Resumable(c, vs[0], beg, end) && c.recl == [] && Sizes(ns, |vs|)
    ensures Within(RunOut(c, vs, beg, end, q, ns), vs[Ran(c, vs, beg, end, q, ns) - 1], q) == true
    decreases vs
  {
    var v, w, r := vs[0], vs[1..], Batch(c, vs[0], beg, end, q, ns[0]);
    BatchFacts(c, v, beg, end, q, ns[0]);
    assert Within(r.recl, v, q);
    if |r.recl| >= ns[0] && w != [] {
      assert w[0] == vs[1] && Grows(v, w[0]);
      GrowsFacts(v, w[0], Next(r), beg, end, q);
      TailChain(vs);
      RunWithin(Next(r), w, beg, end, q, ns[1..]);
      Stays(vs, Ran(c, vs, beg, end, q, ns) - 1, q);
    } else {
      assert r.recl + [] == r.recl;
    }
  }

  /**
    A query in batches, of whatever sizes, with puts in between returns no pair twice, returns only pairs
    in range that are in the index, and once it has ended it has returned every queryable pair in range
    that was there when it began.
   */
  lemma {:induction false} ExactlyOnce(c: Qctx, vs: seq<seq<Cell>>, beg: int, end: int, q: seq<bool>, ns: seq<nat>)
    requires Chain(vs) && (vs != [] ==> Resumable(c, vs[0], beg, end)) && c.recl == [] && Sizes(ns, |vs|)
    ensures Fresh(RunOut(c, vs, beg, end, q, ns), c, beg, end, q) == true
    ensures vs != [] ==> Within(RunOut(c, vs, beg, end, q, ns), vs[Ran(c, vs, beg, end, q, ns) - 1], q) == true
    ensures Ends(c, vs, beg, end, q, ns) ==> Covers(RunOut(c, vs, beg, end, q, ns), c, vs[0], beg, end, q) == true
    decreases vs
  {
    if vs != [] {
      RunWithin(c, vs, beg, end, q, ns);
      var v, w, r := vs[0], vs[1..], Batch(c, vs[0], beg, end, q, ns[0]);
      BatchFacts(c, v, beg, end, q, ns[0]);
      if |r.recl| >= ns[0] {
        if w != [] {
          assert w[0] == vs[1] && Grows(v, w[0]);
          GrowsFacts(v, w[0], Next(r), beg, end, q);
        }
        TailChain(vs);
        ExactlyOnce(Next(r), w, beg, end, q, ns[1..]);
        var rest := RunOut(Next(r), w, beg, end, q, ns[1..]);
        Compose(r, c, v, rest, beg, end, q, ns[0]);
        if Ends(Next(r), w, beg, end, q, ns[1..]) {
          CoversLess(rest, Next(r), v, w[0], beg, end, q);
        }
      } else {
        assert r.recl + [] == r.recl;
      }
    }
  }

  /** The pairs that a state of the index holds. */
  ghost function Recs(v: seq<Cell>): (s: set<Rec>) {
    set i, d | 0 <= i < |v| && d in v[i].digs :: Rec(v[i].key, d)
  }

  lemma {:induction false} UniqueCount(s: seq<Rec>, all: set<Rec>)
    requires Unique(s) && forall x :: x in s ==> x in all
    ensures |s| <= |all|
  {
    if s != [] {
      forall x | x in s[1..] ensures x in all - {s[0]} {
        var i :| 0 <= i < |s[1..]| && s[1..][i] == x;
        assert s[0] != s[i + 1];
      }
      assert Unique(s[1..]);
      UniqueCount(s[1..], all - {s[0]});
    }
  }

  ghost function Total(ns: seq<nat>): (n: nat) {
    if ns == [] then 0 else ns[0] + Total(ns[1..])
  }

  lemma {:induction false} TotalAtLeast(ns: seq<nat>)
    requires Sizes(ns, |ns|)
    ensures Total(ns) >= |ns|
  {
    if ns != [] {
      TotalAtLeast(ns[1..]);
    }
  }

  /** As long as it has not ended, every batch was full. */
  lemma {:induction false} RunLength(c: Qctx, vs: seq<seq<Cell>>, beg: int, end: int, q: seq<bool>, ns: seq<nat>)
    requires |ns| == |vs| && !Ends(c, vs, beg, end, q, ns)
    ensures |RunOut(c, vs, beg, end, q, ns)| >= Total(ns) && Ran(c, vs, beg, end, q, ns) == |vs|
    decreases vs
  {
    if vs != [] {
      RunLength(Next(Batch(c, vs[0], beg, end, q, ns[0])), vs[1..], beg, end, q, ns[1..]);
    }
  }

  lemma WithinRecs(s: seq<Rec>, v: seq<Cell>, q: seq<bool>)
    requires Within(s, v, q) == true
    ensures forall x :: x in s ==> x in Recs(v)
  {
    forall x | x in s ensures x in Recs(v) {
      assert Wanted(v, x, q);
      var i :| 0 <= i < |v| && InCell(v[i], x, q);
      assert x == Rec(v[i].key, x.dig);
    }
  }

  /** The query ends: it cannot fill more batches than there are pairs in the end, so without puts than there are. */
  lemma QueryEnds(c: Qctx, vs: seq<seq<Cell>>, beg: int, end: int, q: seq<bool>, ns: seq<nat>)
    requires Chain(vs) && vs != [] && Resumable(c, vs[0], beg, end) && c.recl == [] && Sizes(ns, |vs|)
    requires |vs| > |Recs(vs[|vs| - 1])|
    ensures Ends(c, vs, beg, end, q, ns)
  {
    if !Ends(c, vs, beg, end, q, ns) {
      RunLength(c, vs, beg, end, q, ns);
      TotalAtLeast(ns);
      ExactlyOnce(c, vs, beg, end, q, ns);
      WithinRecs(RunOut(c, vs, beg, end, q, ns), vs[|vs| - 1], q);
      UniqueCount(RunOut(c, vs, beg, end, q, ns), Recs(vs[|vs| - 1]));
    }
  }

  /** The context after full batches on all of vs. */
  ghost function After(c: Qctx, vs: seq<seq<Cell>>, beg: int, end: int, q: seq<bool>, ns: seq<nat>): (r: Qctx)
    requires |ns| == |vs|
    decreases vs
  {
    if vs == [] then c else After(Next(Batch(c, vs[0], beg, end, q, ns[0])), vs[1..], beg, end, q, ns[1..])
  }

  /** One more batch. */
  lemma {:induction false} OneMore(c: Qctx, vs: seq<seq<Cell>>, v: seq<Cell>, beg: int, end: int, q: seq<bool>,
                                   ns: seq<nat>, n: nat)
    requires |ns| == |vs| && !Ends(c, vs, beg, end, q, ns)
    ensures var r, ms := Batch(After(c, vs, beg, end, q, ns), v, beg, end, q, n), ns + [n];
      && RunOut(c, vs + [v], beg, end, q, ms) == RunOut(c, vs, beg, end, q, ns) + r.recl
      && (Ends(c, vs + [v], beg, end, q, ms) <==> |r.recl| < n)
      && After(c, vs + [v], beg, end, q, ms) == Next(r) && Ran(c, vs + [v], beg, end, q, ms) == |vs| + 1
    decreases vs
  {
    var ws, ms := vs + [v], ns + [n];
    if vs == [] {
      assert ws[1..] == [] && ms[1..] == [] && ms[0] == n;
      var r := Batch(c, v, beg, end, q, n);
      assert [] + r.recl == r.recl == r.recl + [];
    } else {
      var r := Batch(c, vs[0], beg, end, q, ns[0]);
      assert ws[1..] == vs[1..] + [v] && ws[0] == vs[0] && ms[1..] == ns[1..] + [n] && ms[0] == ns[0];
      OneMore(Next(r), vs[1..], v, beg, end, q, ns[1..], n);
    }
  }

  /** The context after full batches can be resumed on the last state, and so on any that grew from it. */
  lemma {:induction false} AfterResumable(c: Qctx, vs: seq<seq<Cell>>, beg: int, end: int, q: seq<bool>, ns: seq<nat>)
    requires Chain(vs) && vs != [] && Resumable(c, vs[0], beg, end) && c.recl == [] && Sizes(ns, |vs|)
    requires !Ends(c, vs, beg, end, q, ns)
    ensures var a := After(c, vs, beg, end, q, ns); a.recl == [] && Resumable(a, vs[|vs| - 1], beg, end)
    decreases vs
  {
    var r, w := Batch(c, vs[0], beg, end, q, ns[0]), vs[1..];
    BatchFacts(c, vs[0], beg, end, q, ns[0]);
    if w != [] {
      assert Grows(vs[0], vs[1]) && w[0] == vs[1];
      TailChain(vs);
      GrowsFacts(vs[0], w[0], Next(r), beg, end, q);
      AfterResumable(Next(r), w, beg, end, q, ns[1..]);
    }
  }
}
