/** The batched range query of ai/src/ai_btree.c on an index in memory, through the tree cursors. */
module IndexQuery {
  import opened Wrappers
  import opened Entries
  import opened BtreeSpec
  import opened BtreeOrder
  import opened BtreeDepth
  import opened Btree
  import opened Iterator
  import opened Scan
  import opened Nested
  import opened Sindex
  import Digest
  import Q = Query

  const MAX_KEYS := 0x1_0000_0000

  ghost function KeysOf(s: seq<Entry>): (r: seq<int>) {
    if s == [] then [] else [s[0].key] + KeysOf(s[1..])
  }

  lemma {:induction false} AboveRest(s: seq<Entry>, b: int)
    requires Sorted(s)
    ensures Q.Above(KeysOf(s), b) == KeysOf(From(s, b + 1))
  {
    if s != [] {
      AboveRest(s[1..], b);
    }
  }

  // ---------------------------------------------------------------- the digests of one key

  /** What the tree loop has still to do: the digests of rest, but for the one where the last batch stopped. */
  ghost function ToCome(rest: seq<Entry>, full: bool, b: int): (r: seq<int>) {
    if full then KeysOf(rest) else Q.Above(KeysOf(rest), b)
  }

  lemma ToComeStep(rest: seq<Entry>, full: bool, b: int)
    requires Sorted(rest) && rest != []
    ensures !full && rest[0].key == b ==> ToCome(rest, full, b) == ToCome(rest[1..], full, b)
    ensures full || rest[0].key > b ==> ToCome(rest, full, b) == [rest[0].key] + ToCome(rest[1..], full, b)
  {
    if !full && rest[0].key > b {
      AllAbove(rest[1..], b);
    }
  }

  lemma {:induction false} AllAbove(s: seq<Entry>, b: int)
    requires forall i :: 0 <= i < |s| ==> s[i].key > b
    ensures Q.Above(KeysOf(s), b) == KeysOf(s)
  {
  }

  /** The entries in front of the cursor: up to high, and from b on unless the range is full. */
  ghost predicate Ahead(rest: seq<Entry>, high: int, full: bool, b: int) {
    Sorted(rest) && Upto(rest, high) == rest && (!full ==> forall i :: 0 <= i < |rest| ==> rest[i].key >= b)
  }

  ghost function Todo(r: Q.Qctx, k: int, rest: seq<Entry>, full: bool, b: int, q: seq<bool>, bsize: nat): Q.Qctx {
    Q.FromTree(r, k, ToCome(rest, full, b), q, bsize)
  }

  lemma AheadStep(rest: seq<Entry>, high: int, full: bool, b: int)
    requires Ahead(rest, high, full, b) == true && rest != []
    ensures Ahead(rest[1..], high, full, b) == true
    ensures rest[0].key <= high && (rest[0].key == high ==> rest[1..] == [])
  {
    assert rest == [rest[0]] + rest[1..];
  }

  lemma TodoStep(r: Q.Qctx, k: int, rest: seq<Entry>, high: int, full: bool, b: int, q: seq<bool>, bsize: nat)
    requires Ahead(rest, high, full, b) == true && rest != []
    ensures Todo(r, k, rest, full, b, q, bsize) ==
      if !full && rest[0].key == b then Todo(r, k, rest[1..], full, b, q, bsize) else
      var a := Q.AddRec(r, k, rest[0].key, q);
      if |a.recl| == bsize then a.(bkey := k, bdig := rest[0].key) else Todo(a, k, rest[1..], full, b, q, bsize)
  {
    ToComeStep(rest, full, b);
  }

  /** The loop of add_recs_from_nbtr. */
  method DrainTree(it: Iter, high: int, c: Q.Qctx, k: int, full: bool, q: seq<bool>, bsize: nat) returns (r: Q.Qctx)
    requires it.Valid() == true && Ahead(it.Rest(), high, full, c.bdig) == true
    modifies it
    ensures r == Q.FromTree(c, k, ToCome(old(it.Rest()), full, c.bdig), q, bsize)
  {
    r := c;
    var sfk := c.bdig;
    ghost var rest := it.Rest();
    ghost var goal := Todo(c, k, rest, full, sfk, q, bsize);
    while true
      invariant it.Valid() == true && rest == it.Rest() && Ahead(rest, high, full, sfk) == true
      invariant goal == Todo(r, k, rest, full, sfk, q, bsize)
      decreases |rest|
    {
      var e := RangeNext(it, high);
      if rest != [] {
        AheadStep(rest, high, full, sfk);
        TodoStep(r, k, rest, high, full, sfk, q, bsize);
        rest := rest[1..];
      }
      if e.None? {
        break;
      }
      if !full && e.value.key == sfk {
        continue;
      }
      r := Q.AddRec(r, k, e.value.key, q);
      if |r.recl| == bsize {
        r := r.(bkey := k, bdig := e.value.key);
        break;
      }
    }
  }

  lemma {:induction false} FromFrom(s: seq<Entry>, b: int)
    requires Sorted(s)
    ensures From(From(s, b), b + 1) == From(s, b + 1) && Sorted(From(s, b))
    ensures forall i :: 0 <= i < |From(s, b)| ==> From(s, b)[i].key >= b
    ensures From(s, b) != [] ==> s != [] && From(s, b)[|From(s, b)| - 1] == s[|s| - 1]
  {
    if s != [] && s[0].key < b {
      FromFrom(s[1..], b);
    }
  }

  /** The entries a nested cursor is set on are those the loop should visit. */
  lemma TreeAhead(s: seq<Entry>, lo: int, hi: int, full: bool, b: int)
    requires Sorted(s) && s != [] && hi == s[|s| - 1].key && lo == if full then s[0].key else b
    ensures Ahead(From(s, lo), hi, full, b) == true
    ensures ToCome(From(s, lo), full, b) == ToCome(s, full, b)
  {
    var f := From(s, lo);
    FromFrom(s, lo);
    if f != [] {
      UptoLast(f, hi);
    }
    FromToCome(s, lo, full, b);
  }

  lemma FromToCome(s: seq<Entry>, lo: int, full: bool, b: int)
    requires Sorted(s) && s != [] && lo == if full then s[0].key else b
    ensures ToCome(From(s, lo), full, b) == ToCome(s, full, b)
  {
    if !full {
      FromFrom(s, lo);
      AboveRest(From(s, lo), b);
      AboveRest(s, b);
    }
  }

  lemma Shallow(b: BTree)
    requires b.Valid() && b.t >= 9 && b.numkeys < MAX_KEYS
    ensures b.height < MAX_BTREE_DEPTH && Sorted(b.Contents())
  {
    assert Shaped(b.tree, b.t, b.height);
    DepthBound(b.tree, b.t, b.height);
  }

  /** add_recs_from_nbtr: the digests of a nested tree, from where the last batch stopped unless `full`. */
  method FromNbtr(b: BTree, c: Q.Qctx, k: int, full: bool, q: seq<bool>, bsize: nat) returns (r: Q.Qctx)
    requires b.Valid() && b.t >= 9 && 0 < b.numkeys < MAX_KEYS
    ensures r == Q.FromTree(c, k, ToCome(b.Contents(), full, c.bdig), q, bsize)
  {
    Shallow(b);
    ghost var s := b.Contents();
    assert b.Valid() && allocated(Own(b.tree));
    var hi := FindMax(b.root, b.tree, b.t, b.height);
    assert b.Valid();
    var lo := c.bdig;
    if full {
      lo := FindMin(b.root, b.tree, b.t, b.height);
      assert b.Valid();
    }
    TreeAhead(s, lo, hi, full, c.bdig);
    var it := GetRangeIter(b, lo);
    r := c;
    if it != null {
      r := DrainTree(it, hi, c, k, full, q, bsize);
    }
  }

  /** add_recs_from_arr. */
  method FromArray(data: seq<int>, c: Q.Qctx, k: int, q: seq<bool>) returns (r: Q.Qctx)
    ensures r == Q.FromArr(c, k, data, q)
  {
    r := c;
    for i := 0 to |data|
      invariant Q.AllRecs(r, k, data[i..], q) == Q.AllRecs(c, k, data, q)
    {
      assert data[i..][1..] == data[i + 1..];
      r := Q.AddRec(r, k, data[i], q);
    }
    r := r.(nbtrDone := true, bkey := k);
  }

  // ---------------------------------------------------------------- one batch over the index

  /** What a holder shows to a query; its key is known to the outer tree only. */
  ghost function Shown(n: Nbtr): (y: Q.Cell)
    reads n, n.nbtr
  {
    if n.nbtr == null then Q.Cell(0, false, n.arr.data) else Q.Cell(0, true, KeysOf(n.nbtr.Contents()))
  }

  /** The holders of an index as cells. */
  ghost predicate Shows(cm: map<int, Q.Cell>, g: Layout)
    reads g.all
  {
    && Separate(g) && cm.Keys == g.objs.Keys == g.foot.Keys
    && forall p :: p in g.objs ==>
      g.objs[p] in g.foot[p] && (g.objs[p].nbtr != null ==> g.objs[p].nbtr in g.foot[p]) && cm[p] == Shown(g.objs[p])
  }

  ghost function At(e: Entry, cm: map<int, Q.Cell>): (y: Q.Cell) {
    if e.val in cm then cm[e.val].(key := e.key) else Q.Cell(e.key, false, [])
  }

  /** The state of the index as a query sees it. */
  ghost function Cells(s: seq<Entry>, cm: map<int, Q.Cell>): (v: seq<Q.Cell>) {
    if s == [] then [] else [At(s[0], cm)] + Cells(s[1..], cm)
  }

  lemma {:induction false} CellsIn(s: seq<Entry>, cm: map<int, Q.Cell>, lo: int, hi: int)
    ensures Q.InKeys(Cells(s, cm), lo, hi) == Cells(InRange(s, lo, hi), cm)
  {
    if s != [] {
      CellsIn(s[1..], cm, lo, hi);
      var rest := InRange(s[1..], lo, hi);
      assert ([s[0]] + rest)[1..] == rest && [] + rest == rest;
    }
  }

  /** Every nested tree has a 32-bit number of digests. */
  ghost predicate Small(g: Layout) {
    forall p :: p in g.sets ==> |g.sets[p]| < MAX_KEYS
  }

  lemma {:induction false} KeySetSize(s: seq<Entry>)
    requires Sorted(s)
    ensures |KeySet(s)| == |s|
  {
    if s != [] {
      KeySetSize(s[1..]);
      assert s == [s[0]] + s[1..];
      assert KeySet(s) == {s[0].key} + KeySet(s[1..]);
    }
  }

  /** One key: its whole holder, or the rest of its tree. */
  method FromHolder(n: Nbtr, c: Q.Qctx, k: int, full: bool, q: seq<bool>, bsize: nat) returns (r: Q.Qctx)
    requires n.Valid() && n.Digests() != {} && |n.Digests()| < MAX_KEYS
    ensures r == Q.FromCell(c, Shown(n).(key := k), full, q, bsize)
  {
    if n.nbtr != null {
      assert Holds(n.nbtr, KeySet(n.nbtr.Contents())) && Shaped(n.nbtr.tree, n.nbtr.t, n.nbtr.height);
      KeySetSize(n.nbtr.Contents());
      r := FromNbtr(n.nbtr, c, k, full, q, bsize);
    } else {
      r := FromArray(n.arr.data, c, k, q);
    }
  }

  /** An index that a query can read: its holders are shown by cm, and no tree is too deep for the cursor. */
  ghost predicate Readable(idx: Index, cm: map<int, Q.Cell>)
    reads idx, idx.g.all
  {
    idx.Valid() && Shows(cm, idx.g) == true && Small(idx.g)
  }

  /** The cursor on the outer tree has `rest` in front of it. */
  ghost predicate Cursor(it: Iter, idx: Index, rest: seq<Entry>)
    reads it, it.b, Own(it.b.tree), idx
  {
    && it.Valid() && it.Rest() == rest && it !in idx.g.all
    && forall e :: e in rest ==> e.val in idx.objs
  }

  method NextKey(it: Iter, end: int, ghost idx: Index, ghost cm: map<int, Q.Cell>, ghost rest: seq<Entry>)
    returns (e: Option<Entry>, ghost left: seq<Entry>)
    requires Readable(idx, cm) == true && Cursor(it, idx, rest) == true
    modifies it
    ensures Readable(idx, cm) == true && (e.None? ==> Upto(rest, end) == [])
    ensures e.Some? ==> Cursor(it, idx, left) == true && Upto(rest, end) == [e.value] + Upto(left, end)
    ensures e.Some? ==> e.value.val in idx.objs && |left| < |rest|
  {
    assert allocated(idx.g.all);
    e := RangeNext(it, end);
    left := it.Rest();
    if e.Some? {
      TailIn(rest, left);
    }
  }

  lemma TailIn(rest: seq<Entry>, left: seq<Entry>)
    requires rest != [] && (left == [] || left == rest[1..])
    ensures rest[0] in rest && forall e :: e in left ==> e in rest
  {
  }

  /** One key of the walk; the cursor on the outer tree and the index stay as they are. */
  method Visit(n: Nbtr, e: Entry, c: Q.Qctx, full: bool, q: seq<bool>, bsize: nat,
               ghost idx: Index, ghost cm: map<int, Q.Cell>, ghost it: Iter, ghost rest: seq<Entry>) returns (r: Q.Qctx)
    requires Readable(idx, cm) == true && Cursor(it, idx, rest) == true && e.val in idx.objs && n == idx.objs[e.val]
    ensures Readable(idx, cm) == true && Cursor(it, idx, rest) == true
    ensures r == Q.FromCell(c, At(e, cm), full, q, bsize)
  {
    HolderReady(idx, cm, e.val);
    assert allocated(idx.g.all) && it.b.Valid() && allocated(Own(it.b.tree));
    r := FromHolder(n, c, e.key, full, q, bsize);
  }

  lemma HolderReady(idx: Index, cm: map<int, Q.Cell>, p: int)
    requires Readable(idx, cm) == true && p in idx.objs
    ensures var n := idx.objs[p];
      n.Valid() && n.Digests() != {} && |n.Digests()| < MAX_KEYS && p in cm && cm[p] == Shown(n)
  {
    var g := idx.g;
    assert State(g, idx.ibtr) && Table(g) && Holder(g.objs[p], g.foot[p], g.sets[p], g.weights[p], g.kinds[p]);
    assert Filled(g.sets, g.sets.Keys);
  }

  ghost function Goal(c: Q.Qctx, rest: seq<Entry>, cm: map<int, Q.Cell>, end: int, fullrng: bool, sfk: int,
                      q: seq<bool>, bsize: nat): Q.Qctx {
    Q.Walk(c, Cells(Upto(rest, end), cm), fullrng, sfk, q, bsize)
  }

  lemma GoalStep(c: Q.Qctx, e: Entry, rest: seq<Entry>, left: seq<Entry>, cm: map<int, Q.Cell>, end: int,
                 fullrng: bool, sfk: int, q: seq<bool>, bsize: nat)
    requires Upto(rest, end) == [e] + Upto(left, end)
    ensures Goal(c, rest, cm, end, fullrng, sfk, q, bsize) ==
      var full := fullrng || e.key != sfk;
      if !full && c.nbtrDone then Goal(c.(nbtrDone := false), left, cm, end, true, sfk, q, bsize) else
      var a := Q.FromCell(c, At(e, cm), full, q, bsize);
      if |a.recl| >= bsize then a else Goal(a.(nbtrDone := false), left, cm, end, true, sfk, q, bsize)
  {
    var v := Cells(Upto(rest, end), cm);
    assert ([e] + Upto(left, end))[1..] == Upto(left, end);
    assert v[0] == At(e, cm) && v[1..] == Cells(Upto(left, end), cm);
  }

  /** The loop of get_numeric_range_recl. */
  method WalkKeys(idx: Index, it: Iter, c: Q.Qctx, end: int, newIbtr: bool, sfk: int, q: seq<bool>, bsize: nat,
                  ghost cm: map<int, Q.Cell>, ghost ahead: seq<Entry>) returns (r: Q.Qctx)
    requires Readable(idx, cm) == true && Cursor(it, idx, ahead) == true
    modifies it
    ensures Readable(idx, cm) == true && r == Goal(c, ahead, cm, end, newIbtr, sfk, q, bsize)
  {
    r := c;
    var fullrng := newIbtr;
    ghost var rest := ahead;
    ghost var goal := Goal(c, ahead, cm, end, newIbtr, sfk, q, bsize);
    while true
      invariant Readable(idx, cm) == true && Cursor(it, idx, rest) == true
      invariant goal == Goal(r, rest, cm, end, fullrng, sfk, q, bsize)
      decreases |rest|
    {
      var e; ghost var left;
      e, left := NextKey(it, end, idx, cm, rest);
      if e.None? {
        break;
      }
      GoalStep(r, e.value, rest, left, cm, end, fullrng, sfk, q, bsize);
      rest := left;
      if !fullrng {
        if e.value.key != sfk {
          fullrng := true;
        } else if r.nbtrDone {
          r := r.(nbtrDone := false);
          fullrng := true;
          continue;
        }
      }
      r := Visit(idx.objs[e.value.val], e.value, r, fullrng, q, bsize, idx, cm, it, left);
      if |r.recl| >= bsize {
        break;
      }
      fullrng := true;
      r := r.(nbtrDone := false);
    }
  }

  // ---------------------------------------------------------------- the index as cells

  lemma {:induction false} KeysElems(s: seq<Entry>)
    requires Sorted(s)
    ensures |KeysOf(s)| == |s| && (forall i :: 0 <= i < |s| ==> KeysOf(s)[i] == s[i].key)
    ensures Q.Rising(KeysOf(s)) && NoDup(KeysOf(s)) && Elems(KeysOf(s)) == KeySet(s)
  {
    if s != [] {
      KeysElems(s[1..]);
      assert s == [s[0]] + s[1..];
      forall i | 0 <= i < |s| ensures KeysOf(s)[i] == s[i].key {
        if i > 0 {
          assert KeysOf(s)[i] == KeysOf(s[1..])[i - 1];
        }
      }
    }
  }

  /** cm shows the holders as g describes them. */
  ghost predicate Depicts(cm: map<int, Q.Cell>, g: Layout) {
    && cm.Keys == g.sets.Keys == g.kinds.Keys
    && forall p :: p in cm ==> Q.CellOk(cm[p]) && cm[p].tree == g.kinds[p] && Elems(cm[p].digs) == g.sets[p]
  }

  lemma ShownOk(n: Nbtr, f: set<object>, d: set<int>, w: int, t: bool)
    requires Holder(n, f, d, w, t) == true
    ensures Q.CellOk(Shown(n)) && Shown(n).tree == t && Elems(Shown(n).digs) == d
  {
    if n.nbtr != null {
      assert Holds(n.nbtr, KeySet(n.nbtr.Contents())) && Shaped(n.nbtr.tree, n.nbtr.t, n.nbtr.height);
      KeysElems(n.nbtr.Contents());
    }
  }

  lemma IndexDepicts(idx: Index, cm: map<int, Q.Cell>)
    requires Readable(idx, cm) == true
    ensures Depicts(cm, idx.g) == true
  {
    var g := idx.g;
    assert State(g, idx.ibtr) && Table(g);
    forall p | p in cm ensures Q.CellOk(cm[p]) && cm[p].tree == g.kinds[p] && Elems(cm[p].digs) == g.sets[p] {
      ShownOk(g.objs[p], g.foot[p], g.sets[p], g.weights[p], g.kinds[p]);
    }
  }

  lemma {:induction false} CellsAt(s: seq<Entry>, cm: map<int, Q.Cell>)
    ensures |Cells(s, cm)| == |s| && forall i :: 0 <= i < |s| ==> Cells(s, cm)[i] == At(s[i], cm)
  {
    if s != [] {
      CellsAt(s[1..], cm);
    }
  }

  /** The cells of a sound index: in key order, with exactly its pairs. */
  lemma ViewGood(s: seq<Entry>, g: Layout, cm: map<int, Q.Cell>)
    requires Keyed(s, g) == true && Depicts(cm, g) == true
    ensures Q.ViewOk(Cells(s, cm))
    ensures forall x :: x in Q.Recs(Cells(s, cm)) <==> (x.key, x.dig) in PairsOf(s, g.sets)
  {
    CellsAt(s, cm);
    var v := Cells(s, cm);
    forall i | 0 <= i < |s| ensures s[i].val in cm && Q.CellOk(v[i]) && Elems(v[i].digs) == g.sets[s[i].val] &&
      v[i].key == s[i].key {
      Alone(s, i, g.sets.Keys);
    }
    forall x | x in Q.Recs(v) ensures (x.key, x.dig) in PairsOf(s, g.sets) {
      var i, d :| 0 <= i < |v| && d in v[i].digs && x == Q.Rec(v[i].key, d);
      assert s[i] in s && d in Elems(v[i].digs);
    }
    forall x: Q.Rec | (x.key, x.dig) in PairsOf(s, g.sets) ensures x in Q.Recs(v) {
      var e :| e in s && e.val in g.sets && x.dig in g.sets[e.val] && e.key == x.key;
      var i :| 0 <= i < |s| && s[i] == e;
      assert x.dig in Elems(v[i].digs) && x == Q.Rec(v[i].key, x.dig);
    }
  }

  /** The cell of one key after puts. */
  lemma CellGrows(s: seq<Entry>, i: nat, g: Layout, cm: map<int, Q.Cell>, t: seq<Entry>, r: Layout,
                  cn: map<int, Q.Cell>)
    returns (j: nat)
    requires Keyed(s, g) == true && Depicts(cm, g) == true && Keyed(t, r) == true && Depicts(cn, r) == true
    requires Persist(s, g, t, r) == true && PairsOf(s, g.sets) <= PairsOf(t, r.sets) && i < |s|
    ensures j < |t| && t[j] == s[i]
    ensures var y, z := At(s[i], cm), At(s[i], cn); (y.tree ==> z.tree) && Elems(y.digs) <= Elems(z.digs)
  {
    assert s[i] in s && s[i] in t;
    j :| 0 <= j < |t| && t[j] == s[i];
    PairsAt(s, i, g.sets);
    PairsAt(t, j, r.sets);
    var p := s[i].val;
    assert p in g.sets && p in r.sets && p in cm && p in cn;
    assert Elems(cm[p].digs) == g.sets[p] && Elems(cn[p].digs) == r.sets[p];
    forall d | d in g.sets[p] ensures d in r.sets[p] {
      assert (s[i].key, d) in PairsOf(s, g.sets);
    }
  }

  ghost predicate GrownIn(y: Q.Cell, w: seq<Q.Cell>) {
    exists z :: z in w && z.key == y.key && (y.tree ==> z.tree) && Elems(y.digs) <= Elems(z.digs)
  }

  lemma OneGrows(s: seq<Entry>, i: nat, g: Layout, cm: map<int, Q.Cell>, t: seq<Entry>, r: Layout, cn: map<int, Q.Cell>)
    requires Keyed(s, g) == true && Depicts(cm, g) == true && Keyed(t, r) == true && Depicts(cn, r) == true
    requires Persist(s, g, t, r) == true && PairsOf(s, g.sets) <= PairsOf(t, r.sets) && i < |s|
    ensures GrownIn(At(s[i], cm), Cells(t, cn)) == true
  {
    CellsAt(t, cn);
    var j := CellGrows(s, i, g, cm, t, r, cn);
    assert Cells(t, cn)[j] in Cells(t, cn);
  }

  /** After puts the cells have grown. */
  lemma ViewGrows(s: seq<Entry>, g: Layout, cm: map<int, Q.Cell>, t: seq<Entry>, r: Layout, cn: map<int, Q.Cell>)
    requires Keyed(s, g) == true && Depicts(cm, g) == true && Keyed(t, r) == true && Depicts(cn, r) == true
    requires Persist(s, g, t, r) == true && PairsOf(s, g.sets) <= PairsOf(t, r.sets)
    ensures Q.Grows(Cells(s, cm), Cells(t, cn))
  {
    CellsAt(s, cm);
    var v, w := Cells(s, cm), Cells(t, cn);
    assert AllGrown(v, w) == true by {
      forall i | 0 <= i < |v| ensures GrownIn(v[i], w) == true {
        OneGrows(s, i, g, cm, t, r, cn);
      }
    }
    GrowsAll(v, w);
  }

  ghost predicate AllGrown(v: seq<Q.Cell>, w: seq<Q.Cell>) {
    forall i :: 0 <= i < |v| ==> GrownIn(v[i], w)
  }

  lemma GrowsAll(v: seq<Q.Cell>, w: seq<Q.Cell>)
    requires AllGrown(v, w) == true
    ensures Q.Grows(v, w)
  {
    forall y | y in v ensures GrownIn(y, w) {
      var i :| 0 <= i < |v| && v[i] == y;
    }
  }

  // ---------------------------------------------------------------- sizes

  lemma EmptyImage(k: int, d: set<int>)
    ensures (set x | x in d :: (k, x)) == {} ==> d == {}
  {
    var p := set x | x in d :: (k, x);
    assert forall x :: x in d ==> (k, x) in p;
  }

  lemma {:induction false} Fibre(k: int, d: set<int>, all: set<(int, int)>)
    requires forall x :: x in d ==> (k, x) in all
    ensures |d| <= |all|
  {
    EmptyImage(k, d);
    var p := set x | x in d :: (k, x);
    if p != {} {
      var y :| y in p;
      Fibre(k, d - {y.1}, all - {y});
    }
  }

  lemma {:induction false} KeysFewer(s: seq<Entry>, d: map<int, set<int>>)
    requires Sorted(s) && forall i :: 0 <= i < |s| ==> s[i].val in d && d[s[i].val] != {}
    ensures |s| <= |PairsOf(s, d)|
  {
    if s != [] {
      KeysFewer(s[1..], d);
      EmptyImage(s[0].key, d[s[0].val]);
      var y :| y in set x | x in d[s[0].val] :: (s[0].key, x);
      var p, q := PairsOf(s, d), PairsOf(s[1..], d);
      assert y in p by {
        assert s[0] in s;
      }
      PairKeys(s[1..], d);
      assert y !in q;
      assert q <= p - {y};
      SubsetSize(q, p - {y});
    }
  }

  lemma {:induction false} SubsetSize(a: set<(int, int)>, b: set<(int, int)>)
    requires a <= b
    ensures |a| <= |b|
  {
    if a != {} {
      var x :| x in a;
      SubsetSize(a - {x}, b - {x});
    }
  }

  /** An index with few pairs has few keys, and few digests under each. */
  lemma FewPairs(idx: Index)
    requires idx.Valid() == true && |idx.pairs| < MAX_KEYS
    ensures Small(idx.g) && idx.ibtr.numkeys < MAX_KEYS
  {
    var s, g := idx.ibtr.Contents(), idx.g;
    OuterEntries(idx.ibtr, g);
    assert Keyed(s, g) && Filled(g.sets, g.sets.Keys);
    forall i | 0 <= i < |s| ensures s[i].val in g.sets && g.sets[s[i].val] != {} {
      Alone(s, i, g.sets.Keys);
    }
    KeysFewer(s, g.sets);
    forall p | p in g.sets ensures |g.sets[p]| < MAX_KEYS {
      var i := Pointer(s, p);
      PairsAt(s, i, g.sets);
      Fibre(s[i].key, g.sets[p], idx.pairs);
    }
  }

  lemma {:induction false} Pointer(s: seq<Entry>, p: int) returns (i: nat)
    requires Uses(s, p) > 0
    ensures i < |s| && s[i].val == p
  {
    if s[0].val == p {
      i := 0;
    } else {
      var j := Pointer(s[1..], p);
      i := j + 1;
    }
  }

  // ---------------------------------------------------------------- batches and puts

  lemma ShowsAll(idx: Index, cm: map<int, Q.Cell>)
    requires idx.Valid() == true && |idx.pairs| < MAX_KEYS && cm.Keys == idx.objs.Keys
    requires forall p :: p in cm ==> cm[p] == Shown(idx.objs[p])
    ensures Readable(idx, cm) == true
  {
    FewPairs(idx);
    var g := idx.g;
    assert State(g, idx.ibtr) && Table(g);
    forall p | p in g.objs ensures g.objs[p] in g.foot[p] && (g.objs[p].nbtr != null ==> g.objs[p].nbtr in g.foot[p]) {
      assert Holder(g.objs[p], g.foot[p], g.sets[p], g.weights[p], g.kinds[p]);
    }
  }

  lemma GoalIsBatch(s: seq<Entry>, cm: map<int, Q.Cell>, c: Q.Qctx, beg: int, end: int, q: seq<bool>, bsize: nat)
    requires Sorted(s)
    ensures var sfk := if c.newIbtr then beg else c.bkey;
      && Goal(c, From(s, sfk), cm, end, c.newIbtr, sfk, q, bsize) == Q.Batch(c, Cells(s, cm), beg, end, q, bsize)
      && (From(s, sfk) == [] ==> Q.Batch(c, Cells(s, cm), beg, end, q, bsize) == c)
  {
    var sfk := if c.newIbtr then beg else c.bkey;
    UptoIsRange(s, sfk, end);
    CellsIn(s, cm, sfk, end);
  }

  lemma {:induction false} FromIn(s: seq<Entry>, k: int)
    ensures forall e :: e in From(s, k) ==> e in s
  {
    if s != [] && s[0].key < k {
      FromIn(s[1..], k);
    }
  }

  /** The walk from key sfk on. */
  method WalkFrom(idx: Index, c: Q.Qctx, end: int, newIbtr: bool, sfk: int, q: seq<bool>, bsize: nat,
                  ghost cm: map<int, Q.Cell>)
    returns (r: Q.Qctx)
    requires Readable(idx, cm) == true && idx.ibtr.Valid() && idx.ibtr.height < MAX_BTREE_DEPTH
    requires forall e :: e in idx.ibtr.Contents() ==> e.val in idx.objs
    ensures Readable(idx, cm) == true && r == Goal(c, From(idx.ibtr.Contents(), sfk), cm, end, newIbtr, sfk, q, bsize)
  {
    FromIn(idx.ibtr.Contents(), sfk);
    assert allocated(idx.g.all);
    var it := GetRangeIter(idx.ibtr, sfk);
    r := c;
    if it != null {
      r := WalkKeys(idx, it, c, end, newIbtr, sfk, q, bsize, cm, From(idx.ibtr.Contents(), sfk));
    }
  }

  lemma BatchReady(idx: Index)
    requires idx.Valid() == true && idx.ibtr.t >= 9 && |idx.pairs| < MAX_KEYS
    ensures idx.ibtr.Valid() && idx.ibtr.height < MAX_BTREE_DEPTH && Sorted(idx.ibtr.Contents())
    ensures forall e :: e in idx.ibtr.Contents() ==> e.val in idx.objs
  {
    OuterEntries(idx.ibtr, idx.g);
    FewPairs(idx);
    Shallow(idx.ibtr);
  }

  /** get_numeric_range_recl on an index in memory. */
  method RangeBatch(idx: Index, c: Q.Qctx, beg: int, end: int, q: seq<bool>, bsize: nat)
    returns (r: Q.Qctx, ghost cm: map<int, Q.Cell>)
    requires idx.Valid() == true && idx.ibtr.t >= 9 && |idx.pairs| < MAX_KEYS
    ensures Readable(idx, cm) == true
    ensures r == Q.Batch(c, Cells(idx.ibtr.Contents(), cm), beg, end, q, bsize)
  {
    cm := map p | p in idx.objs :: Shown(idx.objs[p]);
    ShowsAll(idx, cm);
    BatchReady(idx);
    GoalIsBatch(idx.ibtr.Contents(), cm, c, beg, end, q, bsize);
    var sfk := if c.newIbtr then beg else c.bkey;
    r := WalkFrom(idx, c, end, c.newIbtr, sfk, q, bsize, cm);
  }

  ghost function MaxVal(s: seq<Entry>): (m: int) {
    if s == [] then 0 else
      var m := MaxVal(s[1..]);
      if s[0].val > m then s[0].val else m
  }

  lemma {:induction false} Unused(s: seq<Entry>, p: int)
    requires p > MaxVal(s)
    ensures Uses(s, p) == 0
  {
    if s != [] {
      Unused(s[1..], p);
    }
  }

  /** An address that no holder has, as the allocator returns. */
  method Address(idx: Index) returns (p: int)
    requires idx.Valid() == true
    ensures p !in idx.objs
  {
    ghost var m := MaxVal(idx.ibtr.Contents()) + 1;
    Unused(idx.ibtr.Contents(), m);
    OuterKeyed(idx.ibtr, idx.g);
    assert m !in idx.objs;
    p :| p !in idx.objs;
  }

  /** What the index holds and how, at one moment. */
  datatype Moment = Moment(s: seq<Entry>, g: Layout)

  /** Only puts happened from a to b. */
  ghost predicate Later(a: Moment, b: Moment) {
    Persist(a.s, a.g, b.s, b.g) && PairsOf(a.s, a.g.sets) <= PairsOf(b.s, b.g.sets)
  }

  lemma LaterTwice(a: Moment, b: Moment, c: Moment)
    requires Later(a, b) == true && Later(b, c) == true
    ensures Later(a, c) == true
  {
    PersistTwice(a.s, a.g, b.s, b.g, c.s, c.g);
  }

  ghost function Now(idx: Index): Moment
    reads idx, idx.ibtr
  {
    Moment(idx.ibtr.Contents(), idx.g)
  }

  lemma NowPairs(idx: Index)
    requires idx.Valid() == true
    ensures idx.pairs == PairsOf(Now(idx).s, Now(idx).g.sets) && Keyed(Now(idx).s, Now(idx).g) == true
  {
    OuterKeyed(idx.ibtr, idx.g);
  }

  /** ai_btree_put. */
  method PutPair(idx: Index, k: int, d: int)
    requires idx.Valid() == true
    modifies idx, idx.g.all
    ensures idx.Valid() == true && (forall o :: o in idx.g.all ==> o in old(idx.g.all) || fresh(o))
    ensures Later(old(Now(idx)), Now(idx)) == true && idx.pairs == old(idx.pairs) + {(k, d)}
  {
    assert allocated(idx.g.all);
    NowPairs(idx);
    var p := Address(idx);
    var _, _ := idx.Add(k, d, p);
    NowPairs(idx);
  }

  /** The pairs that are put. */
  ghost function PutSet(ps: seq<(int, int)>): (s: set<(int, int)>) {
    set p | p in ps
  }

  lemma PutSetMore(before: set<(int, int)>, ps: seq<(int, int)>, i: nat)
    requires i < |ps|
    ensures before + PutSet(ps[..i + 1]) == before + PutSet(ps[..i]) + {ps[i]}
  {
    assert ps[..i + 1] == ps[..i] + [ps[i]];
  }

  /** One of several puts since the moment `first`. */
  method PutNext(idx: Index, p: (int, int), ghost first: Moment)
    requires idx.Valid() == true && Later(first, Now(idx)) == true
    modifies idx, idx.g.all
    ensures idx.Valid() == true && (forall o :: o in idx.g.all ==> o in old(idx.g.all) || fresh(o))
    ensures Later(first, Now(idx)) == true && idx.pairs == old(idx.pairs) + {p}
  {
    ghost var mid := Now(idx);
    PutPair(idx, p.0, p.1);
    LaterTwice(first, mid, Now(idx));
  }

  /** Any number of puts. */
  method PutAll(idx: Index, ps: seq<(int, int)>)
    requires idx.Valid() == true
    modifies idx, idx.g.all
    ensures idx.Valid() == true && (forall o :: o in idx.g.all ==> o in old(idx.g.all) || fresh(o))
    ensures Later(old(Now(idx)), Now(idx)) == true && idx.pairs == old(idx.pairs) + PutSet(ps)
  {
    ghost var first, before := Now(idx), idx.pairs;
    LaterHere(first);
    for i := 0 to |ps|
      invariant idx.Valid() == true && (forall o :: o in idx.g.all ==> o in old(idx.g.all) || fresh(o))
      invariant Later(first, Now(idx)) == true && idx.pairs == before + PutSet(ps[..i])
    {
      PutSetMore(before, ps, i);
      PutNext(idx, ps[i], first);
    }
    assert ps[..|ps|] == ps;
  }

  lemma LaterHere(a: Moment)
    ensures Later(a, a) == true
  {
  }

  // ---------------------------------------------------------------- a whole query

  /** The batches so far, of sizes ns on the index states vs, all full, have returned out and left the context c. */
  ghost predicate Running(c: Q.Qctx, vs: seq<seq<Q.Cell>>, out: seq<Q.Rec>, beg: int, end: int, q: seq<bool>,
                          ns: seq<nat>) {
    && Q.Chain(vs) && Q.Sizes(ns, |vs|) && !Q.Ends(Start(), vs, beg, end, q, ns)
    && c == Q.After(Start(), vs, beg, end, q, ns) && out == Q.RunOut(Start(), vs, beg, end, q, ns)
  }

  function Start(): Q.Qctx {
    Q.Qctx(true, 0, 0, false, [])
  }

  /** One more batch, of size n on v, which grew from the last state. */
  lemma RunMore(c: Q.Qctx, vs: seq<seq<Q.Cell>>, out: seq<Q.Rec>, v: seq<Q.Cell>, beg: int, end: int, q: seq<bool>,
                ns: seq<nat>, n: nat)
    requires Running(c, vs, out, beg, end, q, ns) == true && Q.ViewOk(v) && n > 0
    requires vs != [] ==> Q.Grows(vs[|vs| - 1], v)
    ensures var r, ms := Q.Batch(c, v, beg, end, q, n), ns + [n];
      && Q.Chain(vs + [v]) && Q.Sizes(ms, |vs| + 1) && out + r.recl == Q.RunOut(Start(), vs + [v], beg, end, q, ms)
      && Q.Ran(Start(), vs + [v], beg, end, q, ms) == |vs| + 1
      && (Q.Ends(Start(), vs + [v], beg, end, q, ms) <==> |r.recl| < n)
      && (|r.recl| >= n ==> Running(Q.Next(r), vs + [v], out + r.recl, beg, end, q, ms) == true)
  {
    ChainMore(vs, v);
    Q.OneMore(Start(), vs, v, beg, end, q, ns, n);
  }

  lemma ChainMore(vs: seq<seq<Q.Cell>>, v: seq<Q.Cell>)
    requires Q.Chain(vs) && Q.ViewOk(v) && (vs != [] ==> Q.Grows(vs[|vs| - 1], v))
    ensures Q.Chain(vs + [v])
  {
    var ws := vs + [v];
    forall i | 0 <= i < |ws| ensures Q.ViewOk(ws[i]) {
      assert i < |vs| ==> ws[i] == vs[i];
    }
    forall i | 0 < i < |ws| ensures Q.Grows(ws[i - 1], ws[i]) {
      assert ws[i - 1] == vs[i - 1] && (i < |vs| ==> ws[i] == vs[i]);
    }
  }

  /** The outcome in terms of the pairs of the index: `all` when the query began, `now` when its last batch was made. */
  lemma RunMeans(vs: seq<seq<Q.Cell>>, out: seq<Q.Rec>, all: set<(int, int)>, now: set<(int, int)>, beg: int, end: int,
                 q: seq<bool>, ns: seq<nat>)
    requires Q.Chain(vs) && vs != [] && Q.Sizes(ns, |vs|) && out == Q.RunOut(Start(), vs, beg, end, q, ns)
    requires Q.Ran(Start(), vs, beg, end, q, ns) == |vs|
    requires HoldsPairs(vs[0], all) == true && HoldsPairs(vs[|vs| - 1], now) == true
    ensures Done(out, all, now, Q.Ends(Start(), vs, beg, end, q, ns), beg, end, q) == true
  {
    Q.ExactlyOnce(Start(), vs, beg, end, q, ns);
    Q.WithinRecs(out, vs[|vs| - 1], q);
    if Q.Ends(Start(), vs, beg, end, q, ns) {
      forall k, d | (k, d) in all && beg <= k <= end && Q.Queryable(q, d) ensures Q.Rec(k, d) in out {
        var x := Q.Rec(k, d);
        assert x in Q.Recs(vs[0]);
        var i, b :| 0 <= i < |vs[0]| && b in vs[0][i].digs && x == Q.Rec(vs[0][i].key, b);
        assert Q.InCell(vs[0][i], x, q);
      }
    }
  }

  /** The cells v hold exactly the pairs all. */
  ghost predicate HoldsPairs(v: seq<Q.Cell>, all: set<(int, int)>) {
    forall x :: x in Q.Recs(v) <==> (x.key, x.dig) in all
  }

  /** One batch, with the state it saw. */
  method QueryStep(idx: Index, c: Q.Qctx, beg: int, end: int, q: seq<bool>, bsize: nat)
    returns (r: Q.Qctx, ghost cm: map<int, Q.Cell>)
    requires idx.Valid() == true && idx.ibtr.t >= 9 && |idx.pairs| < MAX_KEYS
    ensures idx.Valid() == true && Depicts(cm, idx.g) == true && Keyed(Now(idx).s, idx.g) == true
    ensures r == Q.Batch(c, Cells(Now(idx).s, cm), beg, end, q, bsize)
  {
    r, cm := RangeBatch(idx, c, beg, end, q, bsize);
    assert Readable(idx, cm);
    IndexDepicts(idx, cm);
    NowPairs(idx);
  }

  /** The last state a batch saw, of which only puts have made the present one. */
  ghost predicate Since(vs: seq<seq<Q.Cell>>, m: Moment, cm: map<int, Q.Cell>, now: Moment) {
    vs != [] ==>
      vs[|vs| - 1] == Cells(m.s, cm) && Keyed(m.s, m.g) == true && Depicts(cm, m.g) == true &&
      Later(m, now) == true
  }

  lemma SinceGrows(vs: seq<seq<Q.Cell>>, m: Moment, cm: map<int, Q.Cell>, now: Moment, cn: map<int, Q.Cell>)
    requires Since(vs, m, cm, now) == true && Keyed(now.s, now.g) == true && Depicts(cn, now.g) == true
    ensures vs != [] ==> Q.Grows(vs[|vs| - 1], Cells(now.s, cn))
  {
    if vs != [] {
      assert Later(m, now);
      ViewGrows(m.s, m.g, cm, now.s, now.g, cn);
    }
  }

  lemma SinceHere(vs: seq<seq<Q.Cell>>, m: Moment, cm: map<int, Q.Cell>, now: Moment)
    requires Keyed(m.s, m.g) == true && Depicts(cm, m.g) == true && Later(m, now) == true
    ensures Since(vs + [Cells(m.s, cm)], m, cm, now) == true
  {
  }

  /** The pairs that the first batch of vs saw; before it, those that are there now. */
  ghost predicate Began(vs: seq<seq<Q.Cell>>, all: set<(int, int)>, now: set<(int, int)>) {
    if vs == [] then now == all else HoldsPairs(vs[0], all)
  }

  /** All that is known of a query between two batches. */
  ghost predicate Progress(c: Q.Qctx, vs: seq<seq<Q.Cell>>, out: seq<Q.Rec>, m: Moment, cm: map<int, Q.Cell>,
                           now: Moment, all: set<(int, int)>, beg: int, end: int, q: seq<bool>, ns: seq<nat>) {
    && Running(c, vs, out, beg, end, q, ns) == true && Since(vs, m, cm, now) == true
    && Began(vs, all, PairsOf(now.s, now.g.sets)) == true
    && Done(out, all, PairsOf(now.s, now.g.sets), false, beg, end, q) == true
  }

  /** One batch of size n on the state `now`, seen as cn. */
  lemma ProgressStep(c: Q.Qctx, vs: seq<seq<Q.Cell>>, out: seq<Q.Rec>, m: Moment, cm: map<int, Q.Cell>, now: Moment,
                     all: set<(int, int)>, cn: map<int, Q.Cell>, beg: int, end: int, q: seq<bool>, ns: seq<nat>, n: nat)
    requires Progress(c, vs, out, m, cm, now, all, beg, end, q, ns) == true && n > 0
    requires Keyed(now.s, now.g) == true && Depicts(cn, now.g) == true
    ensures var v := Cells(now.s, cn); var r := Q.Batch(c, v, beg, end, q, n);
      && Done(out + r.recl, all, PairsOf(now.s, now.g.sets), |r.recl| < n, beg, end, q) == true
      && (|r.recl| >= n ==> Running(Q.Next(r), vs + [v], out + r.recl, beg, end, q, ns + [n]) == true)
      && Began(vs + [v], all, {}) == true
  {
    var v := Cells(now.s, cn);
    ViewGood(now.s, now.g, cn);
    SinceGrows(vs, m, cm, now, cn);
    RunMore(c, vs, out, v, beg, end, q, ns, n);
    var ws, r := vs + [v], Q.Batch(c, v, beg, end, q, n);
    assert ws[0] == (if vs == [] then v else vs[0]) && ws[|ws| - 1] == v;
    assert HoldsPairs(v, PairsOf(now.s, now.g.sets)) && Began(ws, all, {});
    RunMeans(ws, out + r.recl, all, PairsOf(now.s, now.g.sets), beg, end, q, ns + [n]);
  }

  /**
    No pair came twice, each is in range, can be queried and is there now; and all such pairs that were
    there at the start came if the query ended.
   */
  ghost predicate Done(out: seq<Q.Rec>, all: set<(int, int)>, now: set<(int, int)>, ended: bool, beg: int, end: int,
                       q: seq<bool>) {
    && Q.Unique(out) && (forall x :: x in out ==> beg <= x.key <= end && Q.Queryable(q, x.dig) && (x.key, x.dig) in now)
    && (ended ==> forall k, d :: (k, d) in all && beg <= k <= end && Q.Queryable(q, d) ==> Q.Rec(k, d) in out)
  }

  /** The bytes s are a digest whose partition, the low 12 bits of its first two bytes, can be queried. */
  ghost predicate InPartition(s: seq<int>, q: seq<bool>)
    requires |q| == 4096
  {
    |s| == 20 && Digest.AllBytes(s) && q[(s[0] + 256 * s[1]) % 4096]
  }

  /** Done as the 20 bytes of a digest tell it. */
  ghost predicate DoneInBytes(out: seq<Q.Rec>, all: set<(int, int)>, now: set<(int, int)>, ended: bool, beg: int,
                              end: int,
                              q: seq<bool>)
    requires |q| == 4096
  {
    && (forall i, j :: 0 <= i < j < |out| ==> out[i] != out[j])
    && (forall k, s :: |s| == 20 && Digest.AllBytes(s) && Q.Rec(k, Digest.Number(s)) in out ==>
          beg <= k <= end && InPartition(s, q) && (k, Digest.Number(s)) in now)
    && (ended ==>
          forall k, s :: InPartition(s, q) && (k, Digest.Number(s)) in all && beg <= k <= end ==>
            Q.Rec(k, Digest.Number(s)) in out)
  }

  lemma DoneBytes(out: seq<Q.Rec>, all: set<(int, int)>, now: set<(int, int)>, ended: bool, beg: int, end: int,
                  q: seq<bool>)
    requires Done(out, all, now, ended, beg, end, q) == true
    ensures |q| == 4096 ==> DoneInBytes(out, all, now, ended, beg, end, q) == true
  {
    if |q| == 4096 {
      assert Done(out, all, now, ended, beg, end, q);
      forall s | |s| == 20 && Digest.AllBytes(s)
        ensures Q.Queryable(q, Digest.Number(s)) <==> q[(s[0] + 256 * s[1]) % 4096]
      {
        Q.PartitionOfDigest(q, s);
      }
    }
  }

  lemma DoneLater(out: seq<Q.Rec>, all: set<(int, int)>, a: Moment, b: Moment, beg: int, end: int, q: seq<bool>)
    requires Done(out, all, PairsOf(a.s, a.g.sets), false, beg, end, q) == true && Later(a, b) == true
    ensures Done(out, all, PairsOf(b.s, b.g.sets), false, beg, end, q) == true
  {
  }

  /** Puts after a full batch. */
  lemma ProgressPuts(c: Q.Qctx, vs: seq<seq<Q.Cell>>, out: seq<Q.Rec>, m: Moment, cm: map<int, Q.Cell>, now: Moment,
                     all: set<(int, int)>, beg: int, end: int, q: seq<bool>, ns: seq<nat>)
    requires Keyed(m.s, m.g) == true && Depicts(cm, m.g) == true && Later(m, now) == true
    requires Running(c, vs + [Cells(m.s, cm)], out, beg, end, q, ns) == true &&
      Began(vs + [Cells(m.s, cm)], all, {}) == true
    requires Done(out, all, PairsOf(m.s, m.g.sets), false, beg, end, q) == true
    ensures Progress(c, vs + [Cells(m.s, cm)], out, m, cm, now, all, beg, end, q, ns) == true
  {
    SinceHere(vs, m, cm, now);
    DoneLater(out, all, m, now, beg, end, q);
  }

  // ---------------------------------------------------------------- counting

  /** The pairs put in the given rounds. */
  ghost function AllPuts(puts: seq<seq<(int, int)>>): (s: set<(int, int)>) {
    if puts == [] then {} else AllPuts(puts[..|puts| - 1]) + PutSet(puts[|puts| - 1])
  }

  lemma AllPutsMore(before: set<(int, int)>, puts: seq<seq<(int, int)>>, i: nat)
    requires i < |puts|
    ensures before + AllPuts(puts[..i + 1]) == before + AllPuts(puts[..i]) + PutSet(puts[i])
  {
    assert puts[..i + 1][..i] == puts[..i];
  }

  function PutCount(puts: seq<seq<(int, int)>>): (n: nat) {
    if puts == [] then 0 else PutCount(puts[..|puts| - 1]) + |puts[|puts| - 1]|
  }

  lemma {:induction false} PutSetSize(ps: seq<(int, int)>)
    ensures |PutSet(ps)| <= |ps|
  {
    if ps != [] {
      var i := |ps| - 1;
      PutSetSize(ps[..i]);
      PutSetMore({}, ps, i);
      assert ps[..i + 1] == ps && {} + PutSet(ps) == PutSet(ps);
    }
  }

  lemma {:induction false} AllPutsSize(puts: seq<seq<(int, int)>>)
    ensures |AllPuts(puts)| <= PutCount(puts)
  {
    if puts != [] {
      AllPutsSize(puts[..|puts| - 1]);
      PutSetSize(puts[|puts| - 1]);
    }
  }

  lemma {:induction false} PutCountPrefix(puts: seq<seq<(int, int)>>, i: nat)
    requires i <= |puts|
    ensures PutCount(puts[..i]) <= PutCount(puts)
    decreases |puts|
  {
    if i < |puts| {
      var u := puts[..|puts| - 1];
      assert u[..i] == puts[..i];
      PutCountPrefix(u, i);
    } else {
      assert puts[..i] == puts;
    }
  }

  /** The index stays small enough while the puts go on. */
  lemma PairsFit(before: set<(int, int)>, puts: seq<seq<(int, int)>>, i: nat)
    requires i <= |puts| && |before| + PutCount(puts) < MAX_KEYS
    ensures |before + AllPuts(puts[..i])| < MAX_KEYS && |before + AllPuts(puts[..i])| <= |before| + PutCount(puts)
  {
    AllPutsSize(puts[..i]);
    PutCountPrefix(puts, i);
  }

  /** Different pairs of a set are no more than the set has. */
  lemma {:induction false} FewRecs(out: seq<Q.Rec>, now: set<(int, int)>)
    requires Q.Unique(out) && forall x :: x in out ==> (x.key, x.dig) in now
    ensures |out| <= |now|
  {
    if out != [] {
      var u := out[1..];
      forall x | x in u ensures (x.key, x.dig) in now - {(out[0].key, out[0].dig)} {
        var i :| 0 <= i < |u| && u[i] == x;
        assert out[0] != out[i + 1];
      }
      assert Q.Unique(u);
      FewRecs(u, now - {(out[0].key, out[0].dig)});
    }
  }

  /**
    A range query on an index in memory: batches, each followed by any puts, until one is not full or
    the given rounds are over. The puts of the full rounds are in the index. The query returns no pair
    twice and none that is not there, as many as the full batches ask for, and when it ends it has
    returned every pair that was there at the start, lies in range and can be queried. It ends at the
    latest when there are more rounds than pairs.
   */
  method RunQuery(idx: Index, beg: int, end: int, q: seq<bool>, sizes: seq<nat>, puts: seq<seq<(int, int)>>)
    returns (out: seq<Q.Rec>, ended: bool, rounds: nat)
    requires idx.Valid() == true && idx.ibtr.t >= 9 && |idx.pairs| + PutCount(puts) < MAX_KEYS && Q.Sizes(sizes, |puts|)
    modifies idx, idx.g.all
    ensures idx.Valid() == true && rounds <= |puts| && (ended <==> rounds < |puts|)
    ensures idx.pairs == old(idx.pairs) + AllPuts(puts[..rounds])
    ensures Done(out, old(idx.pairs), idx.pairs, ended, beg, end, q) == true && |out| >= Q.Total(sizes[..rounds])
    ensures |q| == 4096 ==> DoneInBytes(out, old(idx.pairs), idx.pairs, ended, beg, end, q) == true
    ensures |puts| > |old(idx.pairs)| + PutCount(puts) ==> ended
  {
    var c := Start();
    out, ended, rounds := [], false, 0;
    ghost var vs: seq<seq<Q.Cell>>, m, cm, all := [], Now(idx), map[], idx.pairs;
    NowPairs(idx);
    NoPuts(all, puts);
    ProgressStart(all, m, cm, beg, end, q, sizes);
    while rounds < |puts|
      invariant idx.Valid() == true && (forall o :: o in idx.g.all ==> o in old(idx.g.all) || fresh(o))
      invariant rounds <= |puts| && idx.pairs == all + AllPuts(puts[..rounds])
      invariant Progress(c, vs, out, m, cm, Now(idx), all, beg, end, q, sizes[..rounds]) == true
      decreases |puts| - rounds
    {
      PairsFit(all, puts, rounds);
      AllPutsMore(all, puts, rounds);
      LongEnough(c, vs, out, m, cm, Now(idx), all, beg, end, q, sizes[..rounds]);
      OneSizeMore(sizes, rounds);
      var full;
      c, out, full, vs, m, cm :=
        Round(idx, c, out, beg, end, q, sizes[rounds], puts[rounds], vs, m, cm, all, sizes[..rounds]);
      if !full {
        ended := true;
        DoneBytes(out, all, idx.pairs, ended, beg, end, q);
        return;
      }
      rounds := rounds + 1;
    }
    NowPairs(idx);
    LongEnough(c, vs, out, m, cm, Now(idx), all, beg, end, q, sizes[..rounds]);
    EnoughRounds(out, all, idx.pairs, beg, end, q, sizes, puts);
    DoneBytes(out, all, idx.pairs, ended, beg, end, q);
  }

  lemma ProgressStart(all: set<(int, int)>, now: Moment, cm: map<int, Q.Cell>, beg: int, end: int, q: seq<bool>,
                      sizes: seq<nat>)
    requires all == PairsOf(now.s, now.g.sets)
    ensures Progress(Start(), [], [], now, cm, now, all, beg, end, q, sizes[..0]) == true
  {
    assert Running(Start(), [], [], beg, end, q, sizes[..0]);
  }

  lemma OneSizeMore(sizes: seq<nat>, i: nat)
    requires i < |sizes|
    ensures sizes[..i] + [sizes[i]] == sizes[..i + 1]
  {
  }

  lemma NoPuts(all: set<(int, int)>, puts: seq<seq<(int, int)>>)
    ensures all == all + AllPuts(puts[..0])
  {
  }

  /** With more rounds than pairs not all batches were full. */
  lemma EnoughRounds(out: seq<Q.Rec>, all: set<(int, int)>, now: set<(int, int)>, beg: int, end: int, q: seq<bool>,
                     sizes: seq<nat>, puts: seq<seq<(int, int)>>)
    requires Done(out, all, now, false, beg, end, q) == true && Q.Sizes(sizes, |puts|) &&
      now == all + AllPuts(puts[..|puts|])
    requires |out| >= Q.Total(sizes[..|puts|]) && |all| + PutCount(puts) < MAX_KEYS
    ensures |puts| <= |all| + PutCount(puts)
  {
    Q.TotalAtLeast(sizes[..|puts|]);
    FewRecs(out, now);
    PairsFit(all, puts, |puts|);
  }

  /** One batch of size n, and the puts after it if it is full. */
  method Round(idx: Index, c: Q.Qctx, out: seq<Q.Rec>, beg: int, end: int, q: seq<bool>, n: nat, ps: seq<(int, int)>,
               ghost vs: seq<seq<Q.Cell>>, ghost m: Moment, ghost cm: map<int, Q.Cell>, ghost all: set<(int, int)>,
               ghost ns: seq<nat>)
    returns (d: Q.Qctx, more: seq<Q.Rec>, full: bool, ghost ws: seq<seq<Q.Cell>>, ghost w: Moment,
             ghost cw: map<int, Q.Cell>)
    requires idx.Valid() == true && idx.ibtr.t >= 9 && |idx.pairs| < MAX_KEYS && n > 0
    requires Progress(c, vs, out, m, cm, Now(idx), all, beg, end, q, ns) == true
    modifies idx, idx.g.all
    ensures idx.Valid() == true && (forall o :: o in idx.g.all ==> o in old(idx.g.all) || fresh(o)) && |more| >= |out|
    ensures full ==> idx.pairs == old(idx.pairs) + PutSet(ps)
    ensures full ==> Progress(d, ws, more, w, cw, Now(idx), all, beg, end, q, ns + [n]) == true
    ensures !full ==> idx.pairs == old(idx.pairs) && Done(more, all, idx.pairs, true, beg, end, q) == true
  {
    assert allocated(idx.g.all);
    d, cw := QueryStep(idx, c, beg, end, q, n);
    w := Now(idx);
    ProgressStep(c, vs, out, m, cm, w, all, cw, beg, end, q, ns, n);
    NowPairs(idx);
    more, full, ws := out + d.recl, |d.recl| >= n, vs + [Cells(w.s, cw)];
    if full {
      d := Q.Next(d);
      PutAll(idx, ps);
      ProgressPuts(d, vs, more, w, cw, Now(idx), all, beg, end, q, ns + [n]);
    }
  }

  lemma LongEnough(c: Q.Qctx, vs: seq<seq<Q.Cell>>, out: seq<Q.Rec>, m: Moment, cm: map<int, Q.Cell>, now: Moment,
                   all: set<(int, int)>, beg: int, end: int, q: seq<bool>, ns: seq<nat>)
    requires Progress(c, vs, out, m, cm, now, all, beg, end, q, ns) == true
    ensures |out| >= Q.Total(ns) && Done(out, all, PairsOf(now.s, now.g.sets), false, beg, end, q) == true
  {
    assert Running(c, vs, out, beg, end, q, ns);
    Q.RunLength(Start(), vs, beg, end, q, ns);
  }
}
