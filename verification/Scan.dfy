/** Range scans and rank scans over the B-tree cursor (ai/src/bt_iterator.c, ai/src/bt_code.c). */
module Scan {
  import opened Wrappers
  import opened Entries
  import opened BtreeSpec
  import opened BtreeOrder
  import opened BtreeNode
  import opened BtreeDepth
  import opened Search
  import opened Btree
  import opened Iterator

  // ---------------------------------------------------------------- what a scan should return

  /** The entries with lo <= key <= hi, in order. */
  ghost function InRange(s: seq<Entry>, lo: int, hi: int): (r: seq<Entry>) {
    if s == [] then [] else (if lo <= s[0].key <= hi then [s[0]] else []) + InRange(s[1..], lo, hi)
  }

  /** From the first key not below k on. */
  ghost function From(s: seq<Entry>, k: int): (r: seq<Entry>) {
    if s == [] || s[0].key >= k then s else From(s[1..], k)
  }

  /** What successive range steps return from s: up to the first key above hi, stopping at hi itself. */
  ghost function Upto(s: seq<Entry>, hi: int): (r: seq<Entry>) {
    if s == [] || s[0].key > hi then [] else
    [s[0]] + if s[0].key == hi then [] else Upto(s[1..], hi)
  }

  lemma {:induction false} FromAt(s: seq<Entry>, j: nat, k: int)
    requires j <= |s| && Below(s[..j], k) && (j < |s| ==> k <= s[j].key)
    ensures From(s, k) == s[j..]
  {
    if j > 0 {
      assert s[..j][0].key < k;
      assert s[1..][..j - 1] == s[..j][1..];
      FromAt(s[1..], j - 1, k);
    }
  }

  lemma {:induction false} FromMid(l: seq<Entry>, m: seq<Entry>, r: seq<Entry>, k: int)
    requires Below(l, k) && Above(r, k)
    ensures From(l + m + r, k) == From(m, k) + r
    decreases |l|, |m|
  {
    var s := l + m + r;
    if l != [] {
      assert s[1..] == l[1..] + m + r;
      FromMid(l[1..], m, r, k);
    } else if m != [] && m[0].key < k {
      assert s[1..] == l + m[1..] + r;
      FromMid(l, m[1..], r, k);
    } else if m == [] {
      assert s == r;
    }
  }

  lemma {:induction false} RangeNone(s: seq<Entry>, lo: int, hi: int)
    requires Above(s, hi)
    ensures InRange(s, lo, hi) == []
  {
    if s != [] {
      RangeNone(s[1..], lo, hi);
    }
  }

  /** Seeking the low end and stepping up to the high end is filtering. */
  lemma {:induction false} UptoIsRange(s: seq<Entry>, lo: int, hi: int)
    requires Sorted(s)
    ensures Upto(From(s, lo), hi) == InRange(s, lo, hi)
  {
    if s != [] {
      UptoIsRange(s[1..], lo, hi);
      if lo <= s[0].key {
        assert From(s[1..], lo) == s[1..];
        if hi <= s[0].key {
          RangeNone(s[1..], lo, hi);
        }
      }
    }
  }

  lemma UptoStep(out: seq<Entry>, s: seq<Entry>, rest: seq<Entry>, hi: int)
    requires s != [] && s[0].key <= hi && rest == if s[0].key == hi then [] else s[1..]
    ensures out + Upto(s, hi) == (out + [s[0]]) + Upto(rest, hi)
  {
  }

  lemma {:induction false} InRangeAll(s: seq<Entry>, lo: int, hi: int)
    requires forall i :: 0 <= i < |s| ==> lo <= s[i].key <= hi
    ensures InRange(s, lo, hi) == s
  {
    if s != [] {
      assert forall i :: 0 <= i < |s[1..]| ==> lo <= s[1..][i].key <= hi;
      InRangeAll(s[1..], lo, hi);
    }
  }

  // ---------------------------------------------------------------- seeking the low end

  datatype Found = Exact | LeafExit | OnlyRight

  lemma FromFound(x: Tree, i: nat, k: int, t: nat, h: nat)
    requires Sound(x, t, h) == true && i < |x.keys| && x.keys[i].key == k
    ensures From(Flat(x), k) == Top(x, i)
  {
    var s := Flat(x);
    assert Shaped(x, t, h);
    var j: nat := i;
    if h > 0 {
      PutFlat(x, i, x.kids[i], 0);
      j := |Before(x, i)| + |Flat(x.kids[i])|;
      assert After(x, i)[0] == x.keys[i];
    }
    assert s[j] == x.keys[i] && s[j..] == Top(x, i);
    FromAt(s, j, k);
  }

  lemma FromLeaf(x: Tree, i: int, k: int, t: nat)
    requires Sound(x, t, 0) == true && -1 <= i < |x.keys| && Between(x, i + 1, k)
    ensures From(Flat(x), k) == x.keys[i + 1..]
  {
    assert Shaped(x, t, 0);
    assert Flat(x) == x.keys;
    FromAt(x.keys, i + 1, k);
  }

  lemma FromChild(x: Tree, i: nat, k: int, t: nat, h: nat)
    requires Sound(x, t, h) == true && h > 0 && |x.kids| == |x.keys| + 1 && Between(x, i, k)
    ensures From(Flat(x), k) == From(Flat(x.kids[i]), k) + After(x, i)
  {
    assert Shaped(x, t, h);
    Surround(x, i, k);
    FromMid(Before(x, i), Flat(x.kids[i]), After(x, i), k);
  }

  /** The cursor is in a subtree that decides which of the entries from k on come first. */
  ghost predicate Seeking(x: Tree, up: seq<Spot>, k: int, onlyRight: bool, all: seq<Entry>) {
    all == From(Flat(x), k) + Tail(up) && (onlyRight ==> Tail(up) == [])
  }

  /** Where the walk to k ended decides what the cursor has in front of it. */
  ghost predicate Sought(x: Tree, f: Slot, tail: seq<Entry>, k: int, ret: Found, all: seq<Entry>) {
    && (x.kids != [] ==> ret == Exact && f.inn == f.ik)
    && (ret == OnlyRight ==> all == [])
    && 0 <= f.ik < |x.keys|
    && all == if ret != Exact && x.keys[f.ik].key < k then (Top(x, f.ik) + tail)[1..] else Top(x, f.ik) + tail
  }

  lemma SeekFound(x: Tree, f: Slot, up: seq<Spot>, k: int, i: int, right: bool, all: seq<Entry>, t: nat, h: nat)
    requires Sound(x, t, h) == true && Hit(x, f, k, i, true) == true && Seeking(x, up, k, right, all) == true
    ensures Sought(x, f, Tail(up), k, Exact, all) == true
  {
    FromFound(x, i, k, t, h);
  }

  lemma SeekLeaf(x: Tree, f: Slot, up: seq<Spot>, k: int, i: int, right: bool, all: seq<Entry>, t: nat)
    requires Sound(x, t, 0) == true && Hit(x, f, k, i, false) == true && Seeking(x, up, k, right, all) == true
    ensures Sought(x, f, Tail(up), k, if right && i == |x.keys| - 1 then OnlyRight else LeafExit, all) == true
  {
    NodeFields(x, t, 0);
    FromLeaf(x, i, k, t);
    LeafStep(x.keys, f.ik, Tail(up));
  }

  lemma SeekDown(x: Tree, f: Slot, up: seq<Spot>, k: int, i: int, right: bool, all: seq<Entry>, t: nat, h: nat)
    requires Sound(x, t, h) == true && h > 0 && Hit(x, f, k, i, false) == true && Seeking(x, up, k, right, all) == true
    ensures 0 <= i + 1 && Inner(Spot(x, i + 1)) && Track(f, Spot(x, i + 1)) == true
    ensures Seeking(x.kids[i + 1], up + [Spot(x, i + 1)], k, right && i == |x.keys| - 1, all) == true
  {
    NodeFields(x, t, h);
    FromChild(x, i + 1, k, t, h);
    TailPush(up, Spot(x, i + 1));
    AfterLast(x);
  }

  /** One round of bt_init_iterator: searches the current node, and steps into a child unless done. */
  method SeekNode(it: Iter, k: int, wasRight: bool, ghost all: seq<Entry>)
    returns (done: bool, ret: Found, onlyRight: bool)
    requires it.Base() == true && it.On() == true && !it.finished
    requires Seeking(it.cur, it.up, k, wasRight, all) == true
    modifies it`nodes, it`bln, it`up, it`cur
    ensures it.Base() == true && it.On() == true
    ensures done ==> Sought(it.cur, it.nodes[it.bln], Tail(it.up), k, ret, all) == true
    ensures !done ==> Seeking(it.cur, it.up, k, onlyRight, all) == true && |it.up| == |old(it.up)| + 1
  {
    var i, found := it.FindSlot(k);
    it.Here();
    ghost var f, h := it.nodes[it.bln], it.b.height - |it.up|;
    var x := it.nodes[it.bln].self;
    onlyRight := wasRight && i == |x.keys| - 1;
    done, ret := true, Exact;
    if found {
      SeekFound(it.cur, f, it.up, k, i, wasRight, all, it.b.t, h);
    } else if x.leaf {
      SeekLeaf(it.cur, f, it.up, k, i, wasRight, all, it.b.t);
      ret := if onlyRight then OnlyRight else LeafExit;
    } else {
      SeekDown(it.cur, f, it.up, k, i, wasRight, all, it.b.t, h);
      it.ToChild(x.kids[i + 1], i + 1);
      done := false;
    }
  }

  /** bt_init_iterator: walks from the root to k, or to the leaf where k would be. */
  method InitIterator(it: Iter, k: int) returns (ret: Found)
    requires it.Base() == true && it.On() == true && !it.finished && it.up == [] && it.cur == it.b.tree
    modifies it`nodes, it`bln, it`up, it`cur
    ensures it.Base() == true && it.On() == true
    ensures Sought(it.cur, it.nodes[it.bln], Tail(it.up), k, ret, From(it.b.Contents(), k)) == true
  {
    var done, onlyRight := false, true;
    ghost var all := From(it.b.Contents(), k);
    done, ret, onlyRight := SeekNode(it, k, true, all);
    while !done
      invariant it.Base() == true && it.On() == true && !it.finished
      invariant if done then Sought(it.cur, it.nodes[it.bln], Tail(it.up), k, ret, all) == true
                else Seeking(it.cur, it.up, k, onlyRight, all) == true
      decreases !done, it.b.height - |it.up|
    {
      it.Here();
      done, ret, onlyRight := SeekNode(it, k, onlyRight, all);
      it.Here();
    }
  }

  // ---------------------------------------------------------------- range scans

  /** setIter: puts the cursor before the first entry not below k; `empty` when there is none. */
  method SetIter(it: Iter, k: int) returns (empty: bool)
    requires it.Base() == true && it.On() == true && !it.finished && it.up == [] && it.cur == it.b.tree
    modifies it`nodes, it`bln, it`finished, it`up, it`cur
    ensures it.Valid() == true
    ensures if empty then From(it.b.Contents(), k) == [] else it.Rest() == From(it.b.Contents(), k)
  {
    var ret := InitIterator(it, k);
    it.Here();
    var f := it.nodes[it.bln];
    empty := false;
    if ret != Exact && Cmp(k, f.self.keys[f.ik].key) > 0 {
      if ret == OnlyRight {
        empty := true;
      } else {
        var _ := it.Next();
      }
    }
  }

  lemma RootKeys(b: BTree)
    requires b.Valid()
    ensures b.numkeys == 0 <==> b.tree.keys == []
    ensures b.Contents() == [] <==> b.tree.keys == []
    ensures Sorted(b.Contents())
  {
    assert Shaped(b.tree, b.t, b.height);
    NodeFields(b.tree, b.t, b.height);
    if b.height > 0 {
      KeysSorted(b.tree, b.t, b.height);
      assert b.tree.keys[0] in Flat(b.tree);
    } else {
      assert Flat(b.tree) == b.tree.keys;
    }
  }

  /** btGetRangeIter: a cursor before the first entry not below low, or null. */
  method GetRangeIter(b: BTree, low: int) returns (it: Iter?)
    requires b.Valid() && b.height < MAX_BTREE_DEPTH
    ensures it == null ==> From(b.Contents(), low) == []
    ensures it != null ==> fresh(it) && it.b == b && it.Valid() == true && it.Rest() == From(b.Contents(), low)
  {
    RootKeys(b);
    if b.numkeys == 0 {
      return null;
    }
    assert allocated(Own(b.tree));
    it := new Iter(b);
    var empty := SetIter(it, low);
    if empty {
      it := null;
    }
  }

  /** btRangeNext: the next entry not above high. */
  method RangeNext(it: Iter, high: int) returns (r: Option<Entry>)
    requires it.Valid() == true
    modifies it
    ensures it.Valid() == true
    ensures r == if old(it.Rest()) == [] || old(it.Rest())[0].key > high then None else Some(old(it.Rest())[0])
    ensures r.Some? ==> it.Rest() == if r.value.key == high then [] else old(it.Rest())[1..]
  {
    r := it.Next();
    if r.Some? {
      if r.value.key == high {
        it.Finish();
      }
      if r.value.key > high {
        r := None;
      }
    }
  }

  /** Steps a cursor until it has no more entries up to high. */
  method Drain(it: Iter, high: int) returns (out: seq<Entry>)
    requires it.Valid() == true
    modifies it
    ensures out == Upto(old(it.Rest()), high)
  {
    out := [];
    ghost var all, rest := Upto(it.Rest(), high), it.Rest();
    while true
      invariant it.Valid() == true && rest == it.Rest() && out + Upto(rest, high) == all
      decreases |rest|
    {
      var r := RangeNext(it, high);
      if r.None? {
        break;
      }
      UptoStep(out, rest, it.Rest(), high);
      out, rest := out + [r.value], it.Rest();
    }
  }

  /** A whole range scan returns exactly the entries between low and high, in order, each once. */
  method RangeScan(b: BTree, low: int, high: int) returns (out: seq<Entry>)
    requires b.Valid() && b.t >= 9 && b.numkeys < 0x1_0000_0000
    ensures out == InRange(b.Contents(), low, high)
  {
    RootKeys(b);
    UptoIsRange(b.Contents(), low, high);
    assert Shaped(b.tree, b.t, b.height);
    DepthBound(b.tree, b.t, b.height);
    var it := GetRangeIter(b, low);
    out := [];
    if it != null {
      out := Drain(it, high);
    }
  }

  // ---------------------------------------------------------------- rank scans

  lemma BeforeStep(x: Tree, i: nat)
    requires |x.kids| == |x.keys| + 1 && i < |x.keys|
    ensures |Before(x, i + 1)| == |Before(x, i)| + |Flat(x.kids[i])| + 1
  {
    PutFlat(x, i, x.kids[i], 0);
    PutFlat(x, i + 1, x.kids[i + 1], 0);
    AfterStep(x, i, []);
  }

  /** Child i of x is where rank ofst lies: at offset o in it, or at the key on its right. */
  ghost predicate AtRank(x: Tree, i: int, o: int, ofst: int) {
    0 <= i <= |x.keys| && |x.kids| == |x.keys| + 1 && 0 <= o && |Before(x, i)| + o == ofst
  }

  lemma RankStart(x: Tree, ofst: nat)
    requires |x.kids| == |x.keys| + 1
    ensures AtRank(x, 0, ofst, ofst) == true
  {
  }

  lemma RankStep(x: Tree, i: int, o: int, ofst: int, t: nat, h: nat)
    requires Sound(x, t, h) == true && h > 0 && AtRank(x, i, o, ofst) == true && ofst < |Flat(x)| && x.kids[i].scion < o
    ensures i < |x.keys| && AtRank(x, i + 1, o - (x.kids[i].scion + 1), ofst) == true
  {
    assert Shaped(x, t, h);
    ScionIsCount(x, t, h);
    PutFlat(x, i, x.kids[i], 0);
    if i < |x.keys| {
      BeforeStep(x, i);
    } else {
      AfterLast(x);
    }
  }

  /** The search stops: either at key i, or in child i with the rest of the offset. */
  lemma RankStop(x: Tree, i: int, o: int, ofst: int, tail: seq<Entry>, t: nat, h: nat)
    requires Sound(x, t, h) == true && h > 0 && AtRank(x, i, o, ofst) == true && ofst < |Flat(x)| &&
      o <= x.kids[i].scion
    ensures o == x.kids[i].scion ==> i < |x.keys| && Flat(x)[ofst..] == Top(x, i)
    ensures o < x.kids[i].scion ==> o < |Flat(x.kids[i])|
    ensures o < x.kids[i].scion ==> Flat(x)[ofst..] + tail == Flat(x.kids[i])[o..] + (After(x, i) + tail)
  {
    assert Shaped(x, t, h);
    ScionIsCount(x, t, h);
    PutFlat(x, i, x.kids[i], 0);
    CutTail(Before(x, i), Flat(x.kids[i]), After(x, i), o, tail);
  }

  lemma CutTail(l: seq<Entry>, m: seq<Entry>, r: seq<Entry>, o: nat, tail: seq<Entry>)
    requires o <= |m|
    ensures (l + m + r)[|l| + o..] == m[o..] + r && m[|m|..] + r == r && m[o..] + r + tail == m[o..] + (r + tail)
  {
  }

  /** The scan over the kids' counters in btScionFind. */
  method RankChild(x: Node, ofst: nat, ghost xt: Tree, t: nat, ghost h: nat) returns (i: nat, o: nat)
    requires x == xt.ref && Sound(xt, t, h) == true && h > 0 && ofst < |Flat(xt)|
    ensures Sound(xt, t, h) == true && AtRank(xt, i, o, ofst) == true && o <= xt.kids[i].scion
  {
    assert allocated(Own(xt));
    NodeFields(xt, t, h);
    RankStart(xt, ofst);
    i, o := 0, ofst;
    assert x.kids[0] == xt.kids[0].ref;
    KidScion(xt, 0, t, h);
    while x.kids[i].scion < o
      invariant Sound(xt, t, h) == true && i < |x.kids| && AtRank(xt, i, o, ofst) == true &&
        x.kids[i].scion == xt.kids[i].scion
      decreases |x.kids| - i
    {
      RankStep(xt, i, o, ofst, t, h);
      i, o := i + 1, o - (x.kids[i].scion + 1);
      KidScion(xt, i, t, h);
    }
  }

  lemma KidScion(x: Tree, i: nat, t: nat, h: nat)
    requires Sound(x, t, h) == true && h > 0 && i <= |x.keys|
    ensures i < |x.kids| == |x.ref.kids| && x.ref.kids[i].scion == x.kids[i].scion && x.ref.kids[i] == x.kids[i].ref
    ensures x.kids[i].scion == |Flat(x.kids[i])|
  {
    assert Shaped(x, t, h);
    ScionIsCount(x, t, h);
    DownReady(x, i, t, h);
    NodeFields(x.kids[i], t, h - 1);
  }

  /** The walk along a leaf's keys at the end of btScionFind. */
  method RankLeaf(it: Iter, ofst: nat)
    requires it.Base() == true && it.On() == true && !it.finished && it.cur.kids == [] && ofst < |Flat(it.cur)|
    modifies it`nodes
    ensures it.Valid() == true && it.Rest() == Flat(it.cur)[ofst..] + Tail(it.up)
  {
    it.Here();
    var n := |it.nodes[it.bln].self.keys|;
    assert Flat(it.cur) == it.cur.keys;
    var fin := if ofst < n then ofst else n;
    var i, cnt := 0, 0;
    while i != fin
      invariant 0 <= i == cnt <= fin
    {
      if cnt >= ofst {
        break;
      }
      cnt := cnt + 1;
      i := i + 1;
    }
    it.SetSlot(i, it.nodes[it.bln].inn);
  }

  /** One level of btScionFind: `down` tells whether the rank lies inside child i. */
  method RankNode(it: Iter, ofst: nat) returns (i: nat, o: nat, down: bool)
    requires it.Base() == true && it.On() == true && !it.finished && it.cur.kids != [] && ofst < |Flat(it.cur)|
    modifies it`nodes
    ensures it.Base() == true && it.On() == true && Inner(Spot(it.cur, i))
    ensures it.nodes[it.bln].self.kids == Refs(it.cur.kids)
    ensures down ==> Track(it.nodes[it.bln], Spot(it.cur, i)) && o < |Flat(it.cur.kids[i])|
    ensures down ==> Flat(it.cur)[ofst..] + Tail(it.up) == Flat(it.cur.kids[i])[o..] + Tail(it.up + [Spot(it.cur, i)])
    ensures !down ==> it.Valid() == true && it.Rest() == Flat(it.cur)[ofst..] + Tail(it.up)
  {
    it.Here();
    ghost var h := it.b.height - |it.up|;
    var x := it.nodes[it.bln].self;
    assert it.b.Valid() && allocated(Own(it.b.tree));
    i, o := RankChild(x, ofst, it.cur, it.b.t, h);
    assert it.b.Valid();
    RankStop(it.cur, i, o, ofst, Tail(it.up), it.b.t, h);
    KidScion(it.cur, i, it.b.t, h);
    TailPush(it.up, Spot(it.cur, i));
    it.Here();
    down := x.kids[i].scion > o;
    it.SetSlot(if i == |x.keys| then i - 1 else i, i);
    it.Here();
  }

  /** btScionFind: puts the cursor on the entry of rank ofst below the current node. */
  method ScionFind(it: Iter, ofst: nat)
    requires it.Base() == true && it.On() == true && !it.finished && ofst < |Flat(it.cur)|
    modifies it`nodes, it`bln, it`up, it`cur
    ensures it.Valid() == true && it.Rest() == Flat(old(it.cur))[ofst..] + Tail(old(it.up))
    decreases it.b.height - |it.up|
  {
    it.Here();
    var x := it.nodes[it.bln].self;
    if x.leaf {
      RankLeaf(it, ofst);
    } else {
      var i, o, down := RankNode(it, ofst);
      if down {
        it.ToChild(it.nodes[it.bln].self.kids[i], i);
        ScionFind(it, o);
      }
    }
  }

  lemma EndKid(x: Tree, i: nat, t: nat, h: nat)
    requires Sound(x, t, h) == true && h > 0 && t >= 2 && i <= |x.keys|
    ensures |x.kids| == |x.keys| + 1 && Flat(x.kids[i]) != []
    ensures Sound(x.kids[i], t, h - 1) == true && x.ref.kids[i] == x.kids[i].ref
  {
    DownReady(x, i, t, h);
    assert Shaped(x.kids[i], t, h - 1);
    KeysSorted(x.kids[i], t, h - 1);
    assert x.kids[i].keys[0] in Flat(x.kids[i]);
  }

  lemma FlatEnds(x: Tree)
    requires |x.kids| == |x.keys| + 1
    ensures Flat(x.kids[0]) != [] ==> Flat(x) != [] && Flat(x)[0] == Flat(x.kids[0])[0]
    ensures var m := Flat(x.kids[|x.keys|]); m != [] ==> Flat(x) != [] && Flat(x)[|Flat(x)| - 1] == m[|m| - 1]
  {
    FlatFirst(x);
    PutFlat(x, |x.keys|, x.kids[|x.keys|], 0);
    AfterLast(x);
  }

  /** bt_min below node x: the smallest key there. */
  method FindMin(x: Node, ghost xt: Tree, ghost t: nat, ghost h: nat) returns (k: int)
    requires t >= 2 && x == xt.ref && Sound(xt, t, h) == true && Flat(xt) != []
    ensures k == Flat(xt)[0].key
    decreases h
  {
    NodeFields(xt, t, h);
    if x.leaf {
      assert Flat(xt) == xt.keys;
      k := x.keys[0].key;
    } else {
      EndKid(xt, 0, t, h);
      FlatEnds(xt);
      k := FindMin(x.kids[0], xt.kids[0], t, h - 1);
    }
  }

  /** bt_max below node x: the greatest key there. */
  method FindMax(x: Node, ghost xt: Tree, ghost t: nat, ghost h: nat) returns (k: int)
    requires t >= 2 && x == xt.ref && Sound(xt, t, h) == true && Flat(xt) != []
    ensures k == Flat(xt)[|Flat(xt)| - 1].key
    decreases h
  {
    NodeFields(xt, t, h);
    if x.leaf {
      assert Flat(xt) == xt.keys;
      k := x.keys[|x.keys| - 1].key;
    } else {
      EndKid(xt, |xt.keys|, t, h);
      FlatEnds(xt);
      k := FindMax(x.kids[|x.keys|], xt.kids[|x.keys|], t, h - 1);
    }
  }

  lemma {:induction false} UptoLast(s: seq<Entry>, hi: int)
    requires Sorted(s) && s != [] && hi == s[|s| - 1].key
    ensures Upto(s, hi) == s
  {
    if |s| > 1 {
      UptoLast(s[1..], hi);
      assert s == [s[0]] + s[1..];
    }
  }

  /** A scan from the smallest to the greatest key returns the whole tree. */
  method FullScan(b: BTree) returns (out: seq<Entry>)
    requires b.Valid() && b.t >= 9 && b.numkeys < 0x1_0000_0000
    ensures out == b.Contents()
  {
    RootKeys(b);
    out := [];
    if b.numkeys > 0 {
      assert allocated(Own(b.tree));
      var lo := FindMin(b.root, b.tree, b.t, b.height);
      var hi := FindMax(b.root, b.tree, b.t, b.height);
      out := RangeScan(b, lo, hi);
      InRangeAll(b.Contents(), lo, hi);
    }
  }

  /** btGetFullXthIter: a cursor on the entry of rank ofst. */
  method GetFullXthIter(b: BTree, ofst: nat) returns (it: Iter)
    requires b.Valid() && b.height < MAX_BTREE_DEPTH && ofst < b.numkeys
    ensures fresh(it) && it.b == b && it.Valid() == true && it.Rest() == b.Contents()[ofst..]
  {
    RootKeys(b);
    it := new Iter(b);
    ScionFind(it, ofst);
  }

  /** A scan from rank ofst on is the full scan without its first ofst entries. */
  method RankScan(b: BTree, ofst: nat) returns (out: seq<Entry>)
    requires b.Valid() && b.t >= 9 && b.numkeys < 0x1_0000_0000 && ofst < b.numkeys
    ensures out == b.Contents()[ofst..]
  {
    RootKeys(b);
    assert Shaped(b.tree, b.t, b.height);
    DepthBound(b.tree, b.t, b.height);
    assert b.Valid() && allocated(Own(b.tree));
    var hi := FindMax(b.root, b.tree, b.t, b.height);
    assert b.Valid();
    UptoLast(b.Contents()[ofst..], hi);
    var it := GetFullXthIter(b, ofst);
    out := Drain(it, hi);
  }
}
