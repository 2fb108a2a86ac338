/**
  The digests of one secondary-index key (ai/src/ai_btree.c): an unsorted array that doubles and halves,
  turned into a nested B-tree once it holds AI_ARR_MAX_USED digests.
 */
module Nested {
  import opened Entries
  import opened BtreeSpec
  import opened BtreeOrder
  import opened Btree
  import opened BtreeDelete

  const AI_ARR_MAX_USED := 32
  const AI_ARR_MAX_SIZE := 255
  const INIT_CAPACITY := 1
  const CF_DIGEST_KEY_SZ := 20
  const SIZEOF_ARR := 2
  const SIZEOF_NBTR := 9
  /** Slots of a node of a nested tree, and their size. */
  const NBTR_SLOTS := 18

  // ---------------------------------------------------------------- the array

  /** The used part of the buffer, and the digests it has room for. */
  datatype Arr = Arr(data: seq<int>, capacity: int)

  ghost predicate NoDup(s: seq<int>) {
    forall i, j :: 0 <= i < j < |s| ==> s[i] != s[j]
  }

  ghost function Elems(s: seq<int>): (r: set<int>) {
    set x | x in s
  }

  ghost predicate ArrOk(a: Arr) {
    NoDup(a.data) && |a.data| <= a.capacity && a.capacity in {1, 2, 4, 8, 16, 32}
  }

  function ArrSize(a: Arr): int {
    SIZEOF_ARR + a.capacity * CF_DIGEST_KEY_SZ
  }

  /** ai_arr_find: the slot of d, or -1. */
  method ArrFind(a: Arr, d: int) returns (idx: int)
    ensures -1 <= idx < |a.data| && (idx >= 0 ==> a.data[idx] == d) && (idx < 0 <==> d !in a.data)
  {
    for i := 0 to |a.data|
      invariant d !in a.data[..i]
    {
      if a.data[i] == d {
        return i;
      }
    }
    idx := -1;
  }

  /** ai_arr_shrink: halves a buffer that stays at most half full. */
  method ArrShrink(a: Arr) returns (r: Arr)
    requires ArrOk(a)
    ensures ArrOk(r) && r.data == a.data
    ensures r.capacity == if a.capacity > 4 && 4 * |a.data| <= a.capacity then a.capacity / 2 else a.capacity
  {
    var size := a.capacity / 2;
    r := if a.capacity <= 4 || size < |a.data| * 2 then a else a.(capacity := size);
  }

  /** ai_arr_delete: the last digest takes the place of d. */
  method ArrDelete(a: Arr, d: int) returns (r: Arr, notfound: bool)
    requires ArrOk(a)
    ensures ArrOk(r) && (notfound <==> d !in a.data)
    ensures notfound ==> r == a
    ensures !notfound ==> |r.data| == |a.data| - 1 && Elems(r.data) == Elems(a.data) - {d}
    ensures !notfound ==>
      r.capacity == if a.capacity > 4 && 4 * |r.data| <= a.capacity then a.capacity / 2 else a.capacity
  {
    var idx := ArrFind(a, d);
    notfound := idx < 0;
    r := a;
    if !notfound {
      var n := |a.data| - 1;
      var data := if idx != n then a.data[idx := a.data[n]][..n] else a.data[..n];
      Moved(a.data, idx, data);
      r := ArrShrink(a.(data := data));
    }
  }

  lemma {:induction false} ElemsSize(s: seq<int>)
    requires NoDup(s)
    ensures |Elems(s)| == |s|
  {
    if s != [] {
      var u := s[..|s| - 1];
      ElemsSize(u);
      assert Elems(s) == Elems(u) + {s[|s| - 1]};
    }
  }

  lemma Moved(s: seq<int>, i: nat, r: seq<int>)
    requires NoDup(s) && i < |s| && |r| == |s| - 1
    requires forall j :: 0 <= j < |r| ==> r[j] == if j == i then s[|r|] else s[j]
    ensures NoDup(r) && Elems(r) == Elems(s) - {s[i]}
  {
    forall x | x in s && x != s[i] ensures x in r {
      var j :| 0 <= j < |s| && s[j] == x;
      assert x == r[if j == |r| then i else j];
    }
  }

  /** ai_arr_expand: doubles the buffer; the limit is never reached. */
  method ArrExpand(a: Arr) returns (r: Arr)
    requires a.capacity * 2 <= AI_ARR_MAX_SIZE
    ensures r == a.(capacity := 2 * a.capacity)
  {
    var size := a.capacity * 2;
    r := a.(capacity := size);
  }

  /** ai_arr_insert: appends a new digest. */
  method ArrInsert(a: Arr, d: int) returns (r: Arr, found: bool)
    requires ArrOk(a) && |a.data| < AI_ARR_MAX_USED
    ensures ArrOk(r) && (found <==> d in a.data)
    ensures r.data == if found then a.data else a.data + [d]
    ensures found ==> r == a
    ensures !found ==> r.capacity == if |a.data| == a.capacity then 2 * a.capacity else a.capacity
  {
    var idx := ArrFind(a, d);
    r, found := a, idx >= 0;
    if !found {
      if |a.data| == a.capacity {
        r := ArrExpand(a);
      }
      r := r.(data := a.data + [d]);
    }
  }

  // ---------------------------------------------------------------- keys of a tree as a set

  ghost function KeySet(s: seq<Entry>): (r: set<int>) {
    set e | e in s :: e.key
  }

  lemma KeySetHas(s: seq<Entry>, k: int)
    ensures k in KeySet(s) <==> Has(s, k)
  {
    if k in KeySet(s) {
      var e :| e in s && e.key == k;
    }
    if Has(s, k) {
      var i :| 0 <= i < |s| && s[i].key == k;
      assert s[i] in s;
    }
  }

  lemma KeySetIns(s: seq<Entry>, e: Entry)
    requires Sorted(s) && !Has(s, e.key)
    ensures KeySet(Ins(s, e)) == KeySet(s) + {e.key}
  {
    InsMeaning(s, e);
    var r := Ins(s, e);
    forall x ensures x in r <==> x in s || x == e {
      assert x in r <==> x in multiset(r);
      assert x in s <==> x in multiset(s);
    }
  }

  lemma KeySetDel(s: seq<Entry>, k: int)
    ensures KeySet(Del(s, k)) == KeySet(s) - {k}
  {
    DelMembers(s, k);
  }

  /** A valid nested tree with the given digests. */
  ghost predicate Holds(r: BTree, d: set<int>)
    reads r, Own(r.tree)
  {
    r.Valid() && r.t == 9 && r.kbyte == 368 && r.nbyte == 520 && KeySet(r.Contents()) == d
  }

  /** btIndNodeAdd: puts a new digest into a nested tree. */
  method NodeAdd(r: BTree, d: int, ghost held: set<int>)
    requires Holds(r, held) == true && d !in held
    modifies r, Own(r.tree)
    ensures Holds(r, held + {d}) == true
    ensures forall n :: n in Own(r.tree) ==> n in old(Own(r.tree)) || fresh(n)
  {
    assert Shaped(r.tree, r.t, r.height);
    KeySetHas(r.Contents(), d);
    KeySetIns(r.Contents(), Entry(d, 0));
    r.Insert(Entry(d, 0));
  }

  /** createNBT: an empty nested tree. */
  method CreateNBT() returns (r: BTree)
    ensures fresh(r) && Holds(r, {}) == true && (forall n :: n in Own(r.tree) ==> fresh(n)) && r.msize == 440
  {
    r := new BTree(NBTR_SLOTS, CF_DIGEST_KEY_SZ);
  }

  lemma ElemsPrefix(s: seq<int>, i: nat)
    requires NoDup(s) && i < |s|
    ensures s[i] !in Elems(s[..i]) && Elems(s[..i + 1]) == Elems(s[..i]) + {s[i]}
  {
    assert s[..i + 1] == s[..i] + [s[i]];
  }

  /** The tree that replaces an array. */
  method NewTree(data: seq<int>) returns (r: BTree)
    requires NoDup(data)
    ensures fresh(r) && Holds(r, Elems(data)) == true && (forall n :: n in Own(r.tree) ==> fresh(n))
  {
    r := CreateNBT();
    MoveToTree(data, r);
  }

  /** ai_arr_move_to_tree: puts the digests of an array into an empty tree. */
  method MoveToTree(data: seq<int>, r: BTree)
    requires NoDup(data) && Holds(r, {}) == true
    modifies r, Own(r.tree)
    ensures Holds(r, Elems(data)) == true && (forall n :: n in Own(r.tree) ==> n in old(Own(r.tree)) || fresh(n))
  {
    for i := 0 to |data|
      invariant Holds(r, Elems(data[..i])) == true
      invariant forall n :: n in Own(r.tree) ==> n in old(Own(r.tree)) || fresh(n)
    {
      ElemsPrefix(data, i);
      NodeAdd(r, data[i], Elems(data[..i]));
    }
    assert data[..|data|] == data;
  }

  /** btIndNodeDelete: takes a digest out of a nested tree. */
  method NodeDelete(r: BTree, d: int, ghost held: set<int>)
    requires Holds(r, held) == true && d in held
    modifies r, Own(r.tree)
    ensures Holds(r, held - {d}) == true
    ensures forall n :: n in Own(r.tree) ==> n in old(Own(r.tree))
  {
    assert Shaped(r.tree, r.t, r.height);
    KeySetHas(r.Contents(), d);
    KeySetDel(r.Contents(), d);
    Remove(r, Entry(d, 0));
  }

  method NodeExist(r: BTree, d: int, ghost held: set<int>) returns (yes: bool)
    requires Holds(r, held) == true
    ensures Holds(r, held) == true && (yes <==> d in held)
  {
    KeySetHas(r.Contents(), d);
    assert allocated(Own(r.tree));
    yes := r.Exists(d);
  }

  // ---------------------------------------------------------------- the hybrid

  class Nbtr {
    var arr: Arr
    var nbtr: BTree?

    /** The objects it may change: itself, its tree and the tree's nodes. */
    ghost var Repr: set<object>

    /** nbtr is null while the digests are in the array (is_btree is 0). */
    ghost predicate Valid()
      reads this, Repr
    {
      && this in Repr
      && (nbtr != null ==>
            && nbtr in Repr && (forall n :: n in Own(nbtr.tree) ==> n in Repr)
            && Holds(nbtr, KeySet(nbtr.Contents())) == true)
      && (nbtr == null ==> ArrOk(arr))
    }

    ghost function Digests(): set<int>
      reads this, nbtr
    {
      if nbtr == null then Elems(arr.data) else KeySet(nbtr.Contents())
    }

    /** Bytes charged to the index for it: the header, and the array or the tree. */
    function Weight(): (w: int)
      reads this, nbtr
      ensures nbtr == null ==> w == 11 + 20 * arr.capacity
      ensures nbtr != null ==> w == 9 + nbtr.msize
    {
      SIZEOF_NBTR + if nbtr == null then ArrSize(arr) else nbtr.msize
    }

    /** A new, empty array. */
    constructor ()
      ensures Valid() && fresh(Repr) && nbtr == null && Digests() == {} && arr == Arr([], 1) && Weight() == 31
    {
      arr, nbtr := Arr([], INIT_CAPACITY), null;
      Repr := {this};
    }

    method IsEmpty() returns (yes: bool)
      requires Valid()
      ensures yes <==> Digests() == {}
    {
      if nbtr == null {
        yes := |arr.data| == 0;
        if !yes {
          assert arr.data[0] in Elems(arr.data);
        }
      } else {
        yes := nbtr.numkeys == 0;
        if !yes {
          assert nbtr.Contents()[0].key in KeySet(nbtr.Contents());
        }
      }
    }

    /** anbtr_check_convert: turns a full array into a tree. */
    method CheckConvert() returns (diff: int)
      requires Valid()
      modifies Repr
      ensures Valid() && fresh(Repr - old(Repr)) && Digests() == old(Digests())
      ensures diff == Weight() - old(Weight()) && (nbtr == null ==> |arr.data| < AI_ARR_MAX_USED)
      ensures nbtr != null <==> old(nbtr) != null || |old(arr).data| >= AI_ARR_MAX_USED
      ensures nbtr == null ==> arr == old(arr)
    {
      diff := 0;
      if nbtr == null && |arr.data| >= AI_ARR_MAX_USED {
        var ba := ArrSize(arr);
        var r := NewTree(arr.data);
        nbtr := r;
        Repr := {this, r} + (set n | n in Own(r.tree));
        diff := r.msize - ba;
      }
    }

    /** The insertion part of reduced_iAdd. */
    method Put(d: int) returns (found: bool, diff: int)
      requires Valid() && (nbtr == null ==> |arr.data| < AI_ARR_MAX_USED)
      modifies Repr
      ensures Valid() && fresh(Repr - old(Repr)) && Digests() == old(Digests()) + {d}
      ensures (found <==> d in old(Digests())) && diff == Weight() - old(Weight()) && nbtr == old(nbtr)
      ensures nbtr == null ==> arr.data == if found then old(arr).data else old(arr).data + [d]
      ensures nbtr == null ==>
        arr.capacity == if !found && |old(arr).data| == old(arr).capacity then 2 * old(arr).capacity
                        else old(arr).capacity
    {
      ghost var held := Digests();
      diff := 0;
      if nbtr != null {
        found := NodeExist(nbtr, d, held);
        if !found {
          var ba := nbtr.msize;
          NodeAdd(nbtr, d, held);
          diff := nbtr.msize - ba;
          Repr := Repr + (set n | n in Own(nbtr.tree));
        }
      } else {
        var a;
        var ba := ArrSize(arr);
        a, found := ArrInsert(arr, d);
        if !found {
          arr := a;
          diff := ArrSize(arr) - ba;
        }
      }
    }

    /** The deletion part of reduced_iRem. */
    method Take(d: int) returns (notfound: bool, diff: int)
      requires Valid()
      modifies Repr
      ensures Valid() && Repr == old(Repr) && Digests() == old(Digests()) - {d}
      ensures (notfound <==> d !in old(Digests())) && diff == Weight() - old(Weight()) && nbtr == old(nbtr)
      ensures nbtr == null ==>
        arr.capacity == if !notfound && old(arr).capacity > 4 && 4 * |arr.data| <= old(arr).capacity
                        then old(arr).capacity / 2 else old(arr).capacity
    {
      ghost var held := Digests();
      diff := 0;
      if nbtr != null {
        var yes := NodeExist(nbtr, d, held);
        notfound := !yes;
        if yes {
          var ba := nbtr.msize;
          NodeDelete(nbtr, d, held);
          diff := nbtr.msize - ba;
        }
      } else {
        var ba := ArrSize(arr);
        arr, notfound := ArrDelete(arr, d);
        diff := ArrSize(arr) - ba;
      }
    }
  }
}
