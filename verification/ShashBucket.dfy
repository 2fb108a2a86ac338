/**
  One bucket of the hash of cf/src/shash.c: the first element is part of the table, further ones are
  chained behind it.
 */
module ShashBucket {
  import opened Wrappers

  class Ele {
    var next: Ele?
    var inUse: bool
    var key: int
    var value: int

    constructor (key: int, value: int)
      ensures next == null && inUse && this.key == key && this.value == value
    {
      this.next, this.inUse, this.key, this.value := null, true, key, value;
    }
  }

  // ---------------------------------------------------------------- association lists

  /** The value stored under k. */
  ghost function Look(s: seq<(int, int)>, k: int): (r: Option<int>) {
    if s == [] then None else if s[0].0 == k then Some(s[0].1) else Look(s[1..], k)
  }

  ghost predicate UniqueKeys(s: seq<(int, int)>) {
    s == [] || (Look(s[1..], s[0].0).None? && UniqueKeys(s[1..]))
  }

  lemma {:induction false} LookConcat(a: seq<(int, int)>, b: seq<(int, int)>, k: int)
    ensures Look(a + b, k) == if Look(a, k).Some? then Look(a, k) else Look(b, k)
  {
    if a == [] {
      assert a + b == b;
    } else {
      LookConcat(a[1..], b, k);
      assert (a + b)[1..] == a[1..] + b;
    }
  }

  lemma {:induction false} UniqueConcat(a: seq<(int, int)>, b: seq<(int, int)>)
    ensures UniqueKeys(a + b) <==> UniqueKeys(a) && UniqueKeys(b) && forall k :: Look(a, k).None? || Look(b, k).None?
  {
    if a == [] {
      assert a + b == b;
    } else {
      UniqueConcat(a[1..], b);
      assert (a + b)[1..] == a[1..] + b;
      LookConcat(a[1..], b, a[0].0);
    }
  }

  /** Taking out the entry at i. */
  lemma {:induction false} TakeOut(s: seq<(int, int)>, i: nat)
    requires UniqueKeys(s) && i < |s|
    ensures var r := s[..i] + s[i + 1..];
      && UniqueKeys(r) && Look(r, s[i].0).None? && Look(s, s[i].0) == Some(s[i].1)
      && forall k :: k != s[i].0 ==> Look(r, k) == Look(s, k)
  {
    var r := s[..i] + s[i + 1..];
    if i == 0 {
      assert r == s[1..];
    } else {
      var u := s[1..];
      TakeOut(u, i - 1);
      assert r[0] == s[0] && r[1..] == u[..i - 1] + u[i..];
    }
  }

  /** Replacing the value at i. */
  lemma {:induction false} Replace(s: seq<(int, int)>, i: nat, v: int)
    requires UniqueKeys(s) && i < |s|
    ensures var r := s[i := (s[i].0, v)];
      && UniqueKeys(r) && Look(r, s[i].0) == Some(v) && Look(s, s[i].0).Some?
      && forall k :: k != s[i].0 ==> Look(r, k) == Look(s, k)
  {
    var r := s[i := (s[i].0, v)];
    if i == 0 {
      assert r[1..] == s[1..];
    } else {
      Replace(s[1..], i - 1, v);
      assert r[0] == s[0] && r[1..] == s[1..][i - 1 := (s[i].0, v)];
    }
  }

  /** Adding a new key behind the first entry. */
  lemma AddBehind(s: seq<(int, int)>, k: int, v: int)
    requires UniqueKeys(s) && s != [] && Look(s, k).None?
    ensures var r := [s[0], (k, v)] + s[1..];
      && UniqueKeys(r) && Look(r, k) == Some(v) && forall j :: j != k ==> Look(r, j) == Look(s, j)
  {
    var r := [s[0], (k, v)] + s[1..];
    assert r[1..] == [(k, v)] + s[1..] && r[1..][1..] == s[1..];
  }

  // ---------------------------------------------------------------- the chain in memory

  /** The elements of chain are linked from e on, in use and distinct, and lead to `last`. */
  ghost predicate Seg(e: Ele?, chain: seq<Ele>, last: Ele?)
    reads chain
    decreases chain
  {
    if chain == [] then e == last else
      e == chain[0] && e !in chain[1..] && e.inUse && Seg(e.next, chain[1..], last)
  }

  ghost function Items(chain: seq<Ele>): (s: seq<(int, int)>)
    reads chain
    decreases chain
  {
    if chain == [] then [] else [(chain[0].key, chain[0].value)] + Items(chain[1..])
  }

  /** The bucket that starts at head: an unused head has no chain behind it. */
  ghost predicate Bucket(head: Ele, chain: seq<Ele>)
    reads head, chain
  {
    if chain == [] then !head.inUse && head.next == null else chain[0] == head && Seg(head, chain, null)
  }

  lemma {:induction false} ItemsAt(chain: seq<Ele>)
    ensures |Items(chain)| == |chain| &&
      forall i :: 0 <= i < |chain| ==> Items(chain)[i] == (chain[i].key, chain[i].value)
  {
    if chain != [] {
      ItemsAt(chain[1..]);
    }
  }

  ghost function First(chain: seq<Ele>, last: Ele?): Ele? {
    if chain == [] then last else chain[0]
  }

  /** A chain can be cut anywhere, and put together again when the parts share nothing. */
  lemma {:induction false} SegConcat(e: Ele?, a: seq<Ele>, b: seq<Ele>, last: Ele?)
    ensures Seg(e, a + b, last) <==>
      Seg(e, a, First(b, last)) && Seg(First(b, last), b, last) &&
      forall x :: x in a ==> x !in b
    decreases a
  {
    if a == [] {
      assert a + b == b;
    } else {
      assert (a + b)[1..] == a[1..] + b && (a + b)[0] == a[0];
      SegConcat(a[0].next, a[1..], b, last);
    }
  }

  lemma {:induction false} LookNone(s: seq<(int, int)>, k: int)
    requires forall i :: 0 <= i < |s| ==> s[i].0 != k
    ensures Look(s, k).None?
  {
    if s != [] {
      LookNone(s[1..], k);
    }
  }

  /** The rest of a bucket from element i on. */
  ghost predicate From(e: Ele?, chain: seq<Ele>, i: nat)
    reads chain
  {
    i <= |chain| && Seg(e, chain[i..], null)
  }

  lemma FromStep(e: Ele?, chain: seq<Ele>, i: nat)
    requires From(e, chain, i) && e != null
    ensures i < |chain| && e == chain[i] && e.inUse && From(e.next, chain, i + 1)
  {
    assert chain[i..][1..] == chain[i + 1..];
  }

  /** The search that every operation starts with: the element with key k, and the one before it. */
  method Find(head: Ele, k: int, ghost chain: seq<Ele>) returns (e: Ele?, prev: Ele?, ghost i: nat)
    requires Bucket(head, chain) && UniqueKeys(Items(chain))
    ensures e != null ==> i < |chain| && e == chain[i] && e.key == k && prev == if i == 0 then null else chain[i - 1]
    ensures e == null <==> Look(Items(chain), k).None?
    ensures e == null ==> chain == [] || From(null, chain, |chain|)
  {
    ItemsAt(chain);
    e, prev, i := head, null, 0;
    if !head.inUse {
      return null, null, 0;
    }
    assert chain[0..] == chain;
    while e != null && e.inUse
      invariant From(e, chain, i) && prev == if i == 0 then null else chain[i - 1]
      invariant forall j :: 0 <= j < i ==> chain[j].key != k
      decreases |chain| - i
    {
      FromStep(e, chain, i);
      if e.key == k {
        TakeOut(Items(chain), i);
        return;
      }
      prev, e, i := e, e.next, i + 1;
    }
    if e != null {
      FromStep(e, chain, i);
    }
    LookNone(Items(chain), k);
  }

  method Get(head: Ele, k: int, ghost chain: seq<Ele>) returns (r: Option<int>)
    requires Bucket(head, chain) && UniqueKeys(Items(chain))
    ensures r == Look(Items(chain), k)
  {
    ItemsAt(chain);
    var e, prev; ghost var i;
    e, prev, i := Find(head, k, chain);
    if e == null {
      return None;
    }
    TakeOut(Items(chain), i);
    r := Some(e.value);
  }

  lemma {:induction false} Distinct(e: Ele?, chain: seq<Ele>, last: Ele?)
    requires Seg(e, chain, last)
    ensures forall i, j :: 0 <= i < j < |chain| ==> chain[i] != chain[j]
    decreases chain
  {
    if chain != [] {
      Distinct(chain[0].next, chain[1..], last);
    }
  }

  /** A bucket seen from its element i. */
  lemma Around(head: Ele, chain: seq<Ele>, i: nat)
    requires i < |chain|
    ensures var a, b := chain[..i], chain[i + 1..]; var e := chain[i];
      Seg(head, chain, null) <==>
        && Seg(head, a, e) && e.inUse && Seg(e.next, b, null)
        && e !in a && e !in b && forall x :: x in a ==> x !in b
  {
    var a, b := chain[..i], chain[i + 1..];
    var m := [chain[i]] + b;
    assert chain == a + m && m[1..] == b && m[0] == chain[i];
    SegConcat(head, a, m, null);
    assert chain[i] in m;
  }

  /** Replaces the value of element i. */
  method SetValue(e: Ele, v: int, ghost head: Ele, ghost chain: seq<Ele>, ghost i: nat)
    requires Seg(head, chain, null) && i < |chain| && e == chain[i]
    modifies e
    ensures Seg(head, chain, null) && e.key == old(e.key)
    ensures i < |old(Items(chain))| && Items(chain) == old(Items(chain))[i := (e.key, v)]
  {
    ItemsAt(chain);
    Distinct(head, chain, null);
    Around(head, chain, i);
    ghost var a, b := chain[..i], chain[i + 1..];
    assert allocated(a) && allocated(b);
    e.value := v;
    assert Seg(head, a, e) && Seg(e.next, b, null);
    Around(head, chain, i);
    ItemsAt(chain);
    assert Items(chain) == old(Items(chain))[i := (e.key, v)];
  }

  /** Fills an unused head. */
  method FillHead(head: Ele, k: int, v: int) returns (ghost c: seq<Ele>)
    requires !head.inUse && head.next == null
    modifies head
    ensures c == [head] && Bucket(head, c) && Items(c) == [(k, v)]
  {
    head.key, head.value, head.inUse := k, v, true;
    c := [head];
    assert c[1..] == [];
  }

  /** Inserts a new element just behind the head. */
  method InsertBehind(head: Ele, k: int, v: int, ghost chain: seq<Ele>) returns (ghost c: seq<Ele>)
    requires Bucket(head, chain) && chain != []
    modifies head
    ensures Bucket(head, c) && |c| == |chain| + 1 && (forall x :: x in c ==> x in chain || fresh(x))
    ensures |old(Items(chain))| == |chain| && Items(c) == [old(Items(chain))[0], (k, v)] + old(Items(chain))[1..]
  {
    ItemsAt(chain);
    ghost var rest := chain[1..];
    assert allocated(rest) && Seg(head.next, rest, null);
    var e := new Ele(k, v);
    e.next := head.next;
    head.next := e;
    c := [head, e] + rest;
    assert Seg(e.next, rest, null);
    Linked(head, e, rest);
    ItemsAt(c);
    assert Items(c) == [old(Items(chain))[0], (k, v)] + old(Items(chain))[1..];
  }

  lemma Linked(head: Ele, e: Ele, rest: seq<Ele>)
    requires head.inUse && e.inUse && head.next == e && Seg(e.next, rest, null) && head != e && head !in rest &&
      e !in rest
    ensures Bucket(head, [head, e] + rest)
  {
    var c := [head, e] + rest;
    assert c[1..] == [e] + rest && c[1..][1..] == rest;
  }

  /** What put does: k maps to v, and nothing else changes. */
  ghost predicate Stored(was: seq<(int, int)>, now: seq<(int, int)>, k: int, v: int) {
    && UniqueKeys(now) && Look(now, k) == Some(v) && (forall j :: j != k ==> Look(now, j) == Look(was, j))
    && |now| == |was| + if Look(was, k).None? then 1 else 0
  }

  /** cf_shash_put in its bucket. */
  method Put(head: Ele, k: int, v: int, ghost chain: seq<Ele>) returns (added: bool, ghost c: seq<Ele>)
    requires Bucket(head, chain) && UniqueKeys(Items(chain))
    modifies head, chain
    ensures Bucket(head, c) && (forall x :: x in c ==> x == head || x in chain || fresh(x))
    ensures Stored(old(Items(chain)), Items(c), k, v) && (added <==> Look(old(Items(chain)), k).None?)
  {
    ItemsAt(chain);
    ghost var s := Items(chain);
    if !head.inUse {
      c := FillHead(head, k, v);
      added := true;
      return;
    }
    var e, prev; ghost var i;
    e, prev, i := Find(head, k, chain);
    if e != null {
      Replace(s, i, v);
      SetValue(e, v, head, chain, i);
      return false, chain;
    }
    AddBehind(s, k, v);
    c := InsertBehind(head, k, v, chain);
    added := true;
  }

  /** The items of a chain without its element i. */
  lemma DropItems(chain: seq<Ele>, s: seq<(int, int)>, i: nat)
    requires |s| == |chain| && i < |s| && forall j :: 0 <= j < |s| ==> s[j] == (chain[j].key, chain[j].value)
    ensures Items(chain[..i] + chain[i + 1..]) == s[..i] + s[i + 1..]
  {
    var c, r := chain[..i] + chain[i + 1..], s[..i] + s[i + 1..];
    ItemsAt(c);
    forall j | 0 <= j < |c| ensures Items(c)[j] == r[j] {
      assert c[j] == chain[if j < i then j else j + 1] && r[j] == s[if j < i then j else j + 1];
    }
  }

  /** The chain after prev was made to skip the element behind it. */
  lemma Skipped(head: Ele, a: seq<Ele>, prev: Ele, b: seq<Ele>)
    requires prev.inUse && Seg(head, a, prev) && Seg(prev.next, b, null) && prev !in a && prev !in b &&
      forall x :: x in a ==> x !in b
    requires (a + [prev])[0] == head
    ensures Bucket(head, a + [prev] + b) == true
  {
    var c := a + [prev] + b;
    assert c[..|a|] == a && c[|a| + 1..] == b && c[|a|] == prev;
    Around(head, c, |a|);
  }

  /** An element behind another is unlinked from it. */
  method UnlinkBehind(prev: Ele, e: Ele, ghost head: Ele, ghost chain: seq<Ele>, ghost i: nat)
    returns (ghost c: seq<Ele>)
    requires Bucket(head, chain) && 0 < i < |chain| && e == chain[i] && prev == chain[i - 1]
    modifies prev
    ensures Bucket(head, c) == true && c == chain[..i] + chain[i + 1..]
    ensures |old(Items(chain))| == |chain| && Items(c) == old(Items(chain))[..i] + old(Items(chain))[i + 1..]
  {
    ghost var a, b, s := chain[..i - 1], chain[i + 1..], Items(chain);
    ItemsAt(chain);
    Around(head, chain, i);
    Around(head, chain, i - 1);
    assert forall x :: x in a ==> x in chain[..i];
    assert prev in chain[..i];
    assert allocated(a) && allocated(b);
    prev.next := e.next;
    assert chain[..i] == a + [prev];
    Skipped(head, a, prev, b);
    DropItems(chain, s, i);
    c := chain[..i] + b;
  }

  lemma BehindHead(head: Ele, chain: seq<Ele>)
    requires Bucket(head, chain) && chain != []
    ensures head.inUse && (head.next == null <==> |chain| == 1)
    ensures |chain| > 1 ==>
      head.next == chain[1] && chain[1].inUse && Seg(chain[1].next, chain[2..], null) && head !in chain[2..]
  {
    var c := chain[1..];
    assert Seg(head.next, c, null);
    if c != [] {
      assert c[0] == chain[1] && c[1..] == chain[2..];
    }
  }

  /** The head is emptied, or takes over the element behind it. */
  method UnlinkHead(head: Ele, ghost chain: seq<Ele>) returns (ghost c: seq<Ele>)
    requires Bucket(head, chain) && chain != []
    modifies head
    ensures Bucket(head, c) && c == (if |chain| == 1 then [] else [head] + chain[2..])
    ensures |old(Items(chain))| == |chain| && Items(c) == old(Items(chain))[1..]
  {
    ItemsAt(chain);
    BehindHead(head, chain);
    if head.next == null {
      head.inUse := false;
      c := [];
    } else {
      var n := head.next;
      ghost var b := chain[2..];
      assert allocated(b);
      head.next, head.inUse, head.key, head.value := n.next, n.inUse, n.key, n.value;
      c := [head] + b;
      assert c[1..] == b && Seg(head.next, b, null);
      ItemsAt(c);
      assert Items(c) == old(Items(chain))[1..];
    }
  }

  /** What delete does: k is gone, and nothing else changes. */
  ghost predicate Deleted(was: seq<(int, int)>, now: seq<(int, int)>, k: int) {
    && UniqueKeys(now) && Look(now, k).None? && (forall j :: j != k ==> Look(now, j) == Look(was, j))
    && |now| == |was| - if Look(was, k).Some? then 1 else 0
  }

  /** cf_shash_delete_or_pop in its bucket. */
  method Delete(head: Ele, k: int, ghost chain: seq<Ele>) returns (r: Option<int>, ghost c: seq<Ele>)
    requires Bucket(head, chain) && UniqueKeys(Items(chain))
    modifies head, chain
    ensures Bucket(head, c) && (forall x :: x in c ==> x == head || x in chain)
    ensures Deleted(old(Items(chain)), Items(c), k) && r == Look(old(Items(chain)), k)
  {
    ItemsAt(chain);
    ghost var s := Items(chain);
    var e, prev; ghost var i;
    e, prev, i := Find(head, k, chain);
    if e == null {
      return None, chain;
    }
    TakeOut(s, i);
    r := Some(e.value);
    if prev != null {
      c := UnlinkBehind(prev, e, head, chain, i);
    } else {
      c := UnlinkHead(head, chain);
      assert s[..0] + s[1..] == s[1..];
    }
  }

  // ---------------------------------------------------------------- reduce

  /** What the caller's function answers for an element. */
  datatype Verdict = Keep | Drop | Stop

  /** The elements left, and those shown to the caller's function, whose answers are in plan. */
  ghost function Kept(s: seq<(int, int)>, plan: seq<Verdict>): (r: seq<(int, int)>) {
    if s == [] || plan == [] || plan[0] == Stop then s
    else (if plan[0] == Keep then [s[0]] else []) + Kept(s[1..], plan[1..])
  }

  ghost function Visited(s: seq<(int, int)>, plan: seq<Verdict>): (r: seq<(int, int)>) {
    if s == [] || plan == [] then []
    else [s[0]] + if plan[0] == Stop then [] else Visited(s[1..], plan[1..])
  }

  ghost predicate Stops(s: seq<(int, int)>, plan: seq<Verdict>) {
    s != [] && plan != [] && (plan[0] == Stop || Stops(s[1..], plan[1..]))
  }

  /** The function was shown key k and answered Drop. */
  ghost predicate Dropped(visited: seq<(int, int)>, plan: seq<Verdict>, k: int) {
    exists i :: 0 <= i < |visited| && i < |plan| && visited[i].0 == k && plan[i] == Drop
  }

  lemma DroppedTail(visited: seq<(int, int)>, plan: seq<Verdict>, k: int)
    requires visited != [] && plan != []
    ensures Dropped(visited, plan, k) <==> (visited[0].0 == k && plan[0] == Drop) || Dropped(visited[1..], plan[1..], k)
  {
    var v, p := visited[1..], plan[1..];
    if Dropped(v, p, k) {
      var i :| 0 <= i < |v| && i < |p| && v[i].0 == k && p[i] == Drop;
      assert visited[i + 1].0 == k && plan[i + 1] == Drop;
    }
    if Dropped(visited, plan, k) {
      var i :| 0 <= i < |visited| && i < |plan| && visited[i].0 == k && plan[i] == Drop;
      assert i > 0 ==> v[i - 1].0 == k && p[i - 1] == Drop;
    }
  }

  /** Stopped or not, exactly the elements shown and answered with Drop are gone. */
  lemma {:induction false} KeptUnlessDropped(s: seq<(int, int)>, plan: seq<Verdict>, k: int)
    requires |plan| >= |s| && UniqueKeys(s)
    ensures Look(Kept(s, plan), k) == if Dropped(Visited(s, plan), plan, k) then None else Look(s, k)
    ensures Dropped(Visited(s, plan), plan, k) ==> Look(s, k).Some?
    decreases |s|
  {
    if s != [] {
      var v, r := Visited(s, plan), Kept(s[1..], plan[1..]);
      DroppedTail(v, plan, k);
      if plan[0] == Stop {
        assert v == [s[0]] && v[1..] == [];
      } else {
        assert v[1..] == Visited(s[1..], plan[1..]);
        KeptUnlessDropped(s[1..], plan[1..], k);
        assert [] + r == r;
        if plan[0] == Keep {
          assert ([s[0]] + r)[1..] == r;
        }
      }
    }
  }

  /** A reduce stops exactly when the last answer, and no earlier one, is Stop. */
  lemma {:induction false} StopsLast(s: seq<(int, int)>, plan: seq<Verdict>)
    requires |plan| >= |s|
    ensures var v := Visited(s, plan);
      && |v| <= |s| && (Stops(s, plan) <==> v != [] && plan[|v| - 1] == Stop)
      && forall i :: 0 <= i < |v| - 1 ==> plan[i] != Stop
    decreases |s|
  {
    if s != [] && plan[0] != Stop {
      StopsLast(s[1..], plan[1..]);
      var v, w := Visited(s, plan), Visited(s[1..], plan[1..]);
      assert |v| == |w| + 1;
      forall i | 0 <= i < |v| - 1 ensures plan[i] != Stop {
        assert i > 0 ==> plan[i] == plan[1..][i - 1];
      }
    }
  }

  /** A reduce that is not stopped shows every element once and leaves exactly those not dropped. */
  lemma {:induction false} ReduceMeans(s: seq<(int, int)>, plan: seq<Verdict>)
    requires |plan| >= |s| && UniqueKeys(s)
    ensures UniqueKeys(Kept(s, plan)) && |Kept(s, plan)| <= |s|
    ensures forall k :: Look(Kept(s, plan), k).Some? ==> Look(Kept(s, plan), k) == Look(s, k)
    ensures !Stops(s, plan) ==> Visited(s, plan) == s
    ensures !Stops(s, plan) ==> forall i :: 0 <= i < |s| ==> (Look(Kept(s, plan), s[i].0).Some? <==> plan[i] == Keep)
  {
    if s != [] {
      ReduceMeans(s[1..], plan[1..]);
      var r := Kept(s[1..], plan[1..]);
      assert [] + r == r;
      if plan[0] == Keep {
        assert ([s[0]] + r)[1..] == r;
      }
      if !Stops(s, plan) {
        forall i | 0 <= i < |s| ensures Look(Kept(s, plan), s[i].0).Some? <==> plan[i] == Keep {
          if i > 0 {
            assert s[i] == s[1..][i - 1];
            TakeOut(s[1..], i - 1);
            assert s[i].0 != s[0].0;
          }
        }
      }
    }
  }

  /** The place in a bucket before element i of c. */
  ghost predicate At(head: Ele, e: Ele?, prev: Ele?, c: seq<Ele>, i: nat)
    reads head, c
  {
    && Bucket(head, c) && i <= |c| && prev == (if i == 0 then null else c[i - 1])
    && e == if i < |c| then c[i] else if c == [] then head else null
  }

  lemma AtInUse(head: Ele, e: Ele?, prev: Ele?, c: seq<Ele>, i: nat)
    requires At(head, e, prev, c, i) == true
    ensures e != null && e.inUse <==> i < |c|
    ensures i < |c| ==> e == c[i] && At(head, e.next, e, c, i + 1) == true
    ensures i <= |c| && (prev != null ==> prev in c) && Bucket(head, c) == true
  {
    if i < |c| {
      Around(head, c, i);
      var b := c[i + 1..];
      assert b != [] ==> b[0] == c[i + 1];
    }
  }

  /** Keeps element i and goes on to the next one, or drops it: the place stays before what is left. */
  method Remove(head: Ele, e: Ele, prev: Ele?, ghost c: seq<Ele>, ghost i: nat) returns (next: Ele?, ghost d: seq<Ele>)
    requires At(head, e, prev, c, i) == true && i < |c|
    modifies head, if prev == null then head else prev
    ensures At(head, next, prev, d, i) == true && (forall x :: x in d ==> x == head || x in c)
    ensures |old(Items(c))| == |c| && Items(d) == old(Items(c))[..i] + old(Items(c))[i + 1..]
  {
    ItemsAt(c);
    if prev != null {
      d := UnlinkBehind(prev, e, head, c, i);
      next := prev.next;
      Around(head, d, i - 1);
      ghost var b := d[i..];
      assert b != [] ==> b[0] == d[i];
    } else {
      d := UnlinkHead(head, c);
      next := e;
      assert old(Items(c))[..0] + old(Items(c))[1..] == old(Items(c))[1..];
    }
  }

  /** The loop so far, with `rest` still to be shown. */
  ghost predicate Midway(s: seq<(int, int)>, plan: seq<Verdict>, now: seq<(int, int)>, i: nat, n: nat,
                         visited: seq<(int, int)>) {
    && i <= |now| && n + |now| - i == |s| && n <= |plan|
    && now[..i] + Kept(now[i..], plan[n..]) == Kept(s, plan)
    && visited + Visited(now[i..], plan[n..]) == Visited(s, plan)
    && (Stops(now[i..], plan[n..]) <==> Stops(s, plan))
  }

  lemma MidwayStart(s: seq<(int, int)>, plan: seq<Verdict>)
    ensures Midway(s, plan, s, 0, 0, []) == true
  {
    assert s[0..] == s && plan[0..] == plan && s[..0] + Kept(s, plan) == Kept(s, plan) &&
      [] + Visited(s, plan) == Visited(s, plan);
  }

  /** One element is shown: what comes next, whatever the answer. */
  lemma ShowOne(now: seq<(int, int)>, i: nat, plan: seq<Verdict>, n: nat, visited: seq<(int, int)>)
    requires i < |now| && n < |plan|
    ensures now[i..] == [now[i]] + now[i + 1..] && plan[n..] == [plan[n]] + plan[n + 1..]
    ensures visited + Visited(now[i..], plan[n..]) ==
      (visited + [now[i]]) + if plan[n] == Stop then [] else Visited(now[i + 1..], plan[n + 1..])
  {
    var r, p := now[i..], plan[n..];
    assert r[0] == now[i] && r[1..] == now[i + 1..] && p[0] == plan[n] && p[1..] == plan[n + 1..];
  }

  lemma MidwayKeep(s: seq<(int, int)>, plan: seq<Verdict>, now: seq<(int, int)>, i: nat, n: nat,
                   visited: seq<(int, int)>)
    requires Midway(s, plan, now, i, n, visited) == true && i < |now| && n < |plan| && plan[n] == Keep
    ensures Midway(s, plan, now, i + 1, n + 1, visited + [now[i]]) == true
  {
    ShowOne(now, i, plan, n, visited);
    var k := Kept(now[i + 1..], plan[n + 1..]);
    assert Kept(now[i..], plan[n..]) == [now[i]] + k;
    assert now[..i] + ([now[i]] + k) == now[..i + 1] + k;
  }

  lemma MidwayDrop(s: seq<(int, int)>, plan: seq<Verdict>, now: seq<(int, int)>, i: nat, n: nat,
                   visited: seq<(int, int)>)
    requires Midway(s, plan, now, i, n, visited) == true && i < |now| && n < |plan| && plan[n] == Drop
    ensures Midway(s, plan, now[..i] + now[i + 1..], i, n + 1, visited + [now[i]]) == true
  {
    ShowOne(now, i, plan, n, visited);
    var d, k := now[..i] + now[i + 1..], Kept(now[i + 1..], plan[n + 1..]);
    assert Kept(now[i..], plan[n..]) == [] + k == k;
    assert d[..i] == now[..i] && d[i..] == now[i + 1..];
  }

  lemma MidwayStop(s: seq<(int, int)>, plan: seq<Verdict>, now: seq<(int, int)>, i: nat, n: nat,
                   visited: seq<(int, int)>)
    requires Midway(s, plan, now, i, n, visited) == true && i < |now| && n < |plan| && plan[n] == Stop
    ensures now == Kept(s, plan) && visited + [now[i]] == Visited(s, plan) && Stops(s, plan)
  {
    ShowOne(now, i, plan, n, visited);
    assert now[..i] + now[i..] == now;
  }

  lemma MidwayStep(s: seq<(int, int)>, plan: seq<Verdict>, now: seq<(int, int)>, i: nat, n: nat,
                   visited: seq<(int, int)>)
    requires Midway(s, plan, now, i, n, visited) == true && i < |now| && n < |plan|
    ensures plan[n] == Keep ==> Midway(s, plan, now, i + 1, n + 1, visited + [now[i]]) == true
    ensures plan[n] == Drop ==> Midway(s, plan, now[..i] + now[i + 1..], i, n + 1, visited + [now[i]]) == true
    ensures plan[n] == Stop ==> now == Kept(s, plan) && visited + [now[i]] == Visited(s, plan) && Stops(s, plan)
  {
    match plan[n]
    case Keep => MidwayKeep(s, plan, now, i, n, visited);
    case Drop => MidwayDrop(s, plan, now, i, n, visited);
    case Stop => MidwayStop(s, plan, now, i, n, visited);
  }

  lemma MidwayEnd(s: seq<(int, int)>, plan: seq<Verdict>, now: seq<(int, int)>, n: nat, visited: seq<(int, int)>)
    requires Midway(s, plan, now, |now|, n, visited) == true
    ensures now == Kept(s, plan) && visited == Visited(s, plan) && !Stops(s, plan)
  {
    assert now[..|now|] + [] == now && visited + [] == visited;
  }

  /** Acts on the answer for element i: on to the next one, or to what takes its place. */
  method Answer(head: Ele, e: Ele, prev: Ele?, drop: bool, ghost c: seq<Ele>, ghost i: nat)
    returns (next: Ele?, before: Ele?, ghost d: seq<Ele>, ghost j: nat)
    requires At(head, e, prev, c, i) == true && i < |c| && |Items(c)| == |c|
    modifies head, if prev == null then head else prev
    ensures At(head, next, before, d, j) == true && (forall x :: x in d ==> x == head || x in c)
    ensures j == (if drop then i else i + 1) && |Items(d)| == |d|
    ensures Items(d) == if drop then old(Items(c))[..i] + old(Items(c))[i + 1..] else old(Items(c))
  {
    if drop {
      before, j := prev, i;
      next, d := Remove(head, e, prev, c, i);
      ItemsAt(d);
    } else {
      AtInUse(head, e, prev, c, i);
      next, before, d, j := e.next, e, c, i + 1;
    }
  }

  /** The element at hand is shown, and the three answers to it lead on. */
  lemma ReduceStep(head: Ele, e: Ele, prev: Ele?, c: seq<Ele>, i: nat, s: seq<(int, int)>, plan: seq<Verdict>, n: nat,
                   visited: seq<(int, int)>)
    requires At(head, e, prev, c, i) == true && e.inUse && |Items(c)| == |c| && |plan| >= |s|
    requires Midway(s, plan, Items(c), i, n, visited) == true
    ensures i < |c| && n < |s| && e in c && (prev != null ==> prev in c)
    ensures var now, seen := Items(c), visited + [(e.key, e.value)];
      && (plan[n] == Keep ==> Midway(s, plan, now, i + 1, n + 1, seen) == true)
      && (plan[n] == Drop ==> Midway(s, plan, now[..i] + now[i + 1..], i, n + 1, seen) == true)
      && (plan[n] == Stop ==> now == Kept(s, plan) && seen == Visited(s, plan) && Stops(s, plan))
  {
    AtInUse(head, e, prev, c, i);
    ItemsAt(c);
    MidwayStep(s, plan, Items(c), i, n, visited);
  }

  /** cf_shash_reduce in one bucket; the n-th answer of the caller's function is plan[n]. */
  method Reduce(head: Ele, plan: seq<Verdict>, ghost chain: seq<Ele>)
    returns (stopped: bool, visited: seq<(int, int)>, removed: nat, ghost c: seq<Ele>)
    requires Bucket(head, chain) && |plan| >= |chain|
    modifies head, chain
    ensures Bucket(head, c) == true && (forall x :: x in c ==> x == head || x in chain)
    ensures Items(c) == Kept(old(Items(chain)), plan) && visited == Visited(old(Items(chain)), plan)
    ensures (stopped <==> Stops(old(Items(chain)), plan)) && removed == |old(Items(chain))| - |Items(c)|
  {
    ghost var s := Items(chain);
    ItemsAt(chain);
    MidwayStart(s, plan);
    var e: Ele?, prev: Ele?, n := head, null, 0;
    ghost var i: nat;
    i, c, visited, removed, stopped := 0, chain, [], 0, false;
    while e != null && e.inUse
      invariant At(head, e, prev, c, i) == true && (forall x :: x in c ==> x == head || x in chain)
      invariant |Items(c)| == |c| && 0 <= n <= |s| && removed == |s| - |c|
      invariant Midway(s, plan, Items(c), i, n, visited) == true
      decreases |s| - n
    {
      ReduceStep(head, e, prev, c, i, s, plan, n, visited);
      visited := visited + [(e.key, e.value)];
      if plan[n] == Stop {
        stopped := true;
        return;
      }
      if plan[n] == Drop {
        removed := removed + 1;
      }
      e, prev, c, i := Answer(head, e, prev, plan[n] == Drop, c, i);
      n := n + 1;
    }
    AtInUse(head, e, prev, c, i);
    MidwayEnd(s, plan, Items(c), n, visited);
  }

  /** cf_shash_delete_all in one bucket: the elements behind the head are counted off, then the head. */
  method Clear(head: Ele, ghost chain: seq<Ele>) returns (n: nat)
    requires Bucket(head, chain)
    modifies head
    ensures Bucket(head, []) && n == |chain|
  {
    n := 0;
    var e := head.next;
    ghost var i := 1;
    if chain != [] {
      assert chain[0..] == chain;
      FromStep(head, chain, 0);
    }
    while e != null
      invariant Bucket(head, chain) && (head.inUse <==> chain != [])
      invariant if chain == [] then e == null && n == 0 else From(e, chain, i) && n == i - 1
      decreases |chain| - i
    {
      FromStep(e, chain, i);
      e, n, i := e.next, n + 1, i + 1;
    }
    assert chain != [] ==> chain[i..] == [];
    if head.inUse {
      head.inUse, head.next, n := false, null, n + 1;
    }
  }
}
