/** The byte counters of cf/src/alloc.c: one two-word counter for each pair of a thread and an allocation site. */
module Accounting {
  import opened Bytes
  import opened Hooks

  /** A site_info record. */
  datatype Info = Info(site: nat, thread: nat, hi: nat, lo: nat)

  ghost predicate Fits(i: Info) {
    i.hi < M64 && i.lo < M64
  }

  ghost function Value(i: Info): nat {
    M64 * i.hi + i.lo
  }

  /** The allocation hook's addition with carry. */
  function Added(i: Info, n: nat): (r: Info) {
    var lo := (i.lo + n) % M64;
    i.(lo := lo, hi := if lo < i.lo then (i.hi + 1) % M64 else i.hi)
  }

  /** The free hook's subtraction with borrow. */
  function Removed(i: Info, n: nat): (r: Info) {
    var lo := (i.lo - n) % M64;
    i.(lo := lo, hi := if lo > i.lo then (i.hi - 1) % M64 else i.hi)
  }

  lemma AddedValue(i: Info, n: nat)
    requires Fits(i) && n < M64
    ensures Fits(Added(i, n)) && (Value(Added(i, n)) == Value(i) + n || Value(Added(i, n)) == Value(i) + n - M128)
  {
  }

  lemma RemovedValue(i: Info, n: nat)
    requires Fits(i) && n < M64
    ensures Fits(Removed(i, n)) && (Value(Removed(i, n)) == Value(i) - n || Value(Removed(i, n)) == Value(i) - n + M128)
  {
  }

  // ---------------------------------------------------------------- sums

  /** All threads' counters for a site. */
  ghost function SiteSum(infos: seq<Info>, s: nat): int {
    if infos == [] then 0
    else SiteSum(infos[..|infos| - 1], s) + if infos[|infos| - 1].site == s then Value(infos[|infos| - 1]) else 0
  }

  lemma {:induction false} SumUpdate(infos: seq<Info>, k: nat, i: Info, s: nat)
    requires k < |infos| && i.site == infos[k].site
    ensures SiteSum(infos[k := i], s) == SiteSum(infos, s) + if i.site == s then Value(i) - Value(infos[k]) else 0
  {
    var n := |infos| - 1;
    if k < n {
      assert infos[k := i][..n] == infos[..n][k := i];
      SumUpdate(infos[..n], k, i, s);
    } else {
      assert infos[k := i][..n] == infos[..n];
    }
  }

  lemma SumAppend(infos: seq<Info>, i: Info, s: nat)
    requires Value(i) == 0
    ensures SiteSum(infos + [i], s) == SiteSum(infos, s)
  {
    assert (infos + [i])[..|infos|] == infos;
  }

  /** A live block: the site it was allocated at and the size asked for. */
  datatype Live = Live(block: array<Octet>, site: nat, sz: nat)

  /** The bytes of the blocks allocated at a site and not freed, in usable sizes. */
  ghost function LiveBytes(live: seq<Live>, s: nat): int {
    if live == [] then 0
    else LiveBytes(live[..|live| - 1], s) + if live[|live| - 1].site == s then live[|live| - 1].block.Length else 0
  }

  lemma LiveAppend(live: seq<Live>, l: Live, s: nat)
    ensures LiveBytes(live + [l], s) == LiveBytes(live, s) + if l.site == s then l.block.Length else 0
  {
    assert (live + [l])[..|live|] == live;
  }

  ghost function Without(live: seq<Live>, j: nat): (r: seq<Live>)
    requires j < |live|
  {
    live[..j] + live[j + 1..]
  }

  lemma {:induction false} LiveRemove(live: seq<Live>, j: nat, s: nat)
    requires j < |live|
    ensures LiveBytes(Without(live, j), s) == LiveBytes(live, s) - if live[j].site == s then live[j].block.Length else 0
  {
    var n := |live| - 1;
    if j < n {
      LiveRemove(live[..n], j, s);
      assert Without(live, j) == Without(live[..n], j) + [live[n]];
      LiveAppend(Without(live[..n], j), live[n], s);
    } else {
      assert Without(live, j) == live[..n];
    }
  }

  /** The counters of all threads add up to the live bytes of the site, modulo the width of a counter. */
  ghost predicate Balanced(infos: seq<Info>, live: seq<Live>, s: nat) {
    (SiteSum(infos, s) - LiveBytes(live, s)) % M128 == 0
  }

  lemma Wrap(a: int)
    requires a % M128 == 0
    ensures (a - M128) % M128 == 0 && (a + M128) % M128 == 0
  {
  }

  lemma BalancedAdd(infos: seq<Info>, k: nat, live: seq<Live>, l: Live, s: nat)
    requires k < |infos| && infos[k].site == l.site && Fits(infos[k]) && l.block.Length < M64 &&
      Balanced(infos, live, s)
    ensures Balanced(infos[k := Added(infos[k], l.block.Length)], live + [l], s)
  {
    SumUpdate(infos, k, Added(infos[k], l.block.Length), s);
    LiveAppend(live, l, s);
    AddedValue(infos[k], l.block.Length);
    Wrap(SiteSum(infos, s) - LiveBytes(live, s));
  }

  lemma BalancedRemove(infos: seq<Info>, k: nat, live: seq<Live>, j: nat, s: nat)
    requires k < |infos| && j < |live| && infos[k].site == live[j].site && Fits(infos[k]) && live[j].block.Length < M64
    requires Balanced(infos, live, s)
    ensures Balanced(infos[k := Removed(infos[k], live[j].block.Length)], Without(live, j), s)
  {
    SumUpdate(infos, k, Removed(infos[k], live[j].block.Length), s);
    LiveRemove(live, j, s);
    RemovedValue(infos[k], live[j].block.Length);
    Wrap(SiteSum(infos, s) - LiveBytes(live, s));
  }

  // ---------------------------------------------------------------- the hooks

  /** Each thread's record for a site is its own; record 0 stands for none. */
  ghost predicate Indexed(infos: seq<Info>, table: map<(nat, nat), nat>) {
    && |infos| > 0
    && (forall k :: 0 <= k < |infos| ==> Fits(infos[k]))
    && (forall p :: p in table ==>
      0 < table[p] < |infos| && infos[table[p]].thread == p.0 && infos[table[p]].site == p.1)
  }

  ghost predicate AllBalanced(infos: seq<Info>, live: seq<Live>) {
    forall s: nat :: Balanced(infos, live, s)
  }

  /** No block is live twice. */
  ghost predicate Distinct(live: seq<Live>) {
    forall i, j :: 0 <= i < j < |live| ==> live[i].block != live[j].block
  }

  /** And each is guarded. */
  ghost predicate Sound(live: seq<Live>)
    reads set l | l in live :: l.block
  {
    && Distinct(live) && (forall l :: l in live ==> l.block.Length < M64 && Guarded(l.block[..], l.site, l.sz))
  }

  /**
    One record went up or down by n modulo 2^128: that of the thread for the site, which was 0 if it is new. No other
    record changed, and every thread keeps its records.
   */
  ghost predicate Moved(was: seq<Info>, tab: map<(nat, nat), nat>, infos: seq<Info>, table: map<(nat, nat), nat>,
                        thread: nat, site: nat, up: bool, n: nat) {
    && (thread, site) in table && table == tab[(thread, site) := table[(thread, site)]]
    && var id := table[(thread, site)];
    && id < |infos| && infos[id].thread == thread && infos[id].site == site
    && |infos| == (if (thread, site) in tab then |was| else |was| + 1)
    && (forall k :: 0 <= k < |was| && k != id ==> infos[k] == was[k])
    && ((thread, site) in tab ==> id < |was|) && ((thread, site) !in tab ==> id == |was|)
    && var before := if id < |was| then 0x1_0000_0000_0000_0000 * was[id].hi + was[id].lo else 0;
    && infos[id].hi < 0x1_0000_0000_0000_0000 && infos[id].lo < 0x1_0000_0000_0000_0000
    && var after := 0x1_0000_0000_0000_0000 * infos[id].hi + infos[id].lo;
    && (if up then after - before - n else before - after - n) % 0x1_0000_0000_0000_0000_0000_0000_0000_0000 == 0
  }

  /** The record of a thread for a site, as it was or new and empty. */
  ghost predicate Looked(was: seq<Info>, tab: map<(nat, nat), nat>, infos: seq<Info>, table: map<(nat, nat), nat>,
                         thread: nat, site: nat, id: nat) {
    && table == tab[(thread, site) := id] && id < |infos| && Fits(infos[id])
    && infos[id].thread == thread && infos[id].site == site
    && ((thread, site) in tab ==> id < |was| && infos == was)
    && ((thread, site) !in tab ==> id == |was| && infos == was + [Info(site, thread, 0, 0)])
  }

  lemma MovedUp(was: seq<Info>, tab: map<(nat, nat), nat>, infos: seq<Info>, table: map<(nat, nat), nat>, thread: nat,
                site: nat, id: nat, n: nat)
    requires Looked(was, tab, infos, table, thread, site, id) == true && n < M64 && id < |infos|
    ensures Moved(was, tab, infos[id := Added(infos[id], n)], table, thread, site, true, n) == true
  {
    assert Looked(was, tab, infos, table, thread, site, id);
    AddedValue(infos[id], n);
  }

  lemma MovedDown(was: seq<Info>, tab: map<(nat, nat), nat>, infos: seq<Info>, table: map<(nat, nat), nat>, thread: nat,
                  site: nat, id: nat, n: nat)
    requires Looked(was, tab, infos, table, thread, site, id) == true && n < M64 && id < |infos|
    ensures Moved(was, tab, infos[id := Removed(infos[id], n)], table, thread, site, false, n) == true
  {
    assert Looked(was, tab, infos, table, thread, site, id);
    RemovedValue(infos[id], n);
  }

  class Counters {
    var infos: seq<Info>
    var table: map<(nat, nat), nat>
    ghost var live: seq<Live>

    ghost predicate Valid()
      reads this, set l | l in live :: l.block
    {
      Indexed(infos, table) && AllBalanced(infos, live) && Sound(live)
    }

    constructor ()
      ensures Valid() && live == []
    {
      infos, table, live := [Info(0, 0, 0, 0)], map[], [];
      new;
      forall s: nat ensures Balanced(infos, live, s) {
        SumAppend([], infos[0], s);
        assert [] + [infos[0]] == infos;
      }
    }

    /** hook_get_site_info_id: the record of this thread for the site, new and empty the first time. */
    method SiteInfo(thread: nat, site: nat) returns (id: nat)
      requires Indexed(infos, table) && AllBalanced(infos, live)
      modifies this`infos, this`table
      ensures Indexed(infos, table) && AllBalanced(infos, live)
      ensures 0 < id < |infos| && infos[id].thread == thread && infos[id].site == site && (thread, site) in table &&
        table[(thread, site)] == id
      ensures old(infos) <= infos && forall p :: p in old(table) ==> p in table && table[p] == old(table[p])
      ensures Looked(old(infos), old(table), infos, table, thread, site, id) == true
    {
      if (thread, site) in table {
        id := table[(thread, site)];
        assert table == table[(thread, site) := id];
        return;
      }
      id := |infos|;
      var info := Info(site, thread, 0, 0);
      forall s: nat ensures Balanced(infos + [info], live, s) {
        assert Balanced(infos, live, s);
        SumAppend(infos, info, s);
      }
      infos := infos + [info];
      table := table[(thread, site) := id];
    }

    /** The allocation's share of the counters. */
    method Charge(id: nat, n: nat, ghost l: Live)
      requires Indexed(infos, table) && AllBalanced(infos, live) && id < |infos| && infos[id].site == l.site &&
        n == l.block.Length < M64
      modifies this`infos, this`live
      ensures Indexed(infos, table) && AllBalanced(infos, live) && live == old(live) + [l]
      ensures infos == old(infos)[id := Added(old(infos)[id], n)]
    {
      var sum := infos[id := Added(infos[id], n)];
      ghost var more := live + [l];
      forall s: nat ensures Balanced(sum, more, s) {
        assert Balanced(infos, live, s);
        BalancedAdd(infos, id, live, l, s);
      }
      AddedValue(infos[id], n);
      infos, live := sum, more;
    }

    /** The deallocation's share of the counters, in the freeing thread's record. */
    method Credit(id: nat, n: nat, ghost j: nat)
      requires Indexed(infos, table) && AllBalanced(infos, live) && id < |infos| && j < |live|
      requires infos[id].site == live[j].site && n == live[j].block.Length < M64
      modifies this`infos, this`live
      ensures Indexed(infos, table) && AllBalanced(infos, live) && live == Without(old(live), j)
      ensures infos == old(infos)[id := Removed(old(infos)[id], n)]
    {
      var sum := infos[id := Removed(infos[id], n)];
      ghost var less := Without(live, j);
      forall s: nat ensures Balanced(sum, less, s) {
        assert Balanced(infos, live, s);
        BalancedRemove(infos, id, live, j, s);
      }
      RemovedValue(infos[id], n);
      infos, live := sum, less;
    }

    /** A live block's bytes leave its site. */
    method Settle(thread: nat, from: nat, n: nat, ghost j: nat)
      requires Indexed(infos, table) && AllBalanced(infos, live) && j < |live| && from == live[j].site &&
        n == live[j].block.Length < M64
      modifies this
      ensures Indexed(infos, table) && AllBalanced(infos, live) && live == Without(old(live), j)
      ensures Moved(old(infos), old(table), infos, table, thread, from, false, n) == true
    {
      ghost var was, tab := infos, table;
      var id := SiteInfo(thread, from);
      MovedDown(was, tab, infos, table, thread, from, id, n);
      Credit(id, n, j);
    }

    /** hook_handle_alloc on a block of the allocator with room for the guard word behind the sz bytes asked for. */
    method HandleAlloc(thread: nat, site: nat, block: array<Octet>, sz: nat)
      requires Valid() && site < MAX_SITES && sz + 4 <= block.Length < M64 && forall l :: l in live ==> l.block != block
      modifies this, block
      ensures Valid() && live == old(live) + [Live(block, site, sz)] && block[..sz] == old(block[..sz])
      ensures Sealed(block[..], site, sz) == true
      ensures Moved(old(infos), old(table), infos, table, thread, site, true, block.Length) == true
    {
      ghost var before, was, tab := live, infos, table;
      var id := SiteInfo(thread, site);
      MovedUp(was, tab, infos, table, thread, site, id, block.Length);
      Charge(id, block.Length, Live(block, site, sz));
      assert Sound(before) == true;
      Guard(block, site, sz);
      assert Sound(before) == true;
      SoundAppend(before, Live(block, site, sz));
    }

    /** Between the hooks the owner of a block may write any of the bytes asked for. */
    method Write(block: array<Octet>, i: nat, v: Octet, ghost j: nat)
      requires Valid() && j < |live| && live[j].block == block && i < live[j].sz && live[j].sz <= block.Length
      modifies block
      ensures Valid() && block[..] == old(block[..])[i := v]
    {
      SoundRemove(live, j);
      ghost var s, l := block[..], live[j];
      assert Guarded(s, l.site, l.sz) && Sound(Without(live, j)) == true;
      block[i] := v;
      assert Sound(Without(live, j)) == true;
      assert block[..] == s[i := v];
      InsideIsSafe(s, block[..], l.site, l.sz);
      SoundInsert(live, j);
    }

    /**
      hook_handle_free by any thread. A live block, whatever was written to the bytes asked for, passes
      the checks and its bytes leave the site it was allocated at; a block freed before does not pass,
      which is where the server stops.
     */
    method HandleFree(thread: nat, site: nat, block: array<Octet>, ghost j: nat) returns (ok: bool)
      requires Valid() && site < MAX_SITES && j <= |live| &&
        (if j < |live| then live[j].block == block else Stale(block[..]))
      modifies this, block
      ensures ok <==> j < |old(live)|
      ensures ok ==> Valid() && live == Without(old(live), j) && Stale(block[..])
      ensures ok ==> Spells(block[..], ((0x1_0000 * site + 0xffff) * 3486784401 + 1) % 0x1_0000_0000) == true
      ensures ok ==>
        Moved(old(infos), old(table), infos, table, thread, old(live)[j].site, false, block.Length) == true
      ensures !ok ==> infos == old(infos) && table == old(table) && live == old(live) && block[..] == old(block[..])
    {
      Verdict(live, j, block);
      var from, delta;
      ok, from, delta := Check(block);
      if !ok {
        return;
      }
      SoundRemove(live, j);
      Settle(thread, from, block.Length, j);
      RetireOne(block, site, delta, live);
    }
  }

  lemma SoundAppend(live: seq<Live>, l: Live)
    requires Sound(live) == true && l.block.Length < M64 && Guarded(l.block[..], l.site, l.sz) &&
      forall k :: k in live ==> k.block != l.block
    ensures Sound(live + [l]) == true
  {
    var r := live + [l];
    forall i, j | 0 <= i < j < |r| ensures r[i].block != r[j].block {
      if j == |live| {
        assert r[i] in live;
      }
    }
  }

  lemma SoundRemove(live: seq<Live>, j: nat)
    requires Sound(live) == true && j < |live|
    ensures Sound(Without(live, j)) == true && forall k :: k in Without(live, j) ==> k.block != live[j].block
  {
    var r := Without(live, j);
    forall k | 0 <= k < |r| ensures r[k] in live && r[k].block != live[j].block {
      assert r[k] == if k < j then live[k] else live[k + 1];
    }
  }

  lemma SoundInsert(live: seq<Live>, j: nat)
    requires j < |live| && Distinct(live) == true && Sound(Without(live, j)) == true
    requires live[j].block.Length < M64 && Guarded(live[j].block[..], live[j].site, live[j].sz)
    ensures Sound(live) == true
  {
    var r := Without(live, j);
    forall k | 0 <= k < |live| && k != j ensures live[k] in r {
      assert live[k] == if k < j then r[k] else r[k - 1];
    }
  }

  method Guard(block: array<Octet>, site: nat, sz: nat)
    requires site < MAX_SITES && sz + 4 <= block.Length
    modifies block
    ensures Guarded(block[..], site, sz) == true && block[..sz] == old(block[..sz])
    ensures Sealed(block[..], site, sz) == true
  {
    var delta := Delta(block.Length, sz);
    ghost var n := block.Length - 4 - delta;
    WriteGuard(block, Pack(site, delta), delta);
    assert block[..sz] == block[..n][..sz];
    assert old(block[..sz]) == old(block[..n])[..sz];
    GuardedIsSealed(block[..], site, sz);
  }

  method Retire(block: array<Octet>, site: nat, delta: nat)
    requires site < MAX_SITES && delta + 4 <= block.Length
    modifies block
    ensures Stale(block[..]) == true
    ensures Spells(block[..], ((0x1_0000 * site + 0xffff) * 3486784401 + 1) % 0x1_0000_0000) == true
  {
    WriteGuard(block, Pack(site, FREED), delta);
  }

  /** The other blocks stay as they are. */
  method RetireOne(block: array<Octet>, site: nat, delta: nat, ghost live: seq<Live>)
    requires site < MAX_SITES && delta + 4 <= block.Length && Sound(live) == true &&
      forall l :: l in live ==> l.block != block
    modifies block
    ensures Stale(block[..]) == true && Sound(live) == true
    ensures Spells(block[..], ((0x1_0000 * site + 0xffff) * 3486784401 + 1) % 0x1_0000_0000) == true
  {
    Retire(block, site, delta);
  }

  lemma Verdict(live: seq<Live>, j: nat, block: array<Octet>)
    requires Sound(live) == true && j <= |live| && (if j < |live| then live[j].block == block else Stale(block[..]))
    ensures block.Length >= 4 && Passes(block[..]) == (j < |live|)
    ensures j < |live| ==>
      live[j].block.Length < M64 && Unscramble(Word(block[..], block.Length - 4)) / 0x1_0000 == live[j].site
  {
    if j < |live| {
      DetectsOverrun(block[..], live[j].site, live[j].sz);
    } else {
      DoubleFree(block[..]);
    }
  }

  /** The free hook's reading of the guard word and its four tests. */
  method Check(block: array<Octet>) returns (ok: bool, site: nat, delta: nat)
    requires block.Length >= 4
    ensures ok <==> Passes(block[..])
    ensures ok ==> delta + 4 <= block.Length
    ensures site == Unscramble(Word(block[..], block.Length - 4)) / 0x1_0000
    ensures delta == Unscramble(Word(block[..], block.Length - 4)) % 0x1_0000
  {
    var data := block.Length - 4;
    var val := Unscramble(Word(block[..], data));
    site, delta := val / 0x1_0000, val % 0x1_0000;
    if site >= MAX_SITES || delta == FREED || delta > data {
      return false, site, delta;
    }
    ok := CheckMarks(block, delta);
  }

  method CheckMarks(block: array<Octet>, delta: nat) returns (ok: bool)
    requires delta + 4 <= block.Length
    ensures ok <==> Marked(block[..], delta)
  {
    var data, mark, i := block.Length - 4, block.Length - 4 - delta, 0;
    while i < 4 && i < delta
      invariant 0 <= i <= Few(delta) && block[mark..mark + i] == block[data..data + i]
    {
      if block[mark + i] != block[data + i] {
        Differs(block[..], data, delta, i);
        return false;
      }
      i := i + 1;
    }
    ok := true;
  }

  lemma Differs(s: seq<Octet>, data: nat, delta: nat, i: nat)
    requires data == |s| - 4 && delta <= data && i < Few(delta) && s[data - delta + i] != s[data + i]
    ensures !Marked(s, delta)
  {
    assert s[data - delta..data - delta + Few(delta)][i] != s[data..data + Few(delta)][i];
  }
}
