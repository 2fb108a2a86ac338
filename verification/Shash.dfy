/** The hash of cf/src/shash.c: a table of buckets that refines a finite map. */
module Shash {
  import opened Wrappers
  import opened ShashBucket

  // ---------------------------------------------------------------- buckets as association lists

  /** The bucket of a key: its hash modulo the number of buckets. */
  function Slot(fn: int -> nat, k: int, n: nat): (b: nat)
    requires n > 0
    ensures b < n
  {
    fn(k) % n
  }

  /** The buckets hold exactly the map m, every key in the bucket of its hash. */
  ghost predicate Maps(items: seq<seq<(int, int)>>, m: map<int, int>, fn: int -> nat) {
    && |items| > 0 && (forall b :: 0 <= b < |items| ==> UniqueKeys(items[b]))
    && (forall b, k :: 0 <= b < |items| && Look(items[b], k).Some? ==> Slot(fn, k, |items|) == b)
    && (forall k :: k in m <==> Look(items[Slot(fn, k, |items|)], k).Some?)
    && (forall k :: k in m ==> Look(items[Slot(fn, k, |items|)], k) == Some(m[k]))
  }

  ghost function Sum(items: seq<seq<(int, int)>>): (n: nat) {
    if items == [] then 0 else |items[0]| + Sum(items[1..])
  }

  lemma {:induction false} SumSet(items: seq<seq<(int, int)>>, b: nat, s: seq<(int, int)>)
    requires b < |items|
    ensures Sum(items[b := s]) == Sum(items) - |items[b]| + |s|
  {
    if b == 0 {
      assert items[0 := s][1..] == items[1..];
    } else {
      SumSet(items[1..], b - 1, s);
      assert items[b := s][1..] == items[1..][b - 1 := s];
    }
  }

  ghost function Keys(s: seq<(int, int)>): (r: set<int>) {
    if s == [] then {} else {s[0].0} + Keys(s[1..])
  }

  lemma {:induction false} KeysLook(s: seq<(int, int)>)
    requires UniqueKeys(s)
    ensures |Keys(s)| == |s| && forall k :: k in Keys(s) <==> Look(s, k).Some?
  {
    if s != [] {
      KeysLook(s[1..]);
    }
  }

  ghost function AllKeys(items: seq<seq<(int, int)>>): (r: set<int>) {
    if items == [] then {} else Keys(items[0]) + AllKeys(items[1..])
  }

  ghost predicate InSome(items: seq<seq<(int, int)>>, k: int) {
    exists b :: 0 <= b < |items| && Look(items[b], k).Some?
  }

  lemma InSomeTail(items: seq<seq<(int, int)>>, k: int)
    requires items != []
    ensures InSome(items, k) <==> Look(items[0], k).Some? || InSome(items[1..], k)
  {
    var u := items[1..];
    if InSome(u, k) {
      var b :| 0 <= b < |u| && Look(u[b], k).Some?;
      assert Look(items[b + 1], k).Some?;
    }
    if InSome(items, k) {
      var b :| 0 <= b < |items| && Look(items[b], k).Some?;
      assert b > 0 ==> Look(u[b - 1], k).Some?;
    }
  }

  lemma {:induction false} AllKeysLook(items: seq<seq<(int, int)>>)
    requires forall b :: 0 <= b < |items| ==> UniqueKeys(items[b])
    ensures forall k :: k in AllKeys(items) <==> InSome(items, k)
  {
    if items != [] {
      AllKeysLook(items[1..]);
      KeysLook(items[0]);
      forall k ensures k in AllKeys(items) <==> InSome(items, k) {
        InSomeTail(items, k);
      }
    }
  }

  lemma {:induction false} AllKeysSum(items: seq<seq<(int, int)>>)
    requires forall b :: 0 <= b < |items| ==> UniqueKeys(items[b])
    requires forall b, c, k :: 0 <= b < c < |items| ==> Look(items[b], k).None? || Look(items[c], k).None?
    ensures |AllKeys(items)| == Sum(items)
  {
    if items != [] {
      var u := items[1..];
      assert forall b :: 0 <= b < |u| ==> u[b] == items[b + 1];
      AllKeysSum(u);
      AllKeysLook(u);
      KeysLook(items[0]);
      forall k | k in Keys(items[0]) ensures k !in AllKeys(u) {
        forall b | 0 <= b < |u| ensures Look(u[b], k).None? {
          assert u[b] == items[b + 1];
        }
        assert !InSome(u, k);
      }
      assert Keys(items[0]) !! AllKeys(u);
    }
  }

  /** The number of elements in the buckets is the size of the map. */
  lemma SumIsSize(items: seq<seq<(int, int)>>, m: map<int, int>, fn: int -> nat)
    requires Maps(items, m, fn)
    ensures Sum(items) == |m|
  {
    forall b, c, k | 0 <= b < c < |items| ensures Look(items[b], k).None? || Look(items[c], k).None? {
      if Look(items[b], k).Some? {
        assert Slot(fn, k, |items|) == b;
      }
    }
    AllKeysSum(items);
    AllKeysLook(items);
    forall k ensures k in AllKeys(items) <==> k in m {
      assert k in m ==> InSome(items, k);
    }
    assert AllKeys(items) == m.Keys;
    assert |m| == |m.Keys|;
  }

  lemma MapsPut(items: seq<seq<(int, int)>>, m: map<int, int>, fn: int -> nat, k: int, v: int, s: seq<(int, int)>)
    requires Maps(items, m, fn) && Stored(items[Slot(fn, k, |items|)], s, k, v)
    ensures Maps(items[Slot(fn, k, |items|) := s], m[k := v], fn)
  {
  }

  lemma MapsDelete(items: seq<seq<(int, int)>>, m: map<int, int>, fn: int -> nat, k: int, s: seq<(int, int)>)
    requires Maps(items, m, fn) && Deleted(items[Slot(fn, k, |items|)], s, k)
    ensures Maps(items[Slot(fn, k, |items|) := s], m - {k}, fn)
  {
  }

  // ---------------------------------------------------------------- buckets in memory

  /** The buckets: their heads in the table, their chains, what they hold and what they occupy. */
  datatype Layout = Layout(heads: seq<Ele>, chains: seq<seq<Ele>>, items: seq<seq<(int, int)>>, foot: seq<set<object>>,
    all: set<object>)

  ghost predicate Holds(head: Ele, chain: seq<Ele>, it: seq<(int, int)>, f: set<object>)
    reads f
  {
    head in f && (forall x :: x in chain ==> x in f) && Bucket(head, chain) && Items(chain) == it
  }

  ghost predicate Apart(g: Layout) {
    && |g.heads| == |g.chains| == |g.items| == |g.foot|
    && (forall b :: 0 <= b < |g.foot| ==> g.foot[b] <= g.all)
    && (forall b, c :: 0 <= b < c < |g.foot| ==> g.foot[b] !! g.foot[c])
  }

  /** All buckets but b are as g says. */
  ghost predicate Others(g: Layout, b: int)
    reads g.all
  {
    Apart(g) && forall c :: 0 <= c < |g.heads| && c != b ==>
      Holds(g.heads[c], g.chains[c], g.items[c], g.foot[c]) == true
  }

  ghost function Changed(g: Layout, b: nat, c: seq<Ele>, it: seq<(int, int)>, f: set<object>): Layout
    requires Apart(g) && b < |g.heads|
  {
    Layout(g.heads, g.chains[b := c], g.items[b := it], g.foot[b := f], g.all + f)
  }

  lemma ChangedApart(g: Layout, b: nat, c: seq<Ele>, it: seq<(int, int)>, f: set<object>)
    requires Apart(g) && b < |g.heads| && f !! g.all - g.foot[b]
    ensures Apart(Changed(g, b, c, it, f)) == true
  {
    assert forall d :: 0 <= d < |g.foot| && d != b ==> g.foot[d] <= g.all - g.foot[b];
  }

  lemma ChangedOthers(g: Layout, b: nat, c: seq<Ele>, it: seq<(int, int)>, f: set<object>)
    requires Others(g, b) == true && b < |g.heads| && f !! g.all - g.foot[b] && Holds(g.heads[b], c, it, f) == true
    ensures Others(Changed(g, b, c, it, f), -1) == true
  {
    ChangedApart(g, b, c, it, f);
  }

  lemma PutReady(g: Layout, b: nat)
    requires Others(g, -1) == true && b < |g.heads|
    ensures Others(g, b) == true && |g.chains| == |g.items| == |g.foot| == |g.heads|
    ensures Holds(g.heads[b], g.chains[b], g.items[b], g.foot[b]) == true && g.foot[b] <= g.all
  {
  }

  /** A put in bucket b leaves the other buckets alone. */
  method PutAt(head: Ele, b: nat, k: int, v: int, ghost g: Layout) returns (added: bool, ghost r: Layout)
    requires Others(g, -1) == true && b < |g.heads| && head == g.heads[b] && b < |g.items| && UniqueKeys(g.items[b])
    modifies g.all
    ensures Others(r, -1) == true && (forall o :: o in r.all ==> o in g.all || fresh(o)) && r.heads == g.heads
    ensures |r.items| == |g.items| && r.items == g.items[b := r.items[b]] &&
      Stored(g.items[b], r.items[b], k, v) == true
    ensures added <==> Look(g.items[b], k).None?
  {
    PutReady(g, b);
    assert allocated(g.all) && allocated(g.foot);
    ghost var c;
    added, c := PutKeeping(head, b, k, v, g);
    ghost var f := g.foot[b] + set x: object | x in c;
    ChangedOthers(g, b, c, Items(c), f);
    r := Changed(g, b, c, Items(c), f);
  }

  method PutKeeping(head: Ele, b: nat, k: int, v: int, ghost g: Layout) returns (added: bool, ghost c: seq<Ele>)
    requires Others(g, b) == true && b < |g.heads| == |g.foot| == |g.items| == |g.chains| && head == g.heads[b]
    requires Holds(head, g.chains[b], g.items[b], g.foot[b]) == true && UniqueKeys(g.items[b])
    modifies g.foot[b]
    ensures Others(g, b) == true && Holds(head, c, Items(c), g.foot[b] + set x: object | x in c) == true
    ensures (forall x :: x in c ==> x in g.foot[b] || fresh(x))
    ensures Stored(g.items[b], Items(c), k, v) == true && (added <==> Look(g.items[b], k).None?)
  {
    assert allocated(g.all) && allocated(g.foot) && Apart(g);
    added, c := Put(head, k, v, g.chains[b]);
  }

  method DeleteKeeping(head: Ele, b: nat, k: int, ghost g: Layout) returns (v: Option<int>, ghost c: seq<Ele>)
    requires Others(g, b) == true && b < |g.heads| == |g.foot| == |g.items| == |g.chains| && head == g.heads[b]
    requires Holds(head, g.chains[b], g.items[b], g.foot[b]) == true && UniqueKeys(g.items[b])
    modifies g.foot[b]
    ensures Others(g, b) == true && Holds(head, c, Items(c), g.foot[b]) == true
    ensures Deleted(g.items[b], Items(c), k) == true && v == Look(g.items[b], k)
  {
    assert allocated(g.all) && allocated(g.foot) && Apart(g);
    v, c := Delete(head, k, g.chains[b]);
  }

  method ReduceKeeping(head: Ele, b: nat, plan: seq<Verdict>, ghost g: Layout)
    returns (stopped: bool, visited: seq<(int, int)>, removed: nat, ghost c: seq<Ele>)
    requires Others(g, b) == true && b < |g.heads| == |g.foot| == |g.items| == |g.chains| && head == g.heads[b]
    requires Holds(head, g.chains[b], g.items[b], g.foot[b]) == true && |plan| >= |g.items[b]|
    modifies g.foot[b]
    ensures Others(g, b) == true && Holds(head, c, Items(c), g.foot[b]) == true
    ensures Items(c) == Kept(g.items[b], plan) && visited == Visited(g.items[b], plan)
    ensures (stopped <==> Stops(g.items[b], plan)) && removed == |g.items[b]| - |Items(c)|
  {
    assert allocated(g.all) && allocated(g.foot) && Apart(g);
    ItemsAt(g.chains[b]);
    stopped, visited, removed, c := Reduce(head, plan, g.chains[b]);
  }

  method DeleteAt(head: Ele, b: nat, k: int, ghost g: Layout) returns (v: Option<int>, ghost r: Layout)
    requires Others(g, -1) == true && b < |g.heads| && head == g.heads[b] && b < |g.items| && UniqueKeys(g.items[b])
    modifies g.all
    ensures Others(r, -1) == true && r.all == g.all && r.heads == g.heads
    ensures |r.items| == |g.items| && r.items == g.items[b := r.items[b]] && Deleted(g.items[b], r.items[b], k) == true
    ensures v == Look(g.items[b], k)
  {
    PutReady(g, b);
    ghost var c;
    v, c := DeleteKeeping(head, b, k, g);
    ChangedOthers(g, b, c, Items(c), g.foot[b]);
    r := Changed(g, b, c, Items(c), g.foot[b]);
  }

  method ReduceAt(head: Ele, b: nat, plan: seq<Verdict>, ghost g: Layout)
    returns (stopped: bool, visited: seq<(int, int)>, removed: nat, ghost r: Layout)
    requires Others(g, -1) == true && b < |g.heads| && head == g.heads[b] && b < |g.items| && |plan| >= |g.items[b]|
    modifies g.all
    ensures Others(r, -1) == true && r.all == g.all && r.heads == g.heads
    ensures |r.items| == |g.items| && r.items == g.items[b := Kept(g.items[b], plan)] &&
      visited == Visited(g.items[b], plan)
    ensures (stopped <==> Stops(g.items[b], plan)) && removed == |g.items[b]| - |r.items[b]|
  {
    PutReady(g, b);
    ghost var c;
    stopped, visited, removed, c := ReduceKeeping(head, b, plan, g);
    ChangedOthers(g, b, c, Items(c), g.foot[b]);
    r := Changed(g, b, c, Items(c), g.foot[b]);
  }

  method ClearKeeping(head: Ele, b: nat, ghost g: Layout) returns (n: nat)
    requires Others(g, b) == true && b < |g.heads| == |g.foot| == |g.items| == |g.chains| && head == g.heads[b]
    requires Holds(head, g.chains[b], g.items[b], g.foot[b]) == true
    modifies g.foot[b]
    ensures Others(g, b) == true && Holds(head, [], [], g.foot[b]) == true && n == |g.items[b]|
  {
    assert allocated(g.all) && allocated(g.foot) && Apart(g);
    ItemsAt(g.chains[b]);
    n := Clear(head, g.chains[b]);
  }

  method ClearAt(head: Ele, b: nat, ghost g: Layout) returns (n: nat, ghost r: Layout)
    requires Others(g, -1) == true && b < |g.heads| && head == g.heads[b] && b < |g.items|
    modifies g.all
    ensures Others(r, -1) == true && r.all == g.all && r.heads == g.heads && r.items == g.items[b := []] &&
      n == |g.items[b]|
  {
    PutReady(g, b);
    n := ClearKeeping(head, b, g);
    ChangedOthers(g, b, [], [], g.foot[b]);
    r := Changed(g, b, [], [], g.foot[b]);
  }

  method GetAt(head: Ele, b: nat, k: int, ghost g: Layout) returns (v: Option<int>)
    requires Others(g, -1) == true && b < |g.heads| && head == g.heads[b] && b < |g.items| && UniqueKeys(g.items[b])
    ensures Others(g, -1) == true && v == Look(g.items[b], k)
  {
    PutReady(g, b);
    assert allocated(g.all) && allocated(g.foot);
    v := Get(head, k, g.chains[b]);
  }

  // ---------------------------------------------------------------- all buckets one after another

  ghost function Flat(items: seq<seq<(int, int)>>): (s: seq<(int, int)>) {
    if items == [] then [] else items[0] + Flat(items[1..])
  }

  lemma {:induction false} FlatConcat(a: seq<seq<(int, int)>>, b: seq<seq<(int, int)>>)
    ensures Flat(a + b) == Flat(a) + Flat(b)
  {
    TailConcat(a, b);
    if a != [] {
      FlatConcat(a[1..], b);
      Assoc(a[0], Flat(a[1..]), Flat(b));
    } else {
      Assoc([], Flat(b), []);
    }
  }

  lemma {:induction false} FlatFacts(items: seq<seq<(int, int)>>)
    requires forall b :: 0 <= b < |items| ==> UniqueKeys(items[b])
    requires forall b, c, k :: 0 <= b < c < |items| ==> Look(items[b], k).None? || Look(items[c], k).None?
    ensures UniqueKeys(Flat(items)) && |Flat(items)| == Sum(items)
    ensures forall b, k :: 0 <= b < |items| && Look(items[b], k).Some? ==> Look(Flat(items), k) == Look(items[b], k)
    ensures forall k :: Look(Flat(items), k).Some? ==> exists b :: 0 <= b < |items| && Look(items[b], k).Some?
  {
    if items != [] {
      var u := items[1..];
      assert forall b :: 0 <= b < |u| ==> u[b] == items[b + 1];
      FlatFacts(u);
      forall k ensures Look(items[0], k).None? || Look(Flat(u), k).None? {
        if Look(Flat(u), k).Some? {
          var b :| 0 <= b < |u| && Look(u[b], k).Some?;
          assert u[b] == items[b + 1];
        }
      }
      UniqueConcat(items[0], Flat(u));
      forall b, k | 0 <= b < |items| && Look(items[b], k).Some? ensures Look(Flat(items), k) == Look(items[b], k) {
        LookConcat(items[0], Flat(u), k);
        if b > 0 {
          assert items[b] == u[b - 1];
        }
      }
      forall k | Look(Flat(items), k).Some? ensures exists b :: 0 <= b < |items| && Look(items[b], k).Some? {
        LookConcat(items[0], Flat(u), k);
        if Look(items[0], k).None? {
          var b :| 0 <= b < |u| && Look(u[b], k).Some?;
          assert items[b + 1] == u[b];
        }
      }
    }
  }

  /** The whole table as one association list. */
  lemma FlatMaps(items: seq<seq<(int, int)>>, m: map<int, int>, fn: int -> nat)
    requires Maps(items, m, fn)
    ensures UniqueKeys(Flat(items)) && |Flat(items)| == |m| == Sum(items)
    ensures forall k :: Look(Flat(items), k) == if k in m then Some(m[k]) else None
  {
    forall b, c, k | 0 <= b < c < |items| ensures Look(items[b], k).None? || Look(items[c], k).None? {
      if Look(items[b], k).Some? {
        assert Slot(fn, k, |items|) == b;
      }
    }
    FlatFacts(items);
    SumIsSize(items, m, fn);
  }

  lemma {:induction false} StopsConcat(a: seq<(int, int)>, b: seq<(int, int)>, plan: seq<Verdict>)
    requires |plan| >= |a| + |b|
    ensures Stops(a + b, plan) <==> Stops(a, plan) || Stops(b, plan[|a|..])
  {
    if a == [] {
      assert a + b == b && plan[0..] == plan;
    } else {
      assert (a + b)[1..] == a[1..] + b && plan[1..][|a| - 1..] == plan[|a|..];
      StopsConcat(a[1..], b, plan[1..]);
    }
  }

  lemma Assoc(p: seq<(int, int)>, k: seq<(int, int)>, r: seq<(int, int)>)
    ensures p + (k + r) == (p + k) + r && [] + k == k
  {
  }

  lemma {:induction false} KeptConcat(a: seq<(int, int)>, b: seq<(int, int)>, plan: seq<Verdict>)
    requires |plan| >= |a| + |b|
    ensures Kept(a + b, plan) == Kept(a, plan) + if Stops(a, plan) then b else Kept(b, plan[|a|..])
  {
    var c := a + b;
    if a == [] {
      assert c == b && plan[0..] == plan;
      Assoc([], Kept(b, plan), []);
    } else if plan[0] != Stop {
      assert c[0] == a[0] && c[1..] == a[1..] + b && plan[1..][|a| - 1..] == plan[|a|..];
      KeptConcat(a[1..], b, plan[1..]);
      var k, r := Kept(a[1..], plan[1..]), if Stops(a, plan) then b else Kept(b, plan[|a|..]);
      assert Kept(c[1..], plan[1..]) == k + r;
      Assoc([a[0]], k, r);
      Assoc([], k, r);
      Assoc([], k + r, []);
    }
  }

  lemma {:induction false} VisitedConcat(a: seq<(int, int)>, b: seq<(int, int)>, plan: seq<Verdict>)
    requires |plan| >= |a| + |b|
    ensures Visited(a + b, plan) == Visited(a, plan) + if Stops(a, plan) then [] else Visited(b, plan[|a|..])
  {
    if a == [] {
      assert a + b == b && plan[0..] == plan;
    } else if plan[0] != Stop {
      assert (a + b)[1..] == a[1..] + b && plan[1..][|a| - 1..] == plan[|a|..];
      VisitedConcat(a[1..], b, plan[1..]);
      var k, r := Visited(a[1..], plan[1..]), if Stops(a, plan) then [] else Visited(b, plan[|a|..]);
      assert [a[0]] + (k + r) == ([a[0]] + k) + r;
    }
  }

  /** A reduce that has done the buckets of `done`, leaving `left`, with the others of `items` to come. */
  ghost predicate Sweeping(items: seq<seq<(int, int)>>, now: seq<seq<(int, int)>>, b: nat, plan: seq<Verdict>, n: nat,
                           visited: seq<(int, int)>) {
    && |now| == |items| && b <= |items| && now[b..] == items[b..] && n == |Flat(items[..b])| && n <= |plan|
    && !Stops(Flat(items[..b]), plan) && Flat(now[..b]) == Kept(Flat(items[..b]), plan)
    && visited == Visited(Flat(items[..b]), plan)
  }

  lemma SweepStart(items: seq<seq<(int, int)>>, plan: seq<Verdict>)
    ensures Sweeping(items, items, 0, plan, 0, []) == true
  {
  }

  lemma FlatThree(l: seq<seq<(int, int)>>, x: seq<(int, int)>, r: seq<seq<(int, int)>>)
    ensures Flat(l + [x]) == Flat(l) + x && Flat(l + [x] + r) == Flat(l) + (x + Flat(r))
  {
    assert [x][1..] == [] && Flat([x]) == x;
    FlatConcat(l, [x]);
    FlatConcat(l + [x], r);
    Assoc(Flat(l), x, Flat(r));
  }

  lemma FlatNext(items: seq<seq<(int, int)>>, b: nat)
    requires b < |items|
    ensures Flat(items[..b + 1]) == Flat(items[..b]) + items[b] &&
      Flat(items) == Flat(items[..b]) + (items[b] + Flat(items[b + 1..]))
  {
    FlatThree(items[..b], items[b], items[b + 1..]);
    Cut(items, b);
  }

  lemma Cut<T>(s: seq<T>, i: nat)
    requires i < |s|
    ensures s[..i + 1] == s[..i] + [s[i]] && s == s[..i] + [s[i]] + s[i + 1..]
  {
  }

  lemma TailConcat<T>(a: seq<T>, b: seq<T>)
    ensures a == [] ==> a + b == b
    ensures a != [] ==> (a + b)[0] == a[0] && (a + b)[1..] == a[1..] + b
  {
  }

  /** One more bucket. */
  lemma SweepStep(items: seq<seq<(int, int)>>, now: seq<seq<(int, int)>>, b: nat, plan: seq<Verdict>, n: nat,
                  visited: seq<(int, int)>)
    requires Sweeping(items, now, b, plan, n, visited) == true && b < |items| && |plan| >= |Flat(items)|
    ensures now[b] == items[b] && n + |now[b]| <= |plan|
    ensures var p := plan[n..]; var next := now[b := Kept(now[b], p)]; var seen := visited + Visited(now[b], p);
      && (Stops(now[b], p) ==>
        Flat(next) == Kept(Flat(items), plan) && seen == Visited(Flat(items), plan) && Stops(Flat(items), plan))
      && (!Stops(now[b], p) ==> Sweeping(items, next, b + 1, plan, n + |now[b]|, seen) == true)
  {
    var p := plan[n..];
    var a, x, z := Flat(items[..b]), items[b], Flat(items[b + 1..]);
    var next := now[b := Kept(now[b], p)];
    assert now[b..][0] == items[b..][0];
    FlatNext(items, b);
    FlatNext(next, b);
    assert next[..b] == now[..b] && next[b + 1..] == items[b + 1..] by {
      assert next[b + 1..] == now[b..][1..] && items[b + 1..] == items[b..][1..];
    }
    StopsConcat(a, x + z, plan);
    KeptConcat(a, x + z, plan);
    VisitedConcat(a, x + z, plan);
    StopsConcat(x, z, p);
    KeptConcat(x, z, p);
    VisitedConcat(x, z, p);
    StopsConcat(a, x, plan);
    KeptConcat(a, x, plan);
    VisitedConcat(a, x, plan);
  }

  // ---------------------------------------------------------------- the hash

  /** The part of m that is still in the buckets. */
  ghost function Restrict(m: map<int, int>, items: seq<seq<(int, int)>>, fn: int -> nat): (r: map<int, int>)
    requires |items| > 0
  {
    map k | k in m && Look(items[Slot(fn, k, |items|)], k).Some? :: m[k]
  }

  lemma MapsKept(items: seq<seq<(int, int)>>, m: map<int, int>, fn: int -> nat, b: nat, plan: seq<Verdict>)
    requires Maps(items, m, fn) && b < |items| && |plan| >= |items[b]|
    ensures var now := items[b := Kept(items[b], plan)]; Maps(now, Restrict(m, now, fn), fn) == true
  {
    ReduceMeans(items[b], plan);
    MapsLess(items, m, fn, b, Kept(items[b], plan));
  }

  /** A bucket loses some of its elements. */
  lemma MapsLess(items: seq<seq<(int, int)>>, m: map<int, int>, fn: int -> nat, b: nat, s: seq<(int, int)>)
    requires Maps(items, m, fn) && b < |items| && UniqueKeys(s) &&
      forall k :: Look(s, k).Some? ==> Look(s, k) == Look(items[b], k)
    ensures Maps(items[b := s], Restrict(m, items[b := s], fn), fn) == true
  {
    var now := items[b := s];
    var r := Restrict(m, now, fn);
    forall c, k | 0 <= c < |now| && Look(now[c], k).Some? ensures Slot(fn, k, |now|) == c {
      LessAt(items, b, s, c, k);
    }
    forall k ensures k in r <==> Look(now[Slot(fn, k, |now|)], k).Some? {
      LessAt(items, b, s, Slot(fn, k, |now|), k);
    }
    forall k | k in r ensures Look(now[Slot(fn, k, |now|)], k) == Some(r[k]) {
      LessAt(items, b, s, Slot(fn, k, |now|), k);
    }
  }

  lemma LessAt(items: seq<seq<(int, int)>>, b: nat, s: seq<(int, int)>, c: nat, k: int)
    requires b < |items| && c < |items| && (Look(s, k).Some? ==> Look(s, k) == Look(items[b], k))
    ensures Look(items[b := s][c], k).Some? ==> Look(items[b := s][c], k) == Look(items[c], k)
  {
  }

  lemma MapsClear(items: seq<seq<(int, int)>>, m: map<int, int>, fn: int -> nat, b: nat)
    requires Maps(items, m, fn) && b < |items|
    ensures var now := items[b := []]; Maps(now, Restrict(m, now, fn), fn) == true
  {
    MapsLess(items, m, fn, b, []);
  }

  lemma MapsNothing(items: seq<seq<(int, int)>>, m: map<int, int>, fn: int -> nat)
    requires Maps(items, m, fn) && forall b :: 0 <= b < |items| ==> items[b] == []
    ensures m == map[]
  {
    assert forall k :: k !in m;
  }

  /**
    What a reduce of the map m shows: elements of m, none twice; it stopped if and only if the last answer
    was Stop, which no earlier one was, and else all were shown.
   */
  ghost predicate Shown(m: map<int, int>, visited: seq<(int, int)>, plan: seq<Verdict>, stopped: bool) {
    && UniqueKeys(visited) && |visited| <= |m| && |visited| <= |plan|
    && (forall i :: 0 <= i < |visited| ==> visited[i].0 in m && visited[i].1 == m[visited[i].0])
    && (stopped <==> visited != [] && plan[|visited| - 1] == Stop)
    && (forall i :: 0 <= i < |visited| - 1 ==> plan[i] != Stop)
    && (!stopped ==> |visited| == |m| && forall k :: k in m ==> Look(visited, k) == Some(m[k]))
  }

  /** What it leaves, stopped or not: exactly the elements answered with Drop are gone. */
  ghost predicate Thinned(m: map<int, int>, now: map<int, int>, visited: seq<(int, int)>, plan: seq<Verdict>) {
    && (forall k :: k in now <==> k in m && !Dropped(visited, plan, k))
    && (forall k :: k in now ==> k in m && now[k] == m[k])
  }

  lemma {:induction false} VisitedPrefix(s: seq<(int, int)>, plan: seq<Verdict>)
    requires UniqueKeys(s) && |plan| >= |s|
    ensures UniqueKeys(Visited(s, plan)) && |Visited(s, plan)| <= |s|
    ensures forall k :: Look(Visited(s, plan), k).Some? ==> Look(s, k).Some?
    ensures forall i :: 0 <= i < |Visited(s, plan)| ==> Visited(s, plan)[i] == s[i]
  {
    if s != [] {
      VisitedPrefix(s[1..], plan[1..]);
      var v := Visited(s, plan);
      if plan[0] == Stop {
        assert v == [s[0]];
      } else {
        assert v[1..] == Visited(s[1..], plan[1..]);
      }
    }
  }

  /** s lists the map m. */
  ghost predicate Lists(s: seq<(int, int)>, m: map<int, int>) {
    UniqueKeys(s) && |s| == |m| && forall k :: Look(s, k) == if k in m then Some(m[k]) else None
  }

  lemma ShownList(s: seq<(int, int)>, m: map<int, int>, plan: seq<Verdict>)
    requires Lists(s, m) == true && |plan| >= |m|
    ensures Shown(m, Visited(s, plan), plan, Stops(s, plan)) == true
  {
    var visited := Visited(s, plan);
    VisitedPrefix(s, plan);
    StopsLast(s, plan);
    forall i | 0 <= i < |visited| ensures visited[i].0 in m && visited[i].1 == m[visited[i].0] {
      TakeOut(s, i);
    }
    if !Stops(s, plan) {
      ReduceMeans(s, plan);
    }
  }

  lemma ThinnedList(s: seq<(int, int)>, m: map<int, int>, left: map<int, int>, plan: seq<Verdict>)
    requires Lists(s, m) == true && Lists(Kept(s, plan), left) == true && |plan| >= |m|
    ensures Thinned(m, left, Visited(s, plan), plan) == true
  {
    var visited, r := Visited(s, plan), Kept(s, plan);
    forall k ensures Look(r, k) == if Dropped(visited, plan, k) then None else Look(s, k) {
      KeptUnlessDropped(s, plan, k);
    }
    forall k ensures k in left <==> k in m && !Dropped(visited, plan, k) {
      assert Look(r, k).Some? <==> k in left;
      assert Look(s, k).Some? <==> k in m;
    }
  }

  lemma ReducedFlat(items: seq<seq<(int, int)>>, m: map<int, int>, now: seq<seq<(int, int)>>, left: map<int, int>,
                    fn: int -> nat,
                    plan: seq<Verdict>, visited: seq<(int, int)>, stopped: bool)
    requires Maps(items, m, fn) == true && Maps(now, left, fn) == true && |plan| >= |m|
    requires Flat(now) == Kept(Flat(items), plan) && visited == Visited(Flat(items), plan) &&
      (stopped <==> Stops(Flat(items), plan))
    ensures Shown(m, visited, plan, stopped) == true && Thinned(m, left, visited, plan) == true
  {
    FlatMaps(items, m, fn);
    FlatMaps(now, left, fn);
    ShownList(Flat(items), m, plan);
    ThinnedList(Flat(items), m, left, plan);
  }

  lemma {:induction false} NothingMaps(items: seq<seq<(int, int)>>, fn: int -> nat)
    requires forall b :: 0 <= b < |items| ==> items[b] == []
    ensures Sum(items) == 0 && (items != [] ==> Maps(items, map[], fn) == true)
  {
    if items != [] {
      NothingMaps(items[1..], fn);
    }
  }

  /** cf_shash_clear_table: heads that are not in use. */
  method EmptyBuckets(n: nat) returns (heads: seq<Ele>, ghost g: Layout)
    ensures |heads| == n == |g.items| && g.heads == heads && Others(g, -1) == true && fresh(g.all)
    ensures forall b :: 0 <= b < n ==> g.items[b] == []
  {
    heads := [];
    g := Layout([], [], [], [], {});
    for i := 0 to n
      invariant |heads| == i == |g.items| && g.heads == heads && Others(g, -1) == true && fresh(g.all)
      invariant forall b :: 0 <= b < i ==> g.items[b] == []
    {
      assert allocated(g.all) && allocated(g.foot);
      var e := new Ele(0, 0);
      e.inUse := false;
      heads := heads + [e];
      assert Holds(e, [], [], {e}) == true;
      MoreBuckets(g, e);
      g := Layout(g.heads + [e], g.chains + [[]], g.items + [[]], g.foot + [{e}], g.all + {e});
    }
  }

  lemma MoreBuckets(g: Layout, e: Ele)
    requires Others(g, -1) == true && e !in g.all && Holds(e, [], [], {e}) == true
    ensures Others(Layout(g.heads + [e], g.chains + [[]], g.items + [[]], g.foot + [{e}], g.all + {e}), -1) == true
  {
    var r := Layout(g.heads + [e], g.chains + [[]], g.items + [[]], g.foot + [{e}], g.all + {e});
    assert Apart(g);
    forall c | 0 <= c < |r.heads| && c != -1 ensures Holds(r.heads[c], r.chains[c], r.items[c], r.foot[c]) == true {
      if c < |g.heads| {
        assert Holds(g.heads[c], g.chains[c], g.items[c], g.foot[c]) == true;
      }
    }
  }

  class Shash {
    const fn: int -> nat
    var heads: seq<Ele>
    var nElements: int

    /** The map it stands for, and its buckets. */
    ghost var m: map<int, int>
    ghost var g: Layout

    ghost predicate Valid()
      reads this, g.all
    {
      && heads == g.heads && this !in g.all && |g.items| == |heads| && Others(g, -1) == true
      && Maps(g.items, m, fn) == true && nElements == Sum(g.items)
    }

    /** cf_shash_create: n empty buckets. */
    constructor (fn: int -> nat, n: nat)
      requires n > 0
      ensures Valid() == true && fresh(g.all) && m == map[] && nElements == 0
    {
      var hs; ghost var r;
      hs, r := EmptyBuckets(n);
      this.fn, heads, nElements := fn, hs, 0;
      m, g := map[], r;
      new;
      NothingMaps(r.items, fn);
    }

    /** Takes over a new layout of the buckets. */
    method Settle(count: int, ghost r: Layout, ghost now: map<int, int>)
      requires r.heads == heads && this !in r.all && |r.items| == |heads| && Others(r, -1) == true
      requires Maps(r.items, now, fn) == true && count == Sum(r.items)
      modifies this`nElements, this`m, this`g
      ensures Valid() == true && m == now && g == r && nElements == |now|
    {
      assert allocated(r.all);
      nElements, m, g := count, now, r;
      SumIsSize(r.items, now, fn);
    }

    /** cf_shash_put. */
    method Put(k: int, v: int)
      requires Valid() == true
      modifies this, g.all
      ensures Valid() == true && (forall o :: o in g.all ==> o in old(g.all) || fresh(o))
      ensures m == old(m)[k := v] && nElements == |m|
    {
      var b := Slot(fn, k, |heads|);
      ghost var was := g;
      var added; ghost var r;
      added, r := PutAt(heads[b], b, k, v, g);
      MapsPut(was.items, m, fn, k, v, r.items[b]);
      SumSet(was.items, b, r.items[b]);
      Settle(if added then nElements + 1 else nElements, r, m[k := v]);
    }

    /** cf_shash_get. */
    method Get(k: int) returns (r: Option<int>)
      requires Valid() == true
      ensures r == if k in m then Some(m[k]) else None
    {
      var b := Slot(fn, k, |heads|);
      r := GetAt(heads[b], b, k, g);
    }

    /** cf_shash_put_unique: an element already there is left alone. */
    method PutUnique(k: int, v: int) returns (found: bool)
      requires Valid() == true
      modifies this, g.all
      ensures Valid() == true && (forall o :: o in g.all ==> o in old(g.all) || fresh(o))
      ensures (found <==> k in old(m)) && m == if found then old(m) else old(m)[k := v]
      ensures nElements == |m|
    {
      SumIsSize(g.items, m, fn);
      assert allocated(g.all);
      var r := Get(k);
      found := r.Some?;
      if !found {
        Put(k, v);
      }
    }

    /**
      cf_shash_update: the caller's function makes the new value from the old one, which it is given only
      when there is one and the caller has supplied room for it.
     */
    method Update(k: int, f: Option<int> -> int, room: bool) returns (was: Option<int>)
      requires Valid() == true
      modifies this, g.all
      ensures Valid() == true && (forall o :: o in g.all ==> o in old(g.all) || fresh(o))
      ensures was == if room && k in old(m) then Some(old(m)[k]) else None
      ensures m == old(m)[k := f(was)] && nElements == |m|
    {
      assert allocated(g.all);
      was := Get(k);
      if !room {
        was := None;
      }
      Put(k, f(was));
    }

    /** cf_shash_delete_or_pop: the value that was there, if any. */
    method Pop(k: int) returns (r: Option<int>)
      requires Valid() == true
      modifies this, g.all
      ensures Valid() == true && g.all == old(g.all) && m == old(m) - {k} && nElements == |m|
      ensures r == if k in old(m) then Some(old(m)[k]) else None
    {
      var b := Slot(fn, k, |heads|);
      ghost var was := g;
      ghost var now;
      r, now := DeleteAt(heads[b], b, k, g);
      MapsDelete(was.items, m, fn, k, now.items[b]);
      SumSet(was.items, b, now.items[b]);
      Settle(if r.Some? then nElements - 1 else nElements, now, m - {k});
    }

    /** One bucket of a reduce. */
    method ReduceBucket(b: nat, plan: seq<Verdict>) returns (stopped: bool, seen: seq<(int, int)>)
      requires Valid() == true && b < |heads| && b < |g.items| && |plan| >= |g.items[b]|
      modifies this, g.all
      ensures Valid() == true && g.all == old(g.all) && heads == old(heads)
      ensures g.items == old(g.items)[b := Kept(old(g.items)[b], plan)] && seen == Visited(old(g.items)[b], plan)
      ensures stopped <==> Stops(old(g.items)[b], plan)
    {
      ghost var was := g;
      var removed; ghost var r;
      stopped, seen, removed, r := ReduceAt(heads[b], b, plan, g);
      MapsKept(was.items, m, fn, b, plan);
      SumSet(was.items, b, r.items[b]);
      Settle(nElements - removed, r, Restrict(m, r.items, fn));
    }

    /**
      cf_shash_reduce; the n-th answer of the caller's function is plan[n]. Unless one of them is Stop,
      every element is shown exactly once; stopped or not, exactly those answered with Drop are gone.
     */
    method Reduce(plan: seq<Verdict>) returns (stopped: bool, visited: seq<(int, int)>)
      requires Valid() == true && |plan| >= |m|
      modifies this, g.all
      ensures Valid() == true && g.all == old(g.all) && nElements == |m|
      ensures Shown(old(m), visited, plan, stopped) == true && Thinned(old(m), m, visited, plan) == true
    {
      ghost var items, all := g.items, m;
      FlatMaps(items, m, fn);
      SweepStart(items, plan);
      visited, stopped := [], false;
      var n: nat := 0;
      for b := 0 to |heads|
        invariant Valid() == true && g.all == old(g.all) && heads == old(heads)
        invariant Sweeping(items, g.items, b, plan, n, visited) == true
      {
        ghost var before := g.items;
        SweepStep(items, before, b, plan, n, visited);
        var seen;
        stopped, seen := ReduceBucket(b, plan[n..]);
        visited := visited + seen;
        if stopped {
          ReducedFlat(items, all, g.items, m, fn, plan, visited, true);
          SumIsSize(g.items, m, fn);
          return;
        }
        SeenAll(before[b], plan[n..]);
        n := n + |seen|;
      }
      SweepEnd(items, g.items, plan, n, visited);
      ReducedFlat(items, all, g.items, m, fn, plan, visited, false);
      SumIsSize(g.items, m, fn);
    }

    /** cf_shash_delete_all. */
    method DeleteAll()
      requires Valid() == true
      modifies this, g.all
      ensures Valid() == true && g.all == old(g.all) && m == map[] && nElements == 0
    {
      for b := 0 to |heads|
        invariant Valid() == true && g.all == old(g.all) && heads == old(heads)
        invariant |g.items| == |heads| && forall c :: 0 <= c < b ==> g.items[c] == []
      {
        ghost var was := g;
        var n; ghost var r;
        n, r := ClearAt(heads[b], b, g);
        MapsClear(was.items, m, fn, b);
        SumSet(was.items, b, []);
        Settle(nElements - n, r, Restrict(m, r.items, fn));
      }
      MapsNothing(g.items, m, fn);
      SumIsSize(g.items, m, fn);
    }
  }

  lemma {:induction false} SeenAll(s: seq<(int, int)>, plan: seq<Verdict>)
    requires |plan| >= |s| && !Stops(s, plan)
    ensures |Visited(s, plan)| == |s|
  {
    if s != [] {
      SeenAll(s[1..], plan[1..]);
    }
  }

  lemma SweepEnd(items: seq<seq<(int, int)>>, now: seq<seq<(int, int)>>, plan: seq<Verdict>, n: nat,
                 visited: seq<(int, int)>)
    requires Sweeping(items, now, |items|, plan, n, visited) == true
    ensures Flat(now) == Kept(Flat(items), plan) && visited == Visited(Flat(items), plan) && !Stops(Flat(items), plan)
  {
    assert items[..|items|] == items && now[..|now|] == now;
  }
}
