/** Where a key lies in a sorted tree, and what inserting and deleting below one child does to the whole. */
module BtreeOrder {
  import opened Entries
  import opened BtreeSpec

  /** A sorted well-formed tree that shares no node with itself. */
  ghost predicate Shaped(tr: Tree, t: nat, h: nat) {
    Distinct(tr) && WF(tr, t, h) && Sorted(Flat(tr))
  }

  /**
    Such a tree in memory. Contracts say `Sound(..) == true`: the verifier then carries the predicate
    as one fact, where a bare `Sound(..)` would be proved again clause by clause.
   */
  ghost predicate Sound(tr: Tree, t: nat, h: nat)
    reads Own(tr)
  {
    Rep(tr) && Shaped(tr, t, h) == true
  }

  lemma {:induction false} LeftLast(ks: seq<Entry>, cs: seq<Tree>)
    requires |ks| == |cs| && ks != []
    ensures Left(ks, cs) != [] && Left(ks, cs)[|Left(ks, cs)| - 1] == ks[|ks| - 1]
  {
    if |ks| > 1 {
      LeftLast(ks[1..], cs[1..]);
    }
  }

  lemma {:induction false} WeaveHasKeys(ks: seq<Entry>, cs: seq<Tree>)
    requires |cs| == |ks| + 1 && Sorted(Weave(ks, cs))
    ensures Sorted(ks)
    ensures forall i :: 0 <= i < |ks| ==> ks[i] in Weave(ks, cs)
  {
    if ks != [] {
      var l, m, r := Flat(cs[0]), [ks[0]], Weave(ks[1..], cs[1..]);
      var s := Weave(ks, cs);
      assert s == l + m + r;
      SortedParts(l, m, r);
      WeaveHasKeys(ks[1..], cs[1..]);
      forall i | 0 <= i < |ks| ensures ks[i] in s && (i > 0 ==> ks[0].key < ks[i].key) {
        if i == 0 {
          assert s[|l|] == ks[0];
        } else {
          assert ks[1..][i - 1] in r;
          var j :| 0 <= j < |r| && r[j] == ks[i];
          assert s[|l| + 1 + j] == ks[i] && s[|l|] == ks[0];
        }
      }
    }
  }

  /** A node's own keys are sorted and occur in its contents. */
  lemma KeysSorted(tr: Tree, t: nat, h: nat)
    requires WF(tr, t, h) && Sorted(Flat(tr))
    ensures Sorted(tr.keys) && forall i :: 0 <= i < |tr.keys| ==> tr.keys[i] in Flat(tr)
  {
    assert Flat(tr) == Body(tr.keys, tr.kids);
    if h > 0 {
      WeaveHasKeys(tr.keys, tr.kids);
    }
  }

  /** k lies in child i of x: above the key before it and below the key after it. */
  ghost predicate Between(x: Tree, i: nat, k: int) {
    && i <= |x.keys|
    && (i > 0 ==> x.keys[i - 1].key < k) && (i < |x.keys| ==> k < x.keys[i].key)
  }

  lemma Surround(x: Tree, i: nat, k: int)
    requires |x.kids| == |x.keys| + 1 && Sorted(Flat(x)) && Between(x, i, k)
    ensures Flat(x) == Before(x, i) + Flat(x.kids[i]) + After(x, i)
    ensures Below(Before(x, i), k) && Above(After(x, i), k) && Sorted(Flat(x.kids[i]))
  {
    PutFlat(x, i, x.kids[i], 0);
    var l, m, r := Before(x, i), Flat(x.kids[i]), After(x, i);
    SortedParts(l, m, r);
    if i > 0 {
      LeftLast(x.keys[..i], x.kids[..i]);
      assert l[|l| - 1] == x.keys[i - 1];
    }
    if i < |x.keys| {
      assert r[0] == x.keys[i];
    }
  }

  /** A key that lies in child i of x is in x exactly when it is in that child. */
  lemma HasBetween(x: Tree, i: nat, k: int)
    requires |x.kids| == |x.keys| + 1 && Sorted(Flat(x)) && Between(x, i, k)
    ensures Has(Flat(x), k) <==> Has(Flat(x.kids[i]), k)
  {
    Surround(x, i, k);
    var l, m, r := Before(x, i), Flat(x.kids[i]), After(x, i);
    var s := l + m + r;
    if !Has(m, k) {
      forall j | 0 <= j < |s| ensures s[j].key != k {
        assert s[j] == if j < |l| then l[j] else if j < |l| + |m| then m[j - |l|] else r[j - |l| - |m|];
      }
    }
    if Has(m, k) {
      var j :| 0 <= j < |m| && m[j].key == k;
      assert s[|l| + j].key == k;
    }
  }

  lemma InsertBelow(x: Tree, i: nat, e: Entry, c: Tree)
    requires |x.kids| == |x.keys| + 1 && Sorted(Flat(x)) && Between(x, i, e.key) && Flat(c) == Ins(Flat(x.kids[i]), e)
    ensures Flat(Put(x, i, c, 1)) == Ins(Flat(x), e)
  {
    Surround(x, i, e.key);
    PutFlat(x, i, c, 1);
    InsMid(Before(x, i), Flat(x.kids[i]), After(x, i), e);
  }

  lemma {:induction false} InsAt(s: seq<Entry>, p: nat, e: Entry)
    requires p <= |s| && Sorted(s) && (p > 0 ==> s[p - 1].key < e.key) && (p < |s| ==> e.key < s[p].key)
    ensures Ins(s, e) == s[..p] + [e] + s[p..]
  {
    var l, r := s[..p], s[p..];
    assert s == l + [] + r;
    InsMid(l, [], r, e);
  }

  lemma SubDistinct(r: Tree, x: Tree)
    requires Distinct(x) && Own(r) <= Own(x)
    ensures Distinct(r)
  {
    forall n | n in Own(r) ensures Own(r)[n] == 1 {
      assert Own(r)[n] <= Own(x)[n];
    }
  }

  lemma ReplaceDistinct(x: Tree, ks: seq<Entry>, i: nat, c: Tree, s: int)
    requires i < |x.kids| && Distinct(x) && Distinct(c)
    requires forall n :: n in Own(c) ==> n in Own(x.kids[i]) || n !in Own(x)
    ensures Distinct(Replace(x, ks, i, c, s))
    ensures forall n :: n in Own(Replace(x, ks, i, c, s)) ==> n in Own(x) || n in Own(c)
  {
    ReplaceSums(x, ks, i, c, s, 0, 0);
    ApartOne(x, i);
    var r, k, a, b := Own(Replace(x, ks, i, c, s)), Own(x.kids[i]), Own(x), Own(c);
    forall n | n in r ensures r[n] == 1 && (n in a || n in b) {
      assert (r + k)[n] == (a + b)[n];
      assert k[n] <= a[n];
      if n in k { assert k[n] == 1 && a[n] == 1; }
    }
  }

  /** What one level of insertion leaves: x with child i replaced by c. */
  lemma InsertStep(x: Tree, i: nat, e: Entry, c: Tree, t: nat, h: nat, kb: int, nb: int)
    requires h > 0 && WF(x, t, h) && Sorted(Flat(x)) && Between(x, i, e.key)
    requires WF(c, t, h - 1) && t - 1 <= |c.keys| && Flat(c) == Ins(Flat(x.kids[i]), e)
    ensures WF(Put(x, i, c, 1), t, h) && Flat(Put(x, i, c, 1)) == Ins(Flat(x), e)
    ensures Size(Put(x, i, c, 1), kb, nb) - Size(x, kb, nb) == Size(c, kb, nb) - Size(x.kids[i], kb, nb)
  {
    InsertBelow(x, i, e, c);
    assert Kid(x.kids[i], t, h - 1);
    ScionIsCount(c, t, h - 1);
    ScionIsCount(x.kids[i], t, h - 1);
    InsLength(Flat(x.kids[i]), e);
    ReplaceWF(x, x.keys, i, c, x.scion + 1, t, h);
    ReplaceSums(x, x.keys, i, c, x.scion + 1, kb, nb);
  }

  lemma {:induction false} InsLength(s: seq<Entry>, e: Entry)
    ensures |Ins(s, e)| == |s| + 1
  {
    if s != [] && s[0].key <= e.key {
      InsLength(s[1..], e);
    }
  }
}
