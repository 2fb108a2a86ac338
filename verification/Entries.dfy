/** Sequences of key slots in strictly ascending key order, and inserting and deleting by key. */
module Entries {

  /** One key slot: the ordering key and the payload stored beside it. */
  datatype Entry = Entry(key: int, val: int)

  ghost predicate Sorted(s: seq<Entry>) {
    forall i, j :: 0 <= i < j < |s| ==> s[i].key < s[j].key
  }

  ghost predicate Has(s: seq<Entry>, k: int) {
    exists i :: 0 <= i < |s| && s[i].key == k
  }

  ghost predicate Below(s: seq<Entry>, k: int) {
    forall i :: 0 <= i < |s| ==> s[i].key < k
  }

  ghost predicate Above(s: seq<Entry>, k: int) {
    forall i :: 0 <= i < |s| ==> k < s[i].key
  }

  /** All entries of s but those with key k. */
  ghost function Del(s: seq<Entry>, k: int): (r: seq<Entry>) {
    if s == [] then [] else (if s[0].key == k then [] else [s[0]]) + Del(s[1..], k)
  }

  /** s with e put before the first greater key. */
  ghost function Ins(s: seq<Entry>, e: Entry): (r: seq<Entry>) {
    if s == [] || e.key < s[0].key then [e] + s else [s[0]] + Ins(s[1..], e)
  }

  lemma {:induction false} DelConcat(a: seq<Entry>, b: seq<Entry>, k: int)
    ensures Del(a + b, k) == Del(a, k) + Del(b, k)
  {
    if a == [] {
      assert a + b == b;
    } else {
      var c := a + b;
      assert c[0] == a[0] && c[1..] == a[1..] + b;
      DelConcat(a[1..], b, k);
      var p := if a[0].key == k then [] else [a[0]];
      assert Del(c, k) == p + (Del(a[1..], k) + Del(b, k));
    }
  }

  lemma {:induction false} DelAbsent(s: seq<Entry>, k: int)
    requires !Has(s, k)
    ensures Del(s, k) == s
  {
    if s != [] {
      assert s[0].key != k;
      DelAbsent(s[1..], k);
    }
  }

  /** In a sorted sequence a deletion acts only on the part that holds the key. */
  lemma DelMid(l: seq<Entry>, m: seq<Entry>, r: seq<Entry>, k: int)
    requires Sorted(l + m + r) && Has(m, k)
    ensures Del(l + m + r, k) == l + Del(m, k) + r
  {
    var j :| 0 <= j < |m| && m[j].key == k;
    var s := l + m + r;
    assert s[|l| + j].key == k;
    assert !Has(l, k) by { assert forall i :: 0 <= i < |l| ==> l[i] == s[i]; }
    assert !Has(r, k) by { assert forall i :: 0 <= i < |r| ==> r[i] == s[|l| + |m| + i]; }
    DelConcat(l + m, r, k);
    DelConcat(l, m, k);
    DelAbsent(l, k);
    DelAbsent(r, k);
  }

  /** Deleting key k does not depend on the payload stored at k. */
  lemma DelPayload(l: seq<Entry>, a: Entry, b: Entry, r: seq<Entry>)
    requires a.key == b.key
    ensures Del(l + [a] + r, a.key) == Del(l + [b] + r, a.key)
  {
    DelConcat(l + [a], r, a.key);
    DelConcat(l, [a], a.key);
    DelConcat(l + [b], r, a.key);
    DelConcat(l, [b], a.key);
    assert Del([a], a.key) == Del([b], a.key);
  }

  lemma {:induction false} InsLow(s: seq<Entry>, r: seq<Entry>, e: Entry)
    requires Above(r, e.key)
    ensures Ins(s + r, e) == Ins(s, e) + r
  {
    if s == [] {
      assert s + r == r;
      assert Ins(r, e) == [e] + r;
    } else if s[0].key <= e.key {
      InsLow(s[1..], r, e);
      assert (s + r)[1..] == s[1..] + r;
    }
  }

  lemma {:induction false} InsHigh(l: seq<Entry>, s: seq<Entry>, e: Entry)
    requires Below(l, e.key)
    ensures Ins(l + s, e) == l + Ins(s, e)
  {
    if l == [] {
      assert l + s == s;
    } else {
      InsHigh(l[1..], s, e);
      assert (l + s)[1..] == l[1..] + s;
    }
  }

  /** In a sorted sequence an insertion acts only on the part between smaller and greater keys. */
  lemma InsMid(l: seq<Entry>, m: seq<Entry>, r: seq<Entry>, e: Entry)
    requires Below(l, e.key) && Above(r, e.key)
    ensures Ins(l + m + r, e) == l + Ins(m, e) + r
  {
    InsLow(l + m, r, e);
    InsHigh(l, m, e);
  }

  lemma TailSlices(s: seq<Entry>, q: nat)
    requires q < |s|
    ensures s[..q + 1] == [s[0]] + s[1..][..q] && s[q + 1..] == s[1..][q..]
  {
  }

  lemma {:induction false} InsPlace(s: seq<Entry>, e: Entry) returns (p: nat)
    requires Sorted(s) && !Has(s, e.key)
    ensures p <= |s| && Ins(s, e) == s[..p] + [e] + s[p..]
    ensures (p > 0 ==> s[p - 1].key < e.key) && (p < |s| ==> e.key < s[p].key)
  {
    if s == [] || e.key < s[0].key {
      p := 0;
      assert s[..0] + [e] + s[0..] == [e] + s;
    } else {
      assert s[0].key != e.key;
      TailReady(s, e.key);
      var q := InsPlace(s[1..], e);
      p := q + 1;
      TailSlices(s, q);
      ConsSplice(s[0], s[1..][..q], e, s[1..][q..]);
    }
  }

  lemma TailReady(s: seq<Entry>, k: int)
    requires s != [] && Sorted(s) && !Has(s, k)
    ensures Sorted(s[1..]) && !Has(s[1..], k)
  {
  }

  lemma ConsSplice(x: Entry, l: seq<Entry>, e: Entry, r: seq<Entry>)
    ensures [x] + (l + [e] + r) == ([x] + l) + [e] + r
  {
  }

  lemma InsertSorted(s: seq<Entry>, p: nat, e: Entry)
    requires p <= |s| && Sorted(s) && (p > 0 ==> s[p - 1].key < e.key) && (p < |s| ==> e.key < s[p].key)
    ensures Sorted(s[..p] + [e] + s[p..])
  {
    var r := s[..p] + [e] + s[p..];
    forall i, j | 0 <= i < j < |r| ensures r[i].key < r[j].key {
      assert r[i] == if i < p then s[i] else if i == p then e else s[i - 1];
      assert r[j] == if j < p then s[j] else if j == p then e else s[j - 1];
    }
  }

  /** Inserting a new key keeps the order and adds exactly the one entry. */
  lemma InsMeaning(s: seq<Entry>, e: Entry)
    requires Sorted(s) && !Has(s, e.key)
    ensures Sorted(Ins(s, e)) && multiset(Ins(s, e)) == multiset(s) + multiset{e} && |Ins(s, e)| == |s| + 1
  {
    var p := InsPlace(s, e);
    InsertSorted(s, p, e);
    Halves(s, p);
    InsertBag(s, s[..p], e, s[p..]);
  }

  lemma Halves(s: seq<Entry>, p: nat)
    requires p <= |s|
    ensures s == s[..p] + s[p..]
  {
  }

  lemma Around(s: seq<Entry>, i: nat)
    requires i < |s|
    ensures s == s[..i] + [s[i]] + s[i + 1..]
  {
  }

  lemma InsertBag(s: seq<Entry>, l: seq<Entry>, e: Entry, r: seq<Entry>)
    requires s == l + r
    ensures multiset(l + [e] + r) == multiset(s) + multiset{e}
  {
    assert multiset(l + [e] + r) == multiset(l + [e]) + multiset(r);
  }

  /** In a sorted sequence a deletion takes out exactly the slot with the key. */
  lemma {:induction false} DelAt(s: seq<Entry>, i: nat)
    requires Sorted(s) && i < |s|
    ensures Del(s, s[i].key) == s[..i] + s[i + 1..]
  {
    var u := s[1..];
    if i == 0 {
      assert !Has(u, s[0].key);
      DelAbsent(u, s[0].key);
    } else {
      DelAt(u, i - 1);
      assert u[i - 1] == s[i];
      assert s[..i] == [s[0]] + u[..i - 1] && s[i + 1..] == u[i..];
    }
  }

  lemma DelSorted(s: seq<Entry>, k: int)
    requires Sorted(s)
    ensures Sorted(Del(s, k)) && !Has(Del(s, k), k)
    ensures |Del(s, k)| == |s| - if Has(s, k) then 1 else 0
  {
    if Has(s, k) {
      var i :| 0 <= i < |s| && s[i].key == k;
      DelAt(s, i);
    } else {
      DelAbsent(s, k);
    }
  }

  lemma {:induction false} DelMembers(s: seq<Entry>, k: int)
    ensures forall e :: e in Del(s, k) <==> e in s && e.key != k
  {
    if s != [] {
      DelMembers(s[1..], k);
      assert s == [s[0]] + s[1..];
    }
  }

  /** Deleting a key keeps the order and takes out exactly the entry with that key, if there is one. */
  lemma DelMeaning(s: seq<Entry>, k: int)
    requires Sorted(s)
    ensures Sorted(Del(s, k)) && forall e :: e in Del(s, k) <==> e in s && e.key != k
    ensures |Del(s, k)| == |s| - if Has(s, k) then 1 else 0
    ensures forall e :: e in s && e.key == k ==> multiset(s) == multiset(Del(s, k)) + multiset{e}
  {
    DelSorted(s, k);
    DelMembers(s, k);
    forall e | e in s && e.key == k ensures multiset(s) == multiset(Del(s, k)) + multiset{e} {
      var i :| 0 <= i < |s| && s[i] == e;
      DelBag(s, i);
    }
  }

  lemma DelBag(s: seq<Entry>, i: nat)
    requires Sorted(s) && i < |s|
    ensures multiset(s) == multiset(Del(s, s[i].key)) + multiset{s[i]}
  {
    DelAt(s, i);
    Around(s, i);
    InsertBag(Del(s, s[i].key), s[..i], s[i], s[i + 1..]);
  }

  lemma SortedParts(l: seq<Entry>, m: seq<Entry>, r: seq<Entry>)
    requires Sorted(l + m + r)
    ensures Sorted(l) && Sorted(m) && Sorted(r)
  {
    var s := l + m + r;
    assert forall i :: 0 <= i < |l| ==> l[i] == s[i];
    assert forall i :: 0 <= i < |m| ==> m[i] == s[|l| + i];
    assert forall i :: 0 <= i < |r| ==> r[i] == s[|l| + |m| + i];
  }
}
