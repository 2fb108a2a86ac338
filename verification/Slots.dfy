/**
  The key slots of a B-tree node as the array they are in ai/src/bt_code.c: the overlapping moves behind the
  sequences that stand for a node's keys elsewhere.
 */
module Slots {
  import opened Entries

  /** d with the n entries of s from si on in place of its own from di on. */
  ghost function Pasted(d: seq<Entry>, di: nat, s: seq<Entry>, si: nat, n: nat): (r: seq<Entry>)
    requires di + n <= |d| && si + n <= |s|
    ensures |r| == |d|
  {
    d[..di] + s[si..si + n] + d[di + n..]
  }

  /** The slots from lo to hi have come over. */
  ghost predicate Copied(x: seq<Entry>, d: seq<Entry>, s: seq<Entry>, gap: int, lo: int, hi: int) {
    && |x| == |d| && 0 <= lo + gap && hi + gap <= |s|
    && forall k :: 0 <= k < |x| ==> x[k] == if lo <= k < hi then s[k + gap] else d[k]
  }

  lemma CopiedAll(x: seq<Entry>, d: seq<Entry>, di: nat, s: seq<Entry>, si: nat, n: nat)
    requires di + n <= |d| && si + n <= |s| && Copied(x, d, s, si - di, di, di + n)
    ensures x == Pasted(d, di, s, si, n)
  {
    var r := Pasted(d, di, s, si, n);
    forall k | 0 <= k < |x| ensures x[k] == r[k] {
      assert di <= k < di + n ==> r[k] == s[si..si + n][k - di];
    }
  }

  /** The loop of mvXKeys for a destination that is not before the source: from the last slot down. */
  method MoveDown(dx: array<Entry>, di: nat, sx: array<Entry>, si: nat, num: nat)
    requires di + num <= dx.Length && si + num <= sx.Length && di >= si
    modifies dx
    ensures Copied(dx[..], old(dx[..]), old(sx[..]), si - di, di, di + num)
  {
    ghost var d, s := dx[..], sx[..];
    var i := num;
    while i != 0
      invariant 0 <= i <= num && Copied(dx[..], d, s, si - di, di + i, di + num) && (dx != sx ==> sx[..] == s)
      decreases i
    {
      i := i - 1;
      assert sx[si + i] == sx[..][si + i] == s[si + i];
      dx[di + i] := sx[si + i];
    }
  }

  /** And for one before it: from the first slot up. */
  method MoveUp(dx: array<Entry>, di: nat, sx: array<Entry>, si: nat, num: nat)
    requires di + num <= dx.Length && si + num <= sx.Length && di < si
    modifies dx
    ensures Copied(dx[..], old(dx[..]), old(sx[..]), si - di, di, di + num)
  {
    ghost var d, s := dx[..], sx[..];
    var i := 0;
    while i != num
      invariant 0 <= i <= num && Copied(dx[..], d, s, si - di, di, di + i) && (dx != sx ==> sx[..] == s)
      decreases num - i
    {
      assert sx[si + i] == sx[..][si + i] == s[si + i];
      dx[di + i] := sx[si + i];
      i := i + 1;
    }
  }

  /**
    mvXKeys: from node to node or inside one node, where the two stretches may overlap. What arrives is what
    was there before the move.
   */
  method MoveKeys(dx: array<Entry>, di: nat, sx: array<Entry>, si: nat, num: nat)
    requires di + num <= dx.Length && si + num <= sx.Length
    modifies dx
    ensures dx[..] == Pasted(old(dx[..]), di, old(sx[..]), si, num)
  {
    ghost var d, s := dx[..], sx[..];
    if di >= si {
      MoveDown(dx, di, sx, si, num);
    } else {
      MoveUp(dx, di, sx, si, num);
    }
    CopiedAll(dx[..], d, di, s, si, num);
  }

  /** The leaf branch of bt_insertnonfull: k goes behind slot i of the n in use. */
  method InsertSlot(x: array<Entry>, n: nat, i: int, k: Entry)
    requires n < x.Length && -1 <= i < n
    modifies x
    ensures x[..n + 1] == old(x[..n])[..i + 1] + [k] + old(x[..n])[i + 1..]
  {
    ghost var s := x[..];
    if i != n - 1 {
      MoveKeys(x, i + 2, x, i + 1, n - i - 1);
      assert x[..] == s[..i + 2] + s[i + 1..n] + s[n + 1..];
    }
    ghost var m := x[..];
    x[i + 1] := k;
    assert x[..] == m[i + 1 := k];
    assert x[..n + 1] == s[..i + 1] + [k] + s[i + 1..n];
  }

  /** Case 1 of deletekey: the entries behind slot i of the n in use move up. */
  method DeleteSlot(x: array<Entry>, n: nat, i: nat)
    requires i < n <= x.Length
    modifies x
    ensures x[..n - 1] == old(x[..n])[..i] + old(x[..n])[i + 1..]
  {
    ghost var s := x[..];
    MoveKeys(x, i, x, i + 1, n - i - 1);
    assert x[..n - 1] == s[..i] + s[i + 1..n];
  }
}
