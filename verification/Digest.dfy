/**
  Digests as integers. The tree's comparison of 20-byte digests (ai/src/stream.c) reads bytes 4..19 and
  then bytes 0..3 as little-endian numbers; the rest of this project takes a digest to be the integer
  its 20 bytes spell in little-endian order.
 */
module Digest {
  import opened Bytes
  import opened Search

  const DIGEST_BYTES := 20

  ghost predicate AllBytes(s: seq<int>) {
    forall i :: 0 <= i < |s| ==> 0 <= s[i] < 256
  }

  /** The number that s spells, least significant byte first. */
  function Number(s: seq<int>): (n: int)
    decreases s
  {
    if s == [] then 0 else s[0] + 256 * Number(s[1..])
  }

  lemma {:induction false} NumberFits(s: seq<int>)
    requires AllBytes(s)
    ensures 0 <= Number(s) < Base(|s|)
  {
    if s != [] {
      NumberFits(s[1..]);
    }
  }

  lemma {:induction false} NumberConcat(a: seq<int>, b: seq<int>)
    ensures Number(a + b) == Number(a) + Base(|a|) * Number(b)
  {
    if a == [] {
      assert a + b == b;
    } else {
      NumberConcat(a[1..], b);
      assert (a + b)[1..] == a[1..] + b;
      Regroup(Base(|a| - 1), Number(b));
    }
  }

  lemma Regroup(x: int, y: int)
    ensures 256 * (x * y) == (256 * x) * y
  {
  }

  /** Different digests spell different numbers. */
  lemma {:induction false} NumberInjective(a: seq<int>, b: seq<int>)
    requires AllBytes(a) && AllBytes(b) && |a| == |b| && Number(a) == Number(b)
    ensures a == b
  {
    if a != [] {
      assert Number(a) == a[0] + 256 * Number(a[1..]) && Number(b) == b[0] + 256 * Number(b[1..]);
      assert a[0] == b[0] && Number(a[1..]) == Number(b[1..]);
      NumberInjective(a[1..], b[1..]);
      assert a == [a[0]] + a[1..] && b == [b[0]] + b[1..];
    }
  }

  /** u160Cmp: the upper 16 bytes first, then the lower 4. */
  function U160Cmp(a: seq<int>, b: seq<int>): (r: int)
    requires |a| == |b| == DIGEST_BYTES
  {
    var x, y := Number(a[4..]), Number(b[4..]);
    if x == y then Cmp(Number(a[..4]), Number(b[..4])) else if x > y then 1 else -1
  }

  lemma Lexicographic(m: int, x: int, y: int, u: int, v: int)
    requires 0 <= u < m && 0 <= v < m
    ensures u + m * x < v + m * y <==> x < y || (x == y && u < v)
    ensures u + m * x == v + m * y <==> x == y && u == v
  {
    if x < y {
      assert m * x + m <= m * y by {
        assert m * (x + 1) <= m * y;
      }
    } else if y < x {
      assert m * y + m <= m * x by {
        assert m * (y + 1) <= m * x;
      }
    }
  }

  /** It is the order of the 160-bit numbers, so it is total and agrees with equality of digests. */
  lemma DigestOrder(a: seq<int>, b: seq<int>)
    requires AllBytes(a) && AllBytes(b) && |a| == |b| == DIGEST_BYTES
    ensures U160Cmp(a, b) == Cmp(Number(a), Number(b))
    ensures U160Cmp(a, b) == 0 <==> a == b
  {
    var la, ha, lb, hb := a[..4], a[4..], b[..4], b[4..];
    assert a == la + ha && b == lb + hb;
    NumberConcat(la, ha);
    NumberConcat(lb, hb);
    NumberFits(la);
    NumberFits(lb);
    Lexicographic(Base(4), Number(ha), Number(hb), Number(la), Number(lb));
    if Number(a) == Number(b) {
      NumberInjective(a, b);
    }
  }
}
