/** Searching a node's key array by powers of two (ai/src/bt_code.c: real_log2, findkindex, bt_create). */
module Search {
  import opened Entries

  function Pow2(n: nat): (r: nat)
    ensures r > 0
  {
    if n == 0 then 1 else 2 * Pow2(n - 1)
  }

  ghost predicate IsPow2(x: nat) {
    exists m: nat :: x == Pow2(m)
  }

  /** C's `|` on non-negative integers. */
  function BitOr(x: nat, y: nat): (r: nat) {
    if x == 0 && y == 0 then 0
    else 2 * BitOr(x / 2, y / 2) + if x % 2 == 1 || y % 2 == 1 then 1 else 0
  }

  /** C's `&` on non-negative integers. */
  function BitAnd(x: nat, y: nat): (r: nat) {
    if x == 0 || y == 0 then 0
    else 2 * BitAnd(x / 2, y / 2) + if x % 2 == 1 && y % 2 == 1 then 1 else 0
  }

  lemma {:induction false} Pow2Add(m: nat, n: nat)
    ensures Pow2(m + n) == Pow2(m) * Pow2(n)
  {
    if m > 0 {
      Pow2Add(m - 1, n);
      assert Pow2(m + n) == 2 * (Pow2(m - 1) * Pow2(n)) == (2 * Pow2(m - 1)) * Pow2(n);
    }
  }

  lemma {:induction false} Pow2Mono(m: nat, n: nat)
    requires m <= n
    ensures Pow2(m) <= Pow2(n)
    ensures m < n ==> 2 * Pow2(m) <= Pow2(n)
  {
    if m < n {
      Pow2Mono(m, n - 1);
    }
  }

  lemma {:induction false} Pow2Big(n: nat)
    ensures n < Pow2(n)
  {
    if n > 0 {
      Pow2Big(n - 1);
    }
  }

  lemma {:induction false} OrZero(x: nat)
    ensures BitOr(x, 0) == x
  {
    if x > 0 {
      OrZero(x / 2);
    }
  }

  /** The low n bits of x are zero. */
  ghost predicate Aligned(x: nat, n: nat) {
    n == 0 || (x % 2 == 0 && Aligned(x / 2, n - 1))
  }

  lemma {:induction false} AlignedLess(x: nat, m: nat, n: nat)
    requires Aligned(x, n) && m <= n
    ensures Aligned(x, m)
  {
    if m > 0 {
      AlignedLess(x / 2, m - 1, n - 1);
    }
  }

  lemma {:induction false} AlignedZero(n: nat)
    ensures Aligned(0, n)
  {
    if n > 0 {
      AlignedZero(n - 1);
    }
  }

  /** Setting a bit below all those already set is an addition. */
  lemma {:induction false} OrIsAdd(x: nat, b: nat)
    requires Aligned(x, b + 1)
    ensures BitOr(x, Pow2(b)) == x + Pow2(b) && Aligned(x + Pow2(b), b)
    decreases b
  {
    if b == 0 {
      OrZero(x / 2);
    } else {
      OrIsAdd(x / 2, b - 1);
      assert (x + Pow2(b)) / 2 == x / 2 + Pow2(b - 1);
    }
  }

  /** Masking with 2^b - 1 keeps a number that already fits in b bits. */
  lemma {:induction false} AndMask(a: nat, b: nat)
    requires a < Pow2(b)
    ensures BitAnd(a, Pow2(b) - 1) == a
    decreases b
  {
    if b > 0 && a > 0 {
      var m := Pow2(b) - 1;
      assert m / 2 == Pow2(b - 1) - 1 && m % 2 == 1;
      AndMask(a / 2, b - 1);
      assert BitAnd(a, m) == 2 * BitAnd(a / 2, m / 2) + if a % 2 == 1 && m % 2 == 1 then 1 else 0;
    }
  }

  /** C's `>>` on non-negative integers. */
  function Shr(a: nat, n: nat): (r: nat) {
    if n == 0 then a else Shr(a / 2, n - 1)
  }

  lemma {:induction false} ShrAdd(a: nat, m: nat, n: nat)
    ensures Shr(a, m + n) == Shr(Shr(a, m), n)
  {
    if m > 0 {
      ShrAdd(a / 2, m - 1, n);
    }
  }

  lemma {:induction false} MulStep(y: nat, z: nat, d: nat)
    ensures y < z ==> y * d + d <= z * d
  {
    if y + 1 < z {
      MulStep(y, z - 1, d);
    }
  }

  lemma DivUnique(a: nat, d: nat, q: nat)
    requires d > 0 && q * d <= a < q * d + d
    ensures a / d == q
  {
    assert a == (a / d) * d + a % d;
    MulStep(a / d, q, d);
    MulStep(q, a / d, d);
  }

  lemma DivTwice(a: nat, p: nat)
    requires p > 0
    ensures a / (2 * p) == (a / 2) / p
  {
    var h, q := a / 2, (a / 2) / p;
    assert h == q * p + h % p;
    assert q * (2 * p) == 2 * (q * p);
    DivUnique(a, 2 * p, q);
  }

  lemma {:induction false} ShrIsDiv(a: nat, n: nat)
    ensures a / Pow2(n) == Shr(a, n)
    decreases n
  {
    if n > 0 {
      ShrIsDiv(a / 2, n - 1);
      DivTwice(a, Pow2(n - 1));
    }
  }

  lemma {:induction false} ShrOne(a: nat, n: nat)
    requires Shr(a, n) == 1
    ensures Pow2(n) <= a < Pow2(n + 1)
    decreases n
  {
    if n > 0 {
      ShrOne(a / 2, n - 1);
    }
  }

  lemma {:induction false} ShrFits(a: nat, m: nat, n: nat)
    requires a < Pow2(m + n)
    ensures Shr(a, m) < Pow2(n)
    ensures a >= Pow2(m) ==> Shr(a, m) > 0
    decreases m
  {
    if m > 0 {
      ShrFits(a / 2, m - 1, n);
    }
  }

  lemma Regroup(i: nat, b: nat)
    ensures i * (2 * b) == (2 * i) * b && (2 * i + 1) * b == (2 * i) * b + b
  {
  }

  /** What Log2's loop keeps: i is the exponent found so far in units of the width still undecided. */
  ghost predicate Halving(a0: nat, a: nat, i: nat, b: nat) {
    var w := if b == 0 then 1 else 2 * b;
    a < Pow2(w) && (a == 0 <==> a0 == 0) && (a0 == 0 ==> i == 0) && a == Shr(a0, i * w)
  }

  lemma HalvingLow(a0: nat, a: nat, i: nat, b: nat)
    requires Halving(a0, a, i, b) && b > 0 && (b == 1 || b % 2 == 0) && a < Pow2(b)
    ensures Halving(a0, a, 2 * i, b / 2)
  {
    Regroup(i, b);
    assert (if b / 2 == 0 then 1 else 2 * (b / 2)) == b;
  }

  lemma HalvingHigh(a0: nat, a: nat, i: nat, b: nat)
    requires Halving(a0, a, i, b) && b > 0 && (b == 1 || b % 2 == 0) && a >= Pow2(b)
    ensures Halving(a0, a / Pow2(b), 2 * i + 1, b / 2)
  {
    Regroup(i, b);
    ShrIsDiv(a, b);
    ShrFits(a, b, b);
    ShrAdd(a0, i * (2 * b), b);
    assert (if b / 2 == 0 then 1 else 2 * (b / 2)) == b;
  }

  lemma HalvingEnd(a0: nat, a: nat, i: nat)
    requires Halving(a0, a, i, 0) && a0 > 0
    ensures Pow2(i) <= a0 < Pow2(i + 1)
  {
    assert a == 1 && i * 1 == i;
    ShrOne(a0, i);
  }

  /** The halving search for the exponent of a number of at most `nbits` bits. */
  method Log2(a0: nat, nbits: nat) returns (i: nat)
    requires IsPow2(nbits) && a0 < Pow2(nbits)
    ensures a0 > 0 ==> Pow2(i) <= a0 < Pow2(i + 1)
    ensures a0 == 0 ==> i == 0
  {
    var a: nat := a0;
    i := 0;
    var b: nat := (nbits + 1) / 2;
    ghost var m: nat :| nbits == Pow2(m);
    ghost var j: nat := if m == 0 then 0 else m - 1;
    Pow2Mono(nbits, 2 * b);
    assert Shr(a0, 0) == a0;
    while b > 0
      invariant b > 0 ==> b == Pow2(j)
      invariant Halving(a0, a, i, b)
      decreases b
    {
      i := 2 * i;
      if a >= Pow2(b) {
        HalvingHigh(a0, a, i / 2, b);
        a := a / Pow2(b);
        OrIsAdd(i, 0);
        i := BitOr(i, 1);
      } else {
        HalvingLow(a0, a, i / 2, b);
        AndMask(a, b);
        a := BitAnd(a, Pow2(b) - 1);
      }
      j := if j > 0 then j - 1 else j;
      b := b / 2;
    }
    if a0 > 0 {
      HalvingEnd(a0, a, i);
    }
  }

  /** The width bt_create records for nodes of up to n keys is enough to search them. */
  method NodeBits(n: nat) returns (nbits: nat)
    requires 0 < n < Pow2(32)
    ensures IsPow2(nbits) && n <= Pow2(nbits)
  {
    assert 32 == Pow2(5);
    var l := Log2(n, 32);
    var w := l + 1;
    if w >= 33 {
      Pow2Mono(32, l);
    }
    Pow2Big(32);
    var u := Log2(w, 32);
    nbits := Pow2(u + 1);
    Pow2Mono(w, nbits);
  }

  /** Three-way comparison, as the tree's cmp callback. */
  function Cmp(a: int, b: int): (r: int) {
    if a == b then 0 else if a > b then 1 else -1
  }

  lemma Bracket(a: nat, b: nat, e: nat)
    requires Pow2(b) <= a < Pow2(e)
    ensures b < e
  {
    if b >= e {
      Pow2Mono(e, b);
    }
  }

  /** The span p..p+a still to search: a fits in e bits, and p has no bit there. */
  ghost predicate Span(p: nat, a: nat, e: nat, nbits: nat) {
    a < Pow2(e) && Aligned(p, e) && e <= nbits
  }

  /** The next power of two to try, and where it leads when it is not too far. */
  method Probe(p: nat, a: nat, nbits: nat, ghost e: nat) returns (step: nat, top: nat, ghost f: nat)
    requires IsPow2(nbits) && a > 0 && Span(p, a, e, nbits)
    ensures 0 < step <= a < 2 * step && top == p + step
    ensures Span(p, step - 1, f, nbits) && Span(top, a - step, f, nbits)
  {
    Pow2Mono(e, nbits);
    var b := Log2(a, nbits);
    Bracket(a, b, e);
    AlignedLess(p, b + 1, e);
    AlignedLess(p, b, e);
    OrIsAdd(p, b);
    step, top, f := Pow2(b), BitOr(p, Pow2(b)), b;
  }

  /**
    The greatest slot whose key is not above k, or -1.
    `r` is the outcome of the last comparison: 0 exactly when k is in that slot.
   */
  method FindIndex(keys: seq<Entry>, nbits: nat, k: int) returns (i: int, r: int)
    requires Sorted(keys) && IsPow2(nbits) && |keys| <= Pow2(nbits)
    ensures -1 <= i < |keys|
    ensures forall j :: 0 <= j < |keys| ==> (keys[j].key <= k <==> j <= i)
    ensures r == 0 <==> Has(keys, k)
    ensures r == 0 ==> i >= 0 && keys[i].key == k
    ensures r < 0 <==> i == -1
  {
    if |keys| == 0 {
      return -1, -1;
    }
    var p: nat, a: nat := 0, |keys| - 1;
    ghost var e: nat := nbits;
    AlignedZero(e);
    while a > 0
      invariant p + a < |keys|
      invariant p > 0 ==> keys[p].key <= k
      invariant p + a + 1 < |keys| ==> k < keys[p + a + 1].key
      invariant Span(p, a, e, nbits)
      decreases a
    {
      var step, top;
      step, top, e := Probe(p, a, nbits, e);
      r := Cmp(k, keys[step + p].key);
      if r < 0 {
        a := step - 1;
      } else {
        p, a := top, a - step;
      }
    }
    i := p;
    r := Cmp(k, keys[i].key);
    if r < 0 {
      i := i - 1;
    }
  }
}
