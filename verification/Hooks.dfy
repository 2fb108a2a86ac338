/**
  The debug hooks of cf/src/alloc.c: a guard word and marks behind every block, and counters for each site and
  thread.
 */
module Hooks {
  import opened Bytes

  const M32 := 0x1_0000_0000
  const M64 := 0x1_0000_0000_0000_0000
  const M128 := 0x1_0000_0000_0000_0000_0000_0000_0000_0000
  const MULT := 3486784401
  const MULT_INV := 3396732273
  const MAX_SITES := 4096

  /** The delta of a freed block; a live one is smaller. */
  const FREED := 0xffff

  // ---------------------------------------------------------------- the guard word

  /** The scrambled word for a site and a distance from the guard back to the end of the requested bytes. */
  function Pack(site: nat, delta: nat): (w: nat)
    requires site < 0x1_0000 && delta <= FREED
    ensures w < M32
  {
    ((0x1_0000 * site + delta) * MULT + 1) % M32
  }

  function Unscramble(w: int): (x: nat)
    ensures x < M32
  {
    (w - 1) * MULT_INV % M32
  }

  lemma Multiple(x: int, k: int)
    requires 0 <= x < M32
    ensures (x + M32 * k) % M32 == x
  {
  }

  lemma ScrambleInverse(x: nat)
    requires x < M32
    ensures Unscramble((x * MULT + 1) % M32) == x
  {
    var q := (x * MULT + 1) / M32;
    var w := (x * MULT + 1) % M32;
    var k := 2757570032 * x - q * MULT_INV;
    assert w - 1 == x * MULT - q * M32;
    assert (w - 1) * MULT_INV == x + M32 * k;
    Multiple(x, k);
  }

  /** What comes out of the word is the site and the delta that went in. */
  lemma PackInverse(site: nat, delta: nat)
    requires site < 0x1_0000 && delta <= FREED
    ensures Unscramble(Pack(site, delta)) == 0x1_0000 * site + delta
  {
    ScrambleInverse(0x1_0000 * site + delta);
  }

  function Word(s: seq<Octet>, at: nat): (w: nat)
    requires at + 4 <= |s|
    ensures w < M32
  {
    s[at] as int + 256 * (s[at + 1] as int + 256 * (s[at + 2] as int + 256 * s[at + 3] as int))
  }

  lemma Top(w: nat, n: nat, b: Octet)
    requires b == Digit(w, 0) && w < 256 * n
    ensures b + 256 * (w / 256) == w && w / 256 < n &&
      forall i: nat {:trigger Digit(w / 256, i)} :: Digit(w / 256, i) == Digit(w, i + 1)
  {
  }

  lemma WordInverse(s: seq<Octet>, at: nat, w: nat)
    requires at + 4 <= |s| && w < M32 && forall i :: at <= i < at + 4 ==> s[i] == Digit(w, i - at)
    ensures Word(s, at) == w
  {
    assert s[at] == Digit(w, 0) && s[at + 1] == Digit(w, 1) && s[at + 2] == Digit(w, 2) && s[at + 3] == Digit(w, 3);
    Top(w, 0x100_0000, s[at]);
    Top(w / 256, 0x1_0000, s[at + 1]);
    Top(w / 256 / 256, 256, s[at + 2]);
    Top(w / 256 / 256 / 256, 1, s[at + 3]);
  }

  // ---------------------------------------------------------------- guarded blocks

  /** The distance stored for a request of sz bytes in a block of n; 0 if it does not fit below the free marker. */
  function Delta(n: nat, sz: nat): (d: nat)
    requires sz + 4 <= n
    ensures d < FREED && d <= n - 4 - sz && (d == 0 || d == n - 4 - sz)
  {
    if n - 4 - sz > 0xfffe then 0 else n - 4 - sz
  }

  function Few(delta: nat): nat {
    if delta < 4 then delta else 4
  }

  /** The first bytes of the gap, up to four, repeat the guard word. */
  ghost predicate Marked(s: seq<Octet>, delta: nat)
    requires delta + 4 <= |s|
  {
    var data := |s| - 4;
    s[data - delta..data - delta + Few(delta)] == s[data..data + Few(delta)]
  }

  /** A block of sz requested bytes as the allocation hook leaves it, whatever the requested bytes are. */
  ghost predicate Guarded(s: seq<Octet>, site: nat, sz: nat) {
    && site < MAX_SITES && sz + 4 <= |s| && Word(s, |s| - 4) == Pack(site, Delta(|s|, sz)) && Marked(s, Delta(|s|, sz))
  }

  /** The checks of the free hook. */
  ghost predicate Passes(s: seq<Octet>)
    requires |s| >= 4
  {
    var x := Unscramble(Word(s, |s| - 4));
    x / 0x1_0000 < MAX_SITES && x % 0x1_0000 != FREED && x % 0x1_0000 <= |s| - 4 && Marked(s, x % 0x1_0000)
  }

  /** A block the free hook has seen. */
  ghost predicate Stale(s: seq<Octet>) {
    |s| >= 4 && exists site: nat :: site < 0x1_0000 && Word(s, |s| - 4) == Pack(site, FREED)
  }

  lemma DivMod(site: nat, delta: nat)
    requires delta <= FREED
    ensures (0x1_0000 * site + delta) / 0x1_0000 == site && (0x1_0000 * site + delta) % 0x1_0000 == delta
  {
  }

  /** With the guard word intact, the free hook accepts a block exactly when its marks are intact too. */
  lemma DetectsOverrun(s: seq<Octet>, site: nat, sz: nat)
    requires site < MAX_SITES && sz + 4 <= |s| && Word(s, |s| - 4) == Pack(site, Delta(|s|, sz))
    ensures Passes(s) <==> Guarded(s, site, sz)
    ensures Unscramble(Word(s, |s| - 4)) / 0x1_0000 == site
  {
    PackInverse(site, Delta(|s|, sz));
    DivMod(site, Delta(|s|, sz));
  }

  // ---------------------------------------------------------------- the same, byte by byte

  /** The last four bytes spell w, least significant first. */
  ghost predicate Spells(s: seq<Octet>, w: int) {
    && |s| >= 4 && s[|s| - 4] == w % 0x100 && s[|s| - 3] == w / 0x100 % 0x100
    && s[|s| - 2] == w / 0x1_0000 % 0x100 && s[|s| - 1] == w / 0x100_0000 % 0x100
  }

  /** Up to four bytes from sz on, before the last four of the block, repeat those. */
  ghost predicate Repeats(s: seq<Octet>, sz: nat) {
    forall i :: sz <= i < sz + 4 && i < |s| - 4 ==> s[i] == s[|s| - 4 + (i - sz)]
  }

  /**
    What hook_handle_alloc leaves behind sz bytes: a gap of more than 0xfffe bytes counts as none and is not
    marked.
   */
  ghost predicate Sealed(s: seq<Octet>, site: nat, sz: nat) {
    var gap := |s| - 4 - sz;
    && gap >= 0
    && if gap > 0xfffe then Spells(s, (0x1_0000 * site * 3486784401 + 1) % 0x1_0000_0000)
       else Spells(s, ((0x1_0000 * site + gap) * 3486784401 + 1) % 0x1_0000_0000) && Repeats(s, sz)
  }

  lemma WordSpells(s: seq<Octet>, w: nat)
    requires |s| >= 4 && w < M32
    ensures Spells(s, w) == (Word(s, |s| - 4) == w)
  {
    var n := |s|;
    Bytewise(s[n - 4], s[n - 3], s[n - 2], s[n - 1], w);
  }

  lemma Bytewise(a: Octet, b: Octet, c: Octet, d: Octet, w: nat)
    requires w < M32
    ensures a as int + 256 * (b as int + 256 * (c as int + 256 * d as int)) == w <==>
      a == w % 0x100 && b == w / 0x100 % 0x100 && c == w / 0x1_0000 % 0x100 && d == w / 0x100_0000 % 0x100
  {
    LowByte(c, d, w / 0x1_0000);
    LowByte(b, c as int + 256 * d as int, w / 0x100);
    LowByte(a, b as int + 256 * (c as int + 256 * d as int), w);
    assert w / 0x1_0000 == w / 0x100 / 0x100 && w / 0x100_0000 == w / 0x1_0000 / 0x100;
  }

  lemma LowByte(a: Octet, x: int, w: int)
    ensures a as int + 256 * x == w <==> a == w % 0x100 && x == w / 0x100
  {
  }

  lemma MarkedRepeats(s: seq<Octet>, delta: nat)
    requires delta + 4 <= |s|
    ensures Repeats(s, |s| - 4 - delta) == Marked(s, delta)
  {
    var data := |s| - 4;
    var a, b := s[data - delta..data - delta + Few(delta)], s[data..data + Few(delta)];
    if a == b {
      forall i | data - delta <= i < data - delta + 4 && i < data ensures s[i] == s[data + (i - (data - delta))] {
        assert a[i - (data - delta)] == b[i - (data - delta)];
      }
    }
    if Repeats(s, data - delta) {
      forall k | 0 <= k < Few(delta) ensures a[k] == b[k] {
        assert s[data - delta + k] == s[data + k];
      }
    }
  }

  lemma GuardedIsSealed(s: seq<Octet>, site: nat, sz: nat)
    requires site < MAX_SITES && sz + 4 <= |s|
    ensures Guarded(s, site, sz) <==> Sealed(s, site, sz)
  {
    var d := Delta(|s|, sz);
    WordSpells(s, Pack(site, d));
    MarkedRepeats(s, d);
  }

  /**
    A sealed block whose last four bytes are intact passes the free hook's checks exactly when none of the up to
    four bytes behind the requested ones has changed; where the gap is longer than the word can tell, always.
   */
  lemma OverrunIff(s: seq<Octet>, r: seq<Octet>, site: nat, sz: nat)
    requires site < MAX_SITES && Sealed(s, site, sz) && |r| == |s| && r[|s| - 4..] == s[|s| - 4..]
    ensures Passes(r) <==> |s| - 4 - sz > 0xfffe || forall i :: sz <= i < sz + 4 && i < |s| - 4 ==> r[i] == s[i]
  {
    var n := |s|;
    forall i | n - 4 <= i < n ensures r[i] == s[i] {
      assert r[n - 4..][i - (n - 4)] == s[n - 4..][i - (n - 4)];
    }
    GuardedIsSealed(s, site, sz);
    GuardedIsSealed(r, site, sz);
    DetectsOverrun(r, site, sz);
  }

  /** Writes inside the requested bytes never trip the checks. */
  lemma InsideIsSafe(s: seq<Octet>, r: seq<Octet>, site: nat, sz: nat)
    requires Guarded(s, site, sz) && |r| == |s| && r[sz..] == s[sz..]
    ensures Guarded(r, site, sz) && Passes(r)
  {
    var d, data := Delta(|s|, sz), |s| - 4;
    forall i | sz <= i < |s| ensures r[i] == s[i] {
      assert r[sz..][i - sz] == s[sz..][i - sz];
    }
    assert r[data - d..data - d + Few(d)] == s[data - d..data - d + Few(d)];
    assert r[data..data + Few(d)] == s[data..data + Few(d)];
    assert Word(r, data) == Word(s, data);
    DetectsOverrun(r, site, sz);
  }

  /** A second free always does. */
  lemma DoubleFree(s: seq<Octet>)
    requires Stale(s)
    ensures !Passes(s)
  {
    var site: nat :| site < 0x1_0000 && Word(s, |s| - 4) == Pack(site, FREED);
    PackInverse(site, FREED);
    DivMod(site, FREED);
  }

  /** Stores the guard word and repeats it at the front of the gap. */
  method WriteGuard(block: array<Octet>, w: nat, delta: nat)
    requires w < M32 && delta + 4 <= block.Length
    modifies block
    ensures Word(block[..], block.Length - 4) == w && Marked(block[..], delta) == true
    ensures Spells(block[..], w) == true && Repeats(block[..], block.Length - 4 - delta) == true
    ensures block[..block.Length - 4 - delta] == old(block[..block.Length - 4 - delta])
  {
    var data, mark := block.Length - 4, block.Length - 4 - delta;
    for i := 0 to 4
      invariant forall k :: data <= k < data + i ==> block[k] == Digit(w, k - data)
      invariant forall k :: 0 <= k < data ==> block[k] == old(block[k])
    {
      block[data + i] := Digit(w, i);
    }
    ghost var s := block[..];
    var i := 0;
    while i < 4 && i < delta
      invariant 0 <= i <= 4 && i <= delta
      invariant forall k :: mark <= k < mark + i ==> block[k] == Digit(w, k - mark)
      invariant forall k :: 0 <= k < mark || data <= k < block.Length ==> block[k] == s[k]
    {
      block[mark + i] := block[data + i];
      i := i + 1;
    }
    Written(block[..], w, delta);
  }

  lemma Written(s: seq<Octet>, w: nat, delta: nat)
    requires w < M32 && delta + 4 <= |s| && forall k :: |s| - 4 <= k < |s| ==> s[k] == Digit(w, k - (|s| - 4))
    requires forall k :: |s| - 4 - delta <= k < |s| - 4 - delta + Few(delta) ==> s[k] == Digit(w, k - (|s| - 4 - delta))
    ensures Word(s, |s| - 4) == w && Marked(s, delta) == true
    ensures Spells(s, w) == true && Repeats(s, |s| - 4 - delta) == true
  {
    WordInverse(s, |s| - 4, w);
    WordSpells(s, w);
    MarkedRepeats(s, delta);
  }
}
