/** The wire format of cf/src/msg.c: messages with typed fields, stamped in network byte order and parsed back. */
module Msg {
  import opened Bytes

  const HDR := 6
  const FIELD_HDR := 3
  const M_FT_UINT32 := 1
  const M_FT_UINT64 := 3

  /** Field types with a length of their own: strings, buffers, arrays and msgpack. */
  predicate Sized(ft: int) {
    5 <= ft <= 11
  }

  datatype Field = Unset | Num(v: int) | Buf(bytes: seq<Octet>)

  // ---------------------------------------------------------------- big-endian numbers

  /** The n bytes of v, most significant first. */
  function Put(v: int, n: nat): (s: seq<Octet>)
    ensures |s| == n
  {
    seq(n, i requires 0 <= i < n => Digit(v, n - 1 - i))
  }

  /** The number in the n bytes at `at`. */
  function Get(buf: seq<Octet>, at: nat, n: nat): (v: nat)
    requires at + n <= |buf|
    decreases n, |buf|
  {
    if n == 0 then 0 else 256 * Get(buf, at, n - 1) + buf[at + n - 1] as int
  }

  /** buf holds the bytes s at position at. */
  ghost predicate Holds(buf: seq<Octet>, at: nat, s: seq<Octet>) {
    at + |s| <= |buf| && forall i :: 0 <= i < |s| ==> buf[at + i] == s[i]
  }

  lemma HoldsParts(buf: seq<Octet>, at: nat, a: seq<Octet>, b: seq<Octet>)
    ensures Holds(buf, at, a + b) <==> Holds(buf, at, a) && Holds(buf, at + |a|, b)
  {
    var c := a + b;
    if Holds(buf, at, a) && Holds(buf, at + |a|, b) {
      forall i | 0 <= i < |c| ensures buf[at + i] == c[i] {
        if i >= |a| {
          assert buf[at + |a| + (i - |a|)] == b[i - |a|];
        }
      }
    }
    if Holds(buf, at, c) {
      forall i | 0 <= i < |b| ensures buf[at + |a| + i] == b[i] {
        assert buf[at + (|a| + i)] == c[|a| + i];
      }
      forall i | 0 <= i < |a| ensures buf[at + i] == a[i] {
        assert c[i] == a[i];
      }
    }
  }

  lemma ModTop(v: int, b: int)
    requires b > 0
    ensures 256 * ((v / 256) % b) + v % 256 == v % (256 * b)
  {
    var q, r := (v / 256) / b, 256 * ((v / 256) % b) + v % 256;
    assert v == (256 * b) * q + r && 0 <= r < 256 * b;
    ModIs(v, 256 * b, q, r);
  }

  lemma ModIs(v: int, m: int, q: int, r: int)
    requires v == m * q + r && 0 <= r < m
    ensures v % m == r
  {
    var d := v / m - q;
    assert m * d == r - v % m;
    Multiple(m, d);
  }

  lemma Multiple(m: int, d: int)
    requires m > 0
    ensures (d >= 1 ==> m * d >= m) && (d <= -1 ==> m * d <= -m)
  {
  }

  /** The n bytes of v hold v modulo 256^n. */
  lemma {:induction false} GotModulo(buf: seq<Octet>, at: nat, v: int, n: nat)
    requires Holds(buf, at, Put(v, n))
    ensures Get(buf, at, n) == v % Base(n)
    decreases n
  {
    if n > 0 {
      var s, high := Put(v, n), Put(v / 256, n - 1);
      assert Holds(buf, at, high) by {
        forall i | 0 <= i < |high| ensures buf[at + i] == high[i] {
          assert s[i] == Digit(v, n - 1 - i) == Digit(v / 256, n - 2 - i);
        }
      }
      GotModulo(buf, at, v / 256, n - 1);
      assert s[n - 1] == Digit(v, 0);
      ModTop(v, Base(n - 1));
    }
  }

  lemma Got(buf: seq<Octet>, at: nat, v: int, n: nat)
    requires 0 <= v < Base(n) && Holds(buf, at, Put(v, n))
    ensures Get(buf, at, n) == v
  {
    GotModulo(buf, at, v, n);
    ModIs(v, Base(n), 0, v);
  }

  /** Numbers of two, four and eight bytes at `at`, most significant byte first. */
  function Two(buf: seq<Octet>, at: nat): int
    requires at + 2 <= |buf|
  {
    var a: int, b: int := buf[at], buf[at + 1];
    0x100 * a + b
  }

  function Four(buf: seq<Octet>, at: nat): int
    requires at + 4 <= |buf|
  {
    var a: int, b: int, c: int, d: int := buf[at], buf[at + 1], buf[at + 2], buf[at + 3];
    0x100_0000 * a + 0x1_0000 * b + 0x100 * c + d
  }

  function Eight(buf: seq<Octet>, at: nat): int
    requires at + 8 <= |buf|
  {
    0x1_0000_0000 * Four(buf, at) + Four(buf, at + 4)
  }

  lemma GetTwo(buf: seq<Octet>, at: nat)
    requires at + 2 <= |buf|
    ensures Get(buf, at, 2) == Two(buf, at)
  {
    assert Get(buf, at, 1) == buf[at];
  }

  lemma GetFour(buf: seq<Octet>, at: nat)
    requires at + 4 <= |buf|
    ensures Get(buf, at, 4) == Four(buf, at)
  {
    GetTwo(buf, at);
    assert Get(buf, at, 3) == 0x100 * Get(buf, at, 2) + buf[at + 2];
  }

  lemma GetEight(buf: seq<Octet>, at: nat)
    requires at + 8 <= |buf|
    ensures Get(buf, at, 8) == Eight(buf, at)
  {
    GetFour(buf, at);
    assert Get(buf, at, 5) == 0x100 * Get(buf, at, 4) + buf[at + 4];
    assert Get(buf, at, 6) == 0x100 * Get(buf, at, 5) + buf[at + 5];
    assert Get(buf, at, 7) == 0x100 * Get(buf, at, 6) + buf[at + 6];
  }

  // ---------------------------------------------------------------- writing

  /** A set field has a value of its type that fits. */
  ghost predicate FieldOk(ft: int, f: Field) {
    match f
    case Unset => true
    case Num(v) => (ft == M_FT_UINT32 && 0 <= v < Base(4)) || (ft == M_FT_UINT64 && 0 <= v < Base(8))
    case Buf(s) => Sized(ft) && |s| < Base(4)
  }

  /**
    A message of template t: each set field has a value of its type; ids without a field have type 0 and are
    never set.
   */
  ghost predicate MsgOk(t: seq<Octet>, fs: seq<Field>) {
    |t| == |fs| <= Base(2) && FieldsOk(t, fs, 0)
  }

  ghost predicate FieldsOk(t: seq<Octet>, fs: seq<Field>, i: nat)
    requires |t| == |fs|
    decreases |fs| - i
  {
    i < |fs| ==> FieldOk(t[i], fs[i]) && FieldsOk(t, fs, i + 1)
  }

  /** The bytes of a set field's value, and the length bytes before them. */
  function Payload(ft: int, f: Field): (s: seq<Octet>) {
    match f
    case Unset => []
    case Num(v) => if ft == M_FT_UINT32 then Put(v, 4) else Put(v, 8)
    case Buf(b) => b
  }

  function Length(f: Field): (s: seq<Octet>) {
    if f.Buf? then Put(|f.bytes|, 4) else []
  }

  /** msg_field_stamp. */
  function Stamp(id: int, ft: Octet, f: Field): (s: seq<Octet>)
    ensures |s| == 3 + |Length(f)| + |Payload(ft, f)|
  {
    (Put(id, 2) + [ft]) + (Length(f) + Payload(ft, f))
  }

  /** msg_get_field_wire_size. */
  function FieldSize(ft: int, f: Field): (n: nat) {
    if ft == M_FT_UINT32 then FIELD_HDR + 4
    else if ft == M_FT_UINT64 then FIELD_HDR + 8
    else FIELD_HDR + 4 + if f.Buf? then |f.bytes| else 0
  }

  /** What field i adds to the message: its stamp if it is set. */
  function Part(i: int, ft: Octet, f: Field): (s: seq<Octet>) {
    if f.Unset? then [] else Stamp(i, ft, f)
  }

  ghost function PartSize(ft: Octet, f: Field): nat {
    if f.Unset? then 0 else FieldSize(ft, f)
  }

  lemma PartLength(i: int, ft: Octet, f: Field)
    requires FieldOk(ft, f) == true
    ensures |Part(i, ft, f)| == PartSize(ft, f)
  {
  }

  /** What the fields add, field by field. */
  ghost function Parts(t: seq<Octet>, fs: seq<Field>): (ps: seq<seq<Octet>>)
    requires |t| == |fs|
    ensures |ps| == |fs|
  {
    seq(|fs|, i requires 0 <= i < |fs| => Part(i, t[i], fs[i]))
  }

  lemma PartOf(t: seq<Octet>, fs: seq<Field>, i: nat)
    requires |t| == |fs| && i < |fs|
    ensures Parts(t, fs)[i] == Part(i, t[i], fs[i])
  {
  }

  /** The pieces from i on, one behind the other. */
  ghost function Cat(ps: seq<seq<Octet>>, i: nat): (s: seq<Octet>)
    decreases |ps| - i
  {
    if i >= |ps| then [] else ps[i] + Cat(ps, i + 1)
  }

  /** The stamps of the set fields. */
  ghost function Body(t: seq<Octet>, fs: seq<Field>): (s: seq<Octet>)
    requires |t| == |fs|
  {
    Cat(Parts(t, fs), 0)
  }

  ghost function BodySize(t: seq<Octet>, fs: seq<Field>, i: nat): (n: nat)
    requires |t| == |fs|
    decreases |fs| - i
  {
    if i >= |fs| then 0 else PartSize(t[i], fs[i]) + BodySize(t, fs, i + 1)
  }

  lemma {:induction false} CatLength(t: seq<Octet>, fs: seq<Field>, ps: seq<seq<Octet>>, i: nat)
    requires |t| == |fs| && FieldsOk(t, fs, i) == true && ps == Parts(t, fs)
    ensures |Cat(ps, i)| == BodySize(t, fs, i)
    decreases |fs| - i
  {
    if i < |fs| {
      PartOf(t, fs, i);
      PartLength(i, t[i], fs[i]);
      CatLength(t, fs, ps, i + 1);
    }
  }

  /** The bytes stamped are as many as announced. */
  lemma BodyLength(t: seq<Octet>, fs: seq<Field>)
    requires |t| == |fs| && FieldsOk(t, fs, 0) == true
    ensures |Body(t, fs)| == BodySize(t, fs, 0)
  {
    CatLength(t, fs, Parts(t, fs), 0);
  }

  lemma Assoc(a: seq<Octet>, b: seq<Octet>, c: seq<Octet>)
    ensures a + (b + c) == (a + b) + c && [] + c == c && a + [] == a
  {
  }

  /** msg_get_wire_size. */
  method WireSize(t: seq<Octet>, fs: seq<Field>) returns (sz: nat)
    requires |t| == |fs|
    ensures sz == HDR + BodySize(t, fs, 0) && (FieldsOk(t, fs, 0) ==> sz == Offset(t, fs, |fs|))
  {
    if FieldsOk(t, fs, 0) {
      SizeIsOffset(t, fs, 0);
    }
    sz := HDR;
    var i := 0;
    while i < |fs|
      invariant 0 <= i <= |fs| && sz + BodySize(t, fs, i) == HDR + BodySize(t, fs, 0)
    {
      if !fs[i].Unset? {
        sz := sz + FieldSize(t[i], fs[i]);
      }
      i := i + 1;
    }
  }

  /** The size of the body, the message type and the body. */
  ghost predicate Framed(buf: seq<Octet>, mtype: int, body: seq<Octet>) {
    Holds(buf, 0, Put(|body|, 4)) && Holds(buf, 4, Put(mtype, 2)) && Holds(buf, HDR, body)
  }

  lemma Header(mtype: int, body: seq<Octet>)
    ensures Framed(Put(|body|, 4) + Put(mtype, 2) + body, mtype, body) == true
  {
    var buf := Put(|body|, 4) + Put(mtype, 2) + body;
    assert Holds(buf, 0, buf);
    HoldsParts(buf, 0, Put(|body|, 4) + Put(mtype, 2), body);
    HoldsParts(buf, 0, Put(|body|, 4), Put(mtype, 2));
  }

  lemma HoldsMore(buf: seq<Octet>, more: seq<Octet>, at: nat, s: seq<Octet>)
    requires Holds(buf, at, s) == true
    ensures Holds(buf + more, at, s) == true
  {
  }

  lemma FramedMore(buf: seq<Octet>, more: seq<Octet>, mtype: int, body: seq<Octet>)
    requires Framed(buf, mtype, body) == true
    ensures Framed(buf + more, mtype, body) == true
  {
    HoldsMore(buf, more, 0, Put(|body|, 4));
    HoldsMore(buf, more, 4, Put(mtype, 2));
    HoldsMore(buf, more, HDR, body);
  }

  lemma CatNext(t: seq<Octet>, fs: seq<Field>, ps: seq<seq<Octet>>, i: nat, body: seq<Octet>)
    requires |t| == |fs| && i < |fs| && ps == Parts(t, fs)
    ensures body + Cat(ps, i) == (if fs[i].Unset? then body else body + Stamp(i, t[i], fs[i])) + Cat(ps, i + 1)
  {
    PartOf(t, fs, i);
    Assoc(body, ps[i], Cat(ps, i + 1));
  }

  /** The loop of msg_to_wire: the set fields are stamped one behind the other. */
  method StampAll(t: seq<Octet>, fs: seq<Field>) returns (body: seq<Octet>)
    requires |t| == |fs|
    ensures body == Body(t, fs)
  {
    ghost var ps, all := Parts(t, fs), Body(t, fs);
    Assoc([], all, []);
    body := [];
    var i := 0;
    while i < |fs|
      invariant 0 <= i <= |fs| && body + Cat(ps, i) == all
    {
      CatNext(t, fs, ps, i, body);
      if !fs[i].Unset? {
        body := body + Stamp(i, t[i], fs[i]);
      }
      i := i + 1;
    }
    Assoc(body, [], []);
  }

  /** msg_to_wire writes exactly as many bytes as msg_get_wire_size says; the header's size is filled in last. */
  method ToWire(mtype: int, t: seq<Octet>, fs: seq<Field>) returns (buf: seq<Octet>)
    requires MsgOk(t, fs)
    ensures Framed(buf, mtype, Body(t, fs)) == true && |buf| == HDR + |Body(t, fs)| == HDR + BodySize(t, fs, 0)
    ensures |buf| >= 6 && Four(buf, 0) == (|buf| - 6) % 0x1_0000_0000 && Two(buf, 4) == mtype % 0x1_0000
    ensures OnWire(t, fs, buf) == true
  {
    BodyLength(t, fs);
    var body := StampAll(t, fs);
    buf := Put(|body|, 4) + Put(mtype, 2) + body;
    Header(mtype, body);
    HeaderBytes(buf, mtype, body);
    BodyBytes(buf, mtype, t, fs);
  }

  // ---------------------------------------------------------------- the bytes of a message

  /** The bytes of a field with value f: two for its id, one for its type, and its value. */
  function Width(ft: int, f: Field): nat {
    match f
    case Unset => 0
    case Num(_) => if ft == 1 then 7 else 11
    case Buf(b) => 7 + |b|
  }

  /** Where field i begins. */
  function Offset(t: seq<Octet>, fs: seq<Field>, i: nat): nat
    requires i <= |t| == |fs|
  {
    if i == 0 then 6 else Offset(t, fs, i - 1) + Width(t[i - 1], fs[i - 1])
  }

  /** A set field, byte by byte: its id, its type, the length of a value that has one, and the value. */
  ghost predicate Spelled(buf: seq<Octet>, at: nat, id: nat, ft: Octet, f: Field) {
    !f.Unset? ==>
      && at + Width(ft, f) <= |buf| && at + 7 <= |buf| && Two(buf, at) == id && buf[at + 2] == ft
      && (f.Num? && ft == 1 ==> Four(buf, at + 3) == f.v)
      && (f.Num? && ft != 1 ==> ft == 3 && Eight(buf, at + 3) == f.v)
      && (f.Buf? ==> 5 <= ft <= 11 && Four(buf, at + 3) == |f.bytes| && buf[at + 7..at + 7 + |f.bytes|] == f.bytes)
  }

  /** The set fields in the order of their ids behind a header of six bytes, and nothing else. */
  ghost predicate OnWire(t: seq<Octet>, fs: seq<Field>, buf: seq<Octet>)
    requires |t| == |fs|
  {
    |buf| == Offset(t, fs, |fs|) && forall i :: 0 <= i < |fs| ==> Spelled(buf, Offset(t, fs, i), i, t[i], fs[i])
  }

  lemma {:induction false} SizeIsOffset(t: seq<Octet>, fs: seq<Field>, i: nat)
    requires i <= |t| == |fs| && FieldsOk(t, fs, i)
    ensures Offset(t, fs, i) + BodySize(t, fs, i) == Offset(t, fs, |fs|)
    decreases |fs| - i
  {
    if i < |fs| {
      SizeIsOffset(t, fs, i + 1);
    }
  }

  lemma BaseValues()
    ensures Base(2) == 0x1_0000 && Base(4) == 0x1_0000_0000
  {
    assert Base(1) == 0x100 && Base(3) == 0x100_0000;
  }

  lemma HeaderBytes(buf: seq<Octet>, mtype: int, body: seq<Octet>)
    requires Framed(buf, mtype, body) == true
    ensures |buf| >= 6 && Four(buf, 0) == |body| % 0x1_0000_0000 && Two(buf, 4) == mtype % 0x1_0000
  {
    GotModulo(buf, 0, |body|, 4);
    GotModulo(buf, 4, mtype, 2);
    GetFour(buf, 0);
    GetTwo(buf, 4);
    BaseValues();
  }

  lemma ReadableBytes(buf: seq<Octet>, at: nat, id: nat, ft: Octet, f: Field)
    requires StampAt(id, ft, f, buf, at) == true
    ensures Spelled(buf, at, id, ft, f) == true && Width(ft, f) == PartSize(ft, f)
  {
    if !f.Unset? {
      assert Readable(buf, at, id, ft, f);
      GetTwo(buf, at);
      GetFour(buf, at + 3);
      if f.Num? && ft == M_FT_UINT64 {
        GetEight(buf, at + 3);
      }
    }
  }

  lemma {:induction false} LaidBytes(t: seq<Octet>, fs: seq<Field>, i: nat, buf: seq<Octet>, at: nat, eob: nat)
    requires i <= |t| == |fs| && Laid(t, fs, i, buf, at, eob) == true && at == Offset(t, fs, i)
    ensures eob == Offset(t, fs, |fs|)
    ensures forall j :: i <= j < |fs| ==> Spelled(buf, Offset(t, fs, j), j, t[j], fs[j]) == true
    decreases |fs| - i
  {
    if i < |fs| {
      LaidNext(t, fs, i, buf, at, eob);
      ReadableBytes(buf, at, i, t[i], fs[i]);
      LaidBytes(t, fs, i + 1, buf, at + PartSize(t[i], fs[i]), eob);
    }
  }

  lemma BodyBytes(buf: seq<Octet>, mtype: int, t: seq<Octet>, fs: seq<Field>)
    requires |t| == |fs| && MsgOk(t, fs) == true
    requires Framed(buf, mtype, Body(t, fs)) == true && |buf| == HDR + |Body(t, fs)|
    ensures OnWire(t, fs, buf) == true
  {
    CatRows(Parts(t, fs), 0, buf, HDR, |buf|);
    RowsLaid(t, fs, Parts(t, fs), 0, buf, HDR, |buf|);
    LaidBytes(t, fs, 0, buf, HDR, |buf|);
  }

  // ---------------------------------------------------------------- reading

  /** What a parse gives: 0 or the error of the source, and the fields set so far. */
  datatype Parsed = Parsed(code: int, fs: seq<Field>)

  function LengthBytes(ft: int): nat {
    if ft == M_FT_UINT32 || ft == M_FT_UINT64 then 0 else 4
  }

  /** The size of the value of a field at `at`: fixed, or in the four bytes after the field header. */
  function ValueSize(ft: int, buf: seq<Octet>, at: nat): nat
    requires at + FIELD_HDR + 4 <= |buf|
  {
    if ft == M_FT_UINT32 then 4 else if ft == M_FT_UINT64 then 8 else Get(buf, at + FIELD_HDR, 4)
  }

  /** A field is taken when the template has its id with the same type; others are skipped. */
  function Accept(t: seq<Octet>, fs: seq<Field>, id: nat, ft: int, buf: seq<Octet>, p: nat, size: nat): (r: seq<Field>)
    requires |t| == |fs| && p + size <= |buf| && (ft == M_FT_UINT32 ==> size == 4) && (ft == M_FT_UINT64 ==> size == 8)
    ensures |r| == |fs|
  {
    if id >= |t| || ft != t[id] then fs
    else if Sized(ft) then fs[id := Buf(buf[p..p + size])]
    else if ft == M_FT_UINT32 then fs[id := Num(Get(buf, p, 4))]
    else if ft == M_FT_UINT64 then fs[id := Num(Get(buf, p, 8))]
    else fs[id := Unset]
  }

  function ParseAt(t: seq<Octet>, fs: seq<Field>, buf: seq<Octet>, at: nat, eob: nat): (r: Parsed)
    requires |t| == |fs| && at <= eob <= |buf|
    decreases eob - at
  {
    if at == eob then Parsed(0, fs)
    else if eob - at < FIELD_HDR + 4 then Parsed(-4, fs)
    else
      var ft := buf[at + 2];
      var p, size := at + FIELD_HDR + LengthBytes(ft), ValueSize(ft, buf, at);
      if eob < p + size then Parsed(-5, fs)
      else ParseAt(t, Accept(t, fs, Get(buf, at, 2), ft, buf, p, size), buf, p + size, eob)
  }

  /** Where the field at `at` ends, as its type and its length bytes say. */
  function After(buf: seq<Octet>, at: nat): int
    requires at + 7 <= |buf|
  {
    if buf[at + 2] == 1 then at + 7 else if buf[at + 2] == 3 then at + 11 else at + 7 + Four(buf, at + 3)
  }

  ghost predicate Fits(buf: seq<Octet>, at: nat, eob: nat) {
    at + 7 <= eob <= |buf| && After(buf, at) <= eob
  }

  /** The value that the bytes of the field at `at` spell. */
  ghost function Told(buf: seq<Octet>, at: nat): Field
    requires Fits(buf, at, |buf|)
  {
    if buf[at + 2] == 1 then Num(Four(buf, at + 3))
    else if buf[at + 2] == 3 then Num(Eight(buf, at + 3))
    else if 5 <= buf[at + 2] <= 11 then Buf(buf[at + 7..After(buf, at)])
    else Unset
  }

  /** What the fields at ps make of f, the field with id j and type ft: one with that id and type replaces it. */
  ghost function Heard(buf: seq<Octet>, ps: seq<nat>, j: nat, ft: Octet, f: Field): Field
    requires forall k :: 0 <= k < |ps| ==> Fits(buf, ps[k], |buf|)
  {
    if ps == [] then f
    else
      assert Fits(buf, ps[0], |buf|);
      Heard(buf, ps[1..], j, ft, if Two(buf, ps[0]) == j && buf[ps[0] + 2] == ft then Told(buf, ps[0]) else f)
  }

  /** Fields lie one behind the other at ps, from `at` to last. */
  ghost predicate Cut(buf: seq<Octet>, ps: seq<nat>, at: nat, last: nat, eob: nat)
    decreases |ps|
  {
    if ps == [] then at == last <= eob
    else ps[0] == at && Fits(buf, at, eob) && Cut(buf, ps[1..], After(buf, at), last, eob)
  }

  lemma {:induction false} CutFits(buf: seq<Octet>, ps: seq<nat>, at: nat, last: nat, eob: nat)
    requires Cut(buf, ps, at, last, eob)
    ensures forall k :: 0 <= k < |ps| ==> Fits(buf, ps[k], |buf|)
    decreases |ps|
  {
    if ps != [] {
      CutFits(buf, ps[1..], After(buf, at), last, eob);
      assert forall k :: 0 < k < |ps| ==> ps[k] == ps[1..][k - 1];
    }
  }

  /**
    How the bytes from `at` to eob are read: as the fields at ps, up to `last`. That is the end, or the
    bytes left are too few for a field header and a length, or the field there is longer than what is left.
   */
  ghost predicate Heeds(t: seq<Octet>, fs: seq<Field>, buf: seq<Octet>, at: nat, eob: nat, ps: seq<nat>, last: nat,
                        r: Parsed) {
    && Cut(buf, ps, at, last, eob) && (forall k :: 0 <= k < |ps| ==> Fits(buf, ps[k], |buf|))
    && last <= eob <= |buf| && !Fits(buf, last, eob)
    && r.code == (if last == eob then 0 else if eob - last < 7 then -4 else -5)
    && |t| == |fs| == |r.fs| && forall j :: 0 <= j < |t| ==> r.fs[j] == Heard(buf, ps, j, t[j], fs[j])
  }

  ghost predicate Understood(t: seq<Octet>, fs: seq<Field>, buf: seq<Octet>, at: nat, eob: nat, r: Parsed) {
    exists ps, last :: Heeds(t, fs, buf, at, eob, ps, last, r)
  }

  lemma FieldBytes(t: seq<Octet>, fs: seq<Field>, buf: seq<Octet>, at: nat, eob: nat)
    requires |t| == |fs| && at + 7 <= eob <= |buf|
    ensures var ft := buf[at + 2];
      && After(buf, at) == at + FIELD_HDR + LengthBytes(ft) + ValueSize(ft, buf, at)
      && Get(buf, at, 2) == Two(buf, at)
  {
    GetTwo(buf, at);
    GetFour(buf, at + 3);
  }

  /** A field that fits is accepted where the template has its id with the same type. */
  lemma AcceptBytes(t: seq<Octet>, fs: seq<Field>, buf: seq<Octet>, at: nat, p: nat, size: nat, j: nat)
    requires |t| == |fs| && Fits(buf, at, |buf|) && j < |t|
    requires p == at + FIELD_HDR + LengthBytes(buf[at + 2]) && size == ValueSize(buf[at + 2], buf, at)
    requires p + size <= |buf|
    ensures Accept(t, fs, Get(buf, at, 2), buf[at + 2], buf, p, size)[j] ==
      if Two(buf, at) == j && buf[at + 2] == t[j] then Told(buf, at) else fs[j]
  {
    GetTwo(buf, at);
    GetFour(buf, at + 3);
    if buf[at + 2] == 3 {
      GetEight(buf, at + 3);
    }
  }

  /** A field that fits is read, and then the rest. */
  lemma ReadOne(t: seq<Octet>, fs: seq<Field>, buf: seq<Octet>, at: nat, eob: nat) returns (g: seq<Field>)
    requires |t| == |fs| && Fits(buf, at, eob)
    ensures |g| == |fs| && ParseAt(t, fs, buf, at, eob) == ParseAt(t, g, buf, After(buf, at), eob)
    ensures forall j :: 0 <= j < |t| ==>
      g[j] == if Two(buf, at) == j && buf[at + 2] == t[j] then Told(buf, at) else fs[j]
  {
    FieldBytes(t, fs, buf, at, eob);
    var ft := buf[at + 2];
    var p, size := at + FIELD_HDR + LengthBytes(ft), ValueSize(ft, buf, at);
    g := Accept(t, fs, Get(buf, at, 2), ft, buf, p, size);
    forall j | 0 <= j < |t| ensures g[j] == if Two(buf, at) == j && ft == t[j] then Told(buf, at) else fs[j] {
      AcceptBytes(t, fs, buf, at, p, size, j);
    }
  }

  /** Where no field fits, the reading stops. */
  lemma ReadNone(t: seq<Octet>, fs: seq<Field>, buf: seq<Octet>, at: nat, eob: nat)
    requires |t| == |fs| && at <= eob <= |buf| && !Fits(buf, at, eob)
    ensures Heeds(t, fs, buf, at, eob, [], at, ParseAt(t, fs, buf, at, eob)) == true
  {
    if eob - at >= 7 {
      FieldBytes(t, fs, buf, at, eob);
    }
  }

  /** Every buffer is read in one way. */
  lemma {:induction false} Reading(t: seq<Octet>, fs: seq<Field>, buf: seq<Octet>, at: nat, eob: nat)
    returns (ps: seq<nat>, last: nat)
    requires |t| == |fs| && at <= eob <= |buf|
    ensures Heeds(t, fs, buf, at, eob, ps, last, ParseAt(t, fs, buf, at, eob)) == true
    decreases eob - at
  {
    if Fits(buf, at, eob) {
      var g := ReadOne(t, fs, buf, at, eob);
      var next := After(buf, at);
      ps, last := Reading(t, g, buf, next, eob);
      HeedMore(t, fs, g, buf, at, next, eob, ps, last, ParseAt(t, g, buf, next, eob));
      ps := [at] + ps;
    } else {
      ReadNone(t, fs, buf, at, eob);
      ps, last := [], at;
    }
  }

  lemma Understand(t: seq<Octet>, fs: seq<Field>, buf: seq<Octet>, at: nat, eob: nat)
    requires |t| == |fs| && at <= eob <= |buf|
    ensures Understood(t, fs, buf, at, eob, ParseAt(t, fs, buf, at, eob)) == true
  {
    var _, _ := Reading(t, fs, buf, at, eob);
  }

  lemma HeedMore(t: seq<Octet>, fs: seq<Field>, g: seq<Field>, buf: seq<Octet>, at: nat, next: nat, eob: nat,
                 ps: seq<nat>, last: nat, r: Parsed)
    requires Heeds(t, g, buf, next, eob, ps, last, r) == true && |t| == |fs| && Fits(buf, at, eob) &&
      next == After(buf, at)
    requires forall j :: 0 <= j < |t| ==>
      g[j] == if Two(buf, at) == j && buf[at + 2] == t[j] then Told(buf, at) else fs[j]
    ensures Heeds(t, fs, buf, at, eob, [at] + ps, last, r) == true
  {
    assert Heeds(t, g, buf, next, eob, ps, last, r);
    var qs := [at] + ps;
    assert qs[1..] == ps;
    CutFits(buf, qs, at, last, eob);
  }

  /** msg_parse. Every access is inside the buffer, whatever it contains, and the loop ends. */
  method Parse(mtype: int, t: seq<Octet>, blank: seq<Field>, buf: seq<Octet>) returns (code: int, fs: seq<Field>)
    requires |t| == |blank|
    ensures |fs| == |blank| && (code != 0 && code !in {-4, -5} ==> fs == blank)
    ensures code == -1 <==> |buf| < 6
    ensures code == -2 <==> |buf| >= 6 && |buf| < 6 + Four(buf, 0)
    ensures code == -3 <==> |buf| >= 6 && |buf| >= 6 + Four(buf, 0) && Two(buf, 4) != mtype
    ensures |buf| >= 6 && |buf| >= 6 + Four(buf, 0) && Two(buf, 4) == mtype ==>
      && Parsed(code, fs) == ParseAt(t, blank, buf, 6, 6 + Four(buf, 0))
      && Understood(t, blank, buf, 6, 6 + Four(buf, 0), Parsed(code, fs)) == true
  {
    fs := blank;
    if |buf| < HDR {
      return -1, fs;
    }
    GetFour(buf, 0);
    GetTwo(buf, 4);
    var sz := Get(buf, 0, 4);
    if |buf| < sz + HDR {
      return -2, fs;
    }
    if Get(buf, 4, 2) != mtype {
      return -3, fs;
    }
    var at, eob := HDR, HDR + sz;
    Understand(t, blank, buf, at, eob);
    while at != eob
      invariant HDR <= at <= eob <= |buf| && |fs| == |t|
      invariant ParseAt(t, fs, buf, at, eob) == ParseAt(t, blank, buf, HDR, eob)
      decreases eob - at
    {
      var left := eob - at;
      if left < FIELD_HDR + 4 {
        return -4, fs;
      }
      var id, ft := Get(buf, at, 2), buf[at + 2];
      var p, fsz := at + FIELD_HDR + LengthBytes(ft), ValueSize(ft, buf, at);
      if left < FIELD_HDR + LengthBytes(ft) + fsz {
        return -5, fs;
      }
      fs := Accept(t, fs, id, ft, buf, p, fsz);
      at := p + fsz;
    }
    code := 0;
  }

  // ---------------------------------------------------------------- round trips

  /** A field with this id, type and value can be read at `at`. */
  ghost predicate Readable(buf: seq<Octet>, at: nat, id: nat, ft: Octet, f: Field) {
    && at + FieldSize(ft, f) <= |buf| && at + FIELD_HDR + 4 <= |buf| && Get(buf, at, 2) == id && buf[at + 2] == ft
    && match f {
       case Unset => false
       case Num(v) => (ft == M_FT_UINT32 && v == Get(buf, at + FIELD_HDR, 4)) ||
         (ft == M_FT_UINT64 && v == Get(buf, at + FIELD_HDR, 8))
       case Buf(b) => Sized(ft) && Get(buf, at + FIELD_HDR, 4) == |b| && Holds(buf, at + FIELD_HDR + 4, b)
    }
  }

  lemma StampParts(buf: seq<Octet>, at: nat, id: nat, ft: Octet, f: Field)
    requires Holds(buf, at, Stamp(id, ft, f)) == true && id < Base(2)
    ensures at + 3 <= |buf| && Get(buf, at, 2) == id && buf[at + 2] == ft
    ensures Holds(buf, at + 3, Length(f)) == true && Holds(buf, at + 3 + |Length(f)|, Payload(ft, f)) == true
  {
    var h := Put(id, 2) + [ft];
    HoldsParts(buf, at, h, Length(f) + Payload(ft, f));
    HoldsParts(buf, at, Put(id, 2), [ft]);
    HoldsParts(buf, at + 3, Length(f), Payload(ft, f));
    assert buf[at + 2 + 0] == [ft][0];
    Got(buf, at, id, 2);
  }

  lemma StampReadable(buf: seq<Octet>, at: nat, id: nat, ft: Octet, f: Field)
    requires Holds(buf, at, Stamp(id, ft, f)) == true && FieldOk(ft, f) && !f.Unset? && id < Base(2)
    ensures Readable(buf, at, id, ft, f) == true
  {
    StampParts(buf, at, id, ft, f);
    if f.Buf? {
      Got(buf, at + 3, |f.bytes|, 4);
    } else if ft == M_FT_UINT32 {
      Got(buf, at + 3, f.v, 4);
    } else {
      Got(buf, at + 3, f.v, 8);
    }
  }

  /** Parsing a field takes exactly its bytes and gives back its value. */
  lemma ReadField(t: seq<Octet>, g: seq<Field>, buf: seq<Octet>, at: nat, eob: nat, id: nat, ft: Octet, f: Field)
    requires |t| == |g| && Readable(buf, at, id, ft, f) == true && at + FieldSize(ft, f) <= eob <= |buf|
    ensures ParseAt(t, g, buf, at, eob) == ParseAt(t, Taken(ft, f, t, g, id), buf, at + FieldSize(ft, f), eob)
  {
    if f.Buf? {
      Sliced(buf, at + FIELD_HDR + 4, f.bytes);
    }
  }

  lemma Sliced(buf: seq<Octet>, at: nat, s: seq<Octet>)
    requires Holds(buf, at, s) == true
    ensures at + |s| <= |buf| && buf[at..at + |s|] == s
  {
  }

  /** Fields that both templates have with the same type, put over g from i on. */
  ghost function Project(t: seq<Octet>, fs: seq<Field>, u: seq<Octet>, g: seq<Field>, i: nat): (r: seq<Field>)
    requires |t| == |fs| && |u| == |g|
    ensures |r| == |g|
    decreases |fs| - i
  {
    if i >= |fs| then g else Project(t, fs, u, Taken(t[i], fs[i], u, g, i), i + 1)
  }

  ghost function Taken(ft: Octet, f: Field, u: seq<Octet>, g: seq<Field>, i: nat): (r: seq<Field>)
    requires |u| == |g|
    ensures |r| == |g|
  {
    if !f.Unset? && i < |u| && u[i] == ft then g[i := f] else g
  }

  /** The stamps of the set fields from i on lie one behind the other from `at` to eob. */
  ghost predicate Laid(t: seq<Octet>, fs: seq<Field>, i: nat, buf: seq<Octet>, at: nat, eob: nat)
    requires |t| == |fs|
    decreases |fs| - i
  {
    if i >= |fs| then at == eob <= |buf| else
      && at + PartSize(t[i], fs[i]) <= eob <= |buf| && StampAt(i, t[i], fs[i], buf, at)
      && Laid(t, fs, i + 1, buf, at + PartSize(t[i], fs[i]), eob)
  }

  /** Field i, if it is set, can be read at `at`. */
  ghost predicate StampAt(i: nat, ft: Octet, f: Field, buf: seq<Octet>, at: nat) {
    !f.Unset? ==> Readable(buf, at, i, ft, f)
  }

  lemma PartAt(i: nat, ft: Octet, f: Field, buf: seq<Octet>, at: nat)
    requires Holds(buf, at, Part(i, ft, f)) == true && FieldOk(ft, f) && i < Base(2)
    ensures StampAt(i, ft, f, buf, at) == true
  {
    if !f.Unset? {
      StampReadable(buf, at, i, ft, f);
    }
  }

  /** The pieces from i on lie one behind the other from `at` to eob. */
  ghost predicate Rows(ps: seq<seq<Octet>>, i: nat, buf: seq<Octet>, at: nat, eob: nat)
    decreases |ps| - i
  {
    if i >= |ps| then at == eob <= |buf| else
      at + |ps[i]| <= eob <= |buf| && Holds(buf, at, ps[i]) && Rows(ps, i + 1, buf, at + |ps[i]|, eob)
  }

  lemma {:induction false} CatRows(ps: seq<seq<Octet>>, i: nat, buf: seq<Octet>, at: nat, eob: nat)
    requires Holds(buf, at, Cat(ps, i)) == true && eob == at + |Cat(ps, i)|
    ensures Rows(ps, i, buf, at, eob) == true && eob <= |buf|
    decreases |ps| - i
  {
    if i < |ps| {
      HoldsParts(buf, at, ps[i], Cat(ps, i + 1));
      CatRows(ps, i + 1, buf, at + |ps[i]|, eob);
    }
  }

  lemma RowsNext(t: seq<Octet>, fs: seq<Field>, ps: seq<seq<Octet>>, i: nat, buf: seq<Octet>, at: nat, eob: nat)
    requires |t| == |fs| && i < |fs| <= Base(2) && FieldsOk(t, fs, i) == true && ps == Parts(t, fs)
    requires Rows(ps, i, buf, at, eob) == true
    ensures StampAt(i, t[i], fs[i], buf, at) == true && FieldsOk(t, fs, i + 1) == true
    ensures at + PartSize(t[i], fs[i]) <= eob <= |buf| && Rows(ps, i + 1, buf, at + PartSize(t[i], fs[i]), eob) == true
  {
    PartOf(t, fs, i);
    PartLength(i, t[i], fs[i]);
    PartAt(i, t[i], fs[i], buf, at);
  }

  lemma {:induction false} RowsLaid(t: seq<Octet>, fs: seq<Field>, ps: seq<seq<Octet>>, i: nat, buf: seq<Octet>,
                                    at: nat, eob: nat)
    requires |t| == |fs| <= Base(2) && FieldsOk(t, fs, i) == true && ps == Parts(t, fs) &&
      Rows(ps, i, buf, at, eob) == true
    ensures Laid(t, fs, i, buf, at, eob) == true
    decreases |fs| - i
  {
    if i < |fs| {
      RowsNext(t, fs, ps, i, buf, at, eob);
      RowsLaid(t, fs, ps, i + 1, buf, at + PartSize(t[i], fs[i]), eob);
      LaidAlso(t, fs, i, buf, at, eob);
    }
  }

  lemma LaidAlso(t: seq<Octet>, fs: seq<Field>, i: nat, buf: seq<Octet>, at: nat, eob: nat)
    requires |t| == |fs| && i < |fs| && StampAt(i, t[i], fs[i], buf, at) == true &&
      at + PartSize(t[i], fs[i]) <= eob <= |buf|
    requires Laid(t, fs, i + 1, buf, at + PartSize(t[i], fs[i]), eob) == true
    ensures Laid(t, fs, i, buf, at, eob) == true
  {
  }

  lemma LaidNext(t: seq<Octet>, fs: seq<Field>, i: nat, buf: seq<Octet>, at: nat, eob: nat)
    requires |t| == |fs| && i < |fs| && Laid(t, fs, i, buf, at, eob) == true
    ensures Laid(t, fs, i + 1, buf, at + PartSize(t[i], fs[i]), eob) == true &&
      at + PartSize(t[i], fs[i]) <= eob <= |buf|
    ensures StampAt(i, t[i], fs[i], buf, at) == true
  {
  }

  /** Field i, if it is set, is parsed before the rest. */
  lemma OneField(u: seq<Octet>, g: seq<Field>, i: nat, ft: Octet, f: Field, buf: seq<Octet>, at: nat, eob: nat)
    requires |u| == |g| && StampAt(i, ft, f, buf, at) == true && at + PartSize(ft, f) <= eob <= |buf|
    ensures ParseAt(u, g, buf, at, eob) == ParseAt(u, Taken(ft, f, u, g, i), buf, at + PartSize(ft, f), eob)
  {
    if !f.Unset? {
      ReadField(u, g, buf, at, eob, i, ft, f);
    }
  }

  lemma LaidField(t: seq<Octet>, fs: seq<Field>, u: seq<Octet>, g: seq<Field>, i: nat, buf: seq<Octet>, at: nat,
                  eob: nat, r: Parsed, h: seq<Field>, p: nat)
    requires |t| == |fs| && i < |fs| && |u| == |g| && Laid(t, fs, i, buf, at, eob) == true && at <= eob <= |buf|
    requires r == ParseAt(u, g, buf, at, eob) && h == Taken(t[i], fs[i], u, g, i) && p == at + PartSize(t[i], fs[i])
    ensures Laid(t, fs, i + 1, buf, p, eob) == true && p <= eob && r == ParseAt(u, h, buf, p, eob)
  {
    LaidNext(t, fs, i, buf, at, eob);
    OneField(u, g, i, t[i], fs[i], buf, at, eob);
  }

  lemma {:induction false} ParseIsProject(t: seq<Octet>, fs: seq<Field>, u: seq<Octet>, g: seq<Field>, i: nat,
                                          buf: seq<Octet>, at: nat, eob: nat, r: Parsed)
    requires |t| == |fs| && |u| == |g| && Laid(t, fs, i, buf, at, eob) == true && at <= eob <= |buf|
    requires r == ParseAt(u, g, buf, at, eob)
    ensures r == Parsed(0, Project(t, fs, u, g, i))
    decreases |fs| - i
  {
    if i < |fs| {
      var h, p := Taken(t[i], fs[i], u, g, i), at + PartSize(t[i], fs[i]);
      LaidField(t, fs, u, g, i, buf, at, eob, r, h, p);
      ParseIsProject(t, fs, u, h, i + 1, buf, p, eob, r);
    }
  }

  lemma {:induction false} ProjectAt(t: seq<Octet>, fs: seq<Field>, u: seq<Octet>, g: seq<Field>, i: nat)
    requires |t| == |fs| && |u| == |g|
    ensures forall j :: 0 <= j < |g| ==>
      Project(t, fs, u, g, i)[j] == if i <= j < |fs| && !fs[j].Unset? && u[j] == t[j] then fs[j] else g[j]
    decreases |fs| - i
  {
    if i < |fs| {
      ProjectAt(t, fs, u, Taken(t[i], fs[i], u, g, i), i + 1);
    }
  }

  /** What a message (t, fs) looks like under template u. */
  ghost predicate Projected(t: seq<Octet>, fs: seq<Field>, u: seq<Octet>, got: seq<Field>) {
    && |got| == |u| && |t| == |fs|
    && (forall j :: 0 <= j < |u| ==> got[j] == if j < |fs| && u[j] == t[j] then fs[j] else Unset)
    && (u == t ==> got == fs)
  }

  /**
    A message written under template t and parsed, from anywhere in a buffer, into a fresh message of
    template u gives the fields that u has with the same id and type, with their values, and no others;
    under t itself it gives back the whole message.
   */
  lemma RoundTrip(t: seq<Octet>, fs: seq<Field>, u: seq<Octet>, blank: seq<Field>, buf: seq<Octet>, at: nat, eob: nat)
    requires |t| == |fs| && |u| == |blank| && Laid(t, fs, 0, buf, at, eob) == true && at <= eob <= |buf|
    requires forall j :: 0 <= j < |u| ==> blank[j] == Unset
    ensures ParseAt(u, blank, buf, at, eob).code == 0 && Projected(t, fs, u, ParseAt(u, blank, buf, at, eob).fs) == true
  {
    ParseIsProject(t, fs, u, blank, 0, buf, at, eob, ParseAt(u, blank, buf, at, eob));
    ProjectAt(t, fs, u, blank, 0);
  }

  /** The buffer begins with the message (t, fs) of type mtype. */
  ghost predicate Carries(buf: seq<Octet>, mtype: int, t: seq<Octet>, fs: seq<Field>)
    requires |t| == |fs|
  {
    && |buf| >= HDR && Get(buf, 4, 2) == mtype && HDR + Get(buf, 0, 4) <= |buf|
    && Laid(t, fs, 0, buf, HDR, HDR + Get(buf, 0, 4))
  }

  lemma WireLaid(buf: seq<Octet>, mtype: int, t: seq<Octet>, fs: seq<Field>)
    requires |t| == |fs| && MsgOk(t, fs) == true && 0 <= mtype < Base(2) && |Body(t, fs)| < Base(4)
    requires Framed(buf, mtype, Body(t, fs)) == true
    ensures Carries(buf, mtype, t, fs) == true
  {
    var body := Body(t, fs);
    HeaderRead(buf, mtype, body);
    CatRows(Parts(t, fs), 0, buf, HDR, HDR + |body|);
    RowsLaid(t, fs, Parts(t, fs), 0, buf, HDR, HDR + |body|);
  }

  lemma HeaderRead(buf: seq<Octet>, mtype: int, body: seq<Octet>)
    requires Framed(buf, mtype, body) == true && 0 <= mtype < Base(2) && |body| < Base(4)
    ensures |buf| >= HDR + |body| && Get(buf, 0, 4) == |body| && Get(buf, 4, 2) == mtype &&
      Holds(buf, HDR, body) == true
  {
    Got(buf, 0, |body|, 4);
    Got(buf, 4, mtype, 2);
  }

  /** A message on the wire, with anything behind it. */
  method Send(mtype: int, t: seq<Octet>, fs: seq<Field>, more: seq<Octet>) returns (buf: seq<Octet>)
    requires |t| == |fs| && MsgOk(t, fs) == true && 0 <= mtype < Base(2) && BodySize(t, fs, 0) < Base(4)
    ensures Carries(buf, mtype, t, fs) == true
  {
    var wire := ToWire(mtype, t, fs);
    FramedMore(wire, more, mtype, Body(t, fs));
    buf := wire + more;
    WireLaid(buf, mtype, t, fs);
  }

  /** Writing and parsing, end to end. */
  method WriteThenParse(mtype: int, t: seq<Octet>, fs: seq<Field>, u: seq<Octet>, blank: seq<Field>, more: seq<Octet>)
    returns (code: int, got: seq<Field>)
    requires |t| == |fs| && MsgOk(t, fs) == true && 0 <= mtype < Base(2) && BodySize(t, fs, 0) < Base(4)
    requires |u| == |blank| && forall j :: 0 <= j < |u| ==> blank[j] == Unset
    ensures code == 0 && Projected(t, fs, u, got) == true
  {
    var buf := Send(mtype, t, fs, more);
    GetFour(buf, 0);
    GetTwo(buf, 4);
    RoundTrip(t, fs, u, blank, buf, HDR, HDR + Get(buf, 0, 4));
    code, got := Parse(mtype, u, blank, buf);
  }
}
