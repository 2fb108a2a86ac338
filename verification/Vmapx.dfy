/**
  The name-to-index map of cf/src/vmapx.c: names are put under a lock and looked up without one. One
  writer and any number of readers are interleaved at every access to the shared vector and hash.
 */
module Vmapx {

  // ---------------------------------------------------------------- names and keys

  const PAD := 120

  /** A name that may be put: no NUL, and shorter than the key field. */
  ghost predicate NameOk(n: seq<int>, size: nat) {
    |n| < size && forall i :: 0 <= i < |n| ==> n[i] != 0
  }

  /** vhash_set_ele_key: the name, a NUL, and 'x' up to the end of the key field. */
  function Padded(n: seq<int>, size: nat): (k: seq<int>)
    requires |n| < size
  {
    n + [0] + seq(size - |n| - 1, i => PAD)
  }

  /** The test in vhash_get. */
  predicate Matches(k: seq<int>, q: seq<int>)
    requires |q| < |k|
  {
    k[|q|] == 0 && k[..|q|] == q
  }

  lemma PaddedAt(n: seq<int>, size: nat)
    requires |n| < size
    ensures var k := Padded(n, size);
      |k| == size && k[|n|] == 0 && k[..|n|] == n && (forall i :: 0 <= i < |n| ==> k[i] == n[i]) &&
        forall i :: |n| < i < size ==> k[i] == PAD
  {
  }

  /** A stored key matches exactly the name it was made from; a query with a NUL inside matches none. */
  lemma MatchIsName(n: seq<int>, q: seq<int>, size: nat)
    requires NameOk(n, size) && |q| < size
    ensures |Padded(n, size)| == size && (Matches(Padded(n, size), q) <==> q == n)
  {
    PaddedAt(n, size);
  }

  // ---------------------------------------------------------------- the shared state

  /** A hash element; next is the position of the following one, or -1. */
  datatype Elem = Elem(key: seq<int>, value: int, next: int)

  /** What a put returns: the index of the name, added or already there, or an error. */
  datatype Answer = Added(index: int) | Exists(index: int) | BadParam | Full

  /** Where the writer is in putting name n. */
  datatype Writer =
    | Resting
    | Looking(n: seq<int>, e: int)   // its own vhash_get, before element e
    | Naming(n: seq<int>)            // n is new and fits: before writing it to the vector
    | Counting(n: seq<int>)          // before raising the count
    | Filling(n: seq<int>)           // before filling an element with n and its index
    | Linking(n: seq<int>, e: int)   // element e is filled: before making it reachable
    | Answered(n: seq<int>, a: Answer)

  /** Where a reader is in looking up name q; `must` notes that q was reachable when it began. */
  datatype Reader =
    | Away
    | Seeking(q: seq<int>, must: bool, e: int)
    | Found(q: seq<int>, value: int)
    | Missed(q: seq<int>, must: bool)

  /**
    The vector with its count, the rows in use, and the elements: the first `rows` of them are the heads
    of the rows. `chains` lists the reachable elements of each row, for the proof only.
   */
  datatype State = State(vec: seq<seq<int>>, count: nat, used: seq<bool>, elems: seq<Elem>, writer: Writer,
                         readers: seq<Reader>, chains: seq<seq<int>>)

  /** Key size, number of rows and hash function. */
  datatype Config = Config(size: nat, rows: nat, fn: seq<int> -> nat)

  function Row(c: Config, n: seq<int>): (r: nat)
    requires c.rows > 0
    ensures r < c.rows
  {
    c.fn(n) % c.rows
  }

  // ---------------------------------------------------------------- chains

  /** The elements linked from e on are those of chain. */
  ghost predicate Linked(elems: seq<Elem>, e: int, chain: seq<int>)
    decreases chain
  {
    if chain == [] then e == -1 else
      e == chain[0] && 0 <= e < |elems| && e !in chain[1..] && Linked(elems, elems[e].next, chain[1..])
  }

  /** The part of a chain from e on. */
  ghost function From(chain: seq<int>, e: int): (r: seq<int>) {
    if chain == [] || chain[0] == e then chain else From(chain[1..], e)
  }

  lemma {:induction false} FromFacts(elems: seq<Elem>, h: int, chain: seq<int>, e: int)
    requires Linked(elems, h, chain) && e in chain
    ensures var f := From(chain, e);
      && f != [] && f[0] == e && Linked(elems, e, f) && (forall x :: x in f ==> x in chain)
      && (f[1..] == [] ==> elems[e].next == -1)
      && (f[1..] != [] ==> elems[e].next == f[1] && f[1] in chain && From(chain, f[1]) == f[1..])
    decreases chain
  {
    if chain[0] == e {
      var t := chain[1..];
      if t != [] {
        assert t[0] in t;
      }
    } else {
      FromFacts(elems, elems[h].next, chain[1..], e);
    }
  }

  /** Links survive new elements and changes elsewhere. */
  lemma {:induction false} LinkedKept(elems: seq<Elem>, more: seq<Elem>, e: int, chain: seq<int>)
    requires Linked(elems, e, chain) && |elems| <= |more| &&
      forall x :: x in chain && 0 <= x < |elems| ==> more[x].next == elems[x].next
    ensures Linked(more, e, chain)
    decreases chain
  {
    if chain != [] {
      assert e in chain;
      LinkedKept(elems, more, elems[e].next, chain[1..]);
    }
  }

  lemma {:induction false} LinkedIn(elems: seq<Elem>, e: int, chain: seq<int>)
    requires Linked(elems, e, chain)
    ensures forall x :: x in chain ==> 0 <= x < |elems|
    decreases chain
  {
    if chain != [] {
      LinkedIn(elems, elems[e].next, chain[1..]);
      assert chain == [chain[0]] + chain[1..];
    }
  }

  // ---------------------------------------------------------------- the invariant

  /** Element e holds a name and its index. */
  ghost predicate Holds(c: Config, s: State, e: int) {
    && 0 <= e < |s.elems| && 0 <= s.elems[e].value < s.count <= |s.vec|
    && NameOk(s.vec[s.elems[e].value], c.size) && s.elems[e].key == Padded(s.vec[s.elems[e].value], c.size)
  }

  ghost function Name(s: State, e: int): seq<int> {
    if 0 <= e < |s.elems| && 0 <= s.elems[e].value < |s.vec| then s.vec[s.elems[e].value] else []
  }

  /** Row r: unused and empty, or headed by element r; it holds names that hash to it. */
  ghost predicate RowOk(c: Config, s: State, r: nat)
    requires c.rows > 0 && |s.used| == |s.chains| == c.rows <= |s.elems| && r < c.rows
  {
    && (s.used[r] <==> s.chains[r] != []) && (s.chains[r] == [] ==> s.elems[r].next == -1)
    && (s.chains[r] != [] ==> s.chains[r][0] == r && Linked(s.elems, r, s.chains[r]))
    && (forall e :: e in s.chains[r] ==> Holds(c, s, e) && Row(c, Name(s, e)) == r && (e == r || e >= c.rows))
  }

  ghost predicate Sizes(c: Config, s: State) {
    c.rows > 0 && |s.used| == |s.chains| == c.rows <= |s.elems| && s.count <= |s.vec|
  }

  /** Name n is in the hash. */
  ghost predicate Reachable(c: Config, s: State, n: seq<int>)
    requires Sizes(c, s)
  {
    exists e :: e in s.chains[Row(c, n)] && Name(s, e) == n
  }

  ghost predicate Known(s: State, n: seq<int>) {
    exists i :: 0 <= i < s.count && i < |s.vec| && s.vec[i] == n
  }

  /** Names are legal and distinct. */
  ghost predicate NamesOk(c: Config, s: State)
    requires Sizes(c, s)
  {
    && (forall i :: 0 <= i < s.count ==> NameOk(s.vec[i], c.size))
    && (forall i, j :: 0 <= i < j < s.count ==> s.vec[i] != s.vec[j])
  }

  /** The name being put is the only one that is counted but perhaps not yet in the hash. */
  ghost predicate Complete(c: Config, s: State)
    requires Sizes(c, s)
  {
    forall i :: 0 <= i < s.count ==> Reachable(c, s, s.vec[i]) || (Pending(s) && i == s.count - 1)
  }

  ghost predicate Pending(s: State) {
    s.writer.Filling? || s.writer.Linking?
  }

  ghost predicate WriterOk(c: Config, s: State)
    requires Sizes(c, s)
  {
    match s.writer
    case Resting => true
    case Looking(n, e) => ReaderOk(c, s, Seeking(n, Reachable(c, s, n), e))
    case Answered(n, a) => AnswerOk(c, s, n, a)
    case Naming(n) => NameOk(n, c.size) && !Known(s, n) && s.count < |s.vec|
    case Counting(n) => NameOk(n, c.size) && !Known(s, n) && s.count < |s.vec| && s.vec[s.count] == n
    case Filling(n) => s.count > 0 && s.vec[s.count - 1] == n
    case Linking(n, e) =>
      && s.count > 0 && s.vec[s.count - 1] == n && Holds(c, s, e) && s.elems[e].value == s.count - 1
      && (forall r :: 0 <= r < c.rows ==> e !in s.chains[r])
      && if s.used[Row(c, n)] then e >= c.rows && s.elems[e].next == s.elems[Row(c, n)].next else e == Row(c, n)
  }

  /** The index names n; or n is not a legal name; or n is not there and all slots are taken. */
  ghost predicate AnswerOk(c: Config, s: State, n: seq<int>, a: Answer)
    requires Sizes(c, s)
  {
    match a
    case Added(v) => 0 <= v == s.count - 1 && s.vec[v] == n
    case Exists(v) => 0 <= v < s.count && s.vec[v] == n
    case BadParam => !NameOk(n, c.size)
    case Full => !Known(s, n) && s.count == |s.vec|
  }

  ghost predicate ReaderOk(c: Config, s: State, x: Reader)
    requires Sizes(c, s)
  {
    match x
    case Away => true
    case Seeking(q, must, e) =>
      && |q| < c.size
      && if e == -1 then !must else
           && e in s.chains[Row(c, q)]
           && (must ==> exists y :: y in From(s.chains[Row(c, q)], e) && Name(s, y) == q)
    case Found(q, v) => 0 <= v < s.count && s.vec[v] == q
    case Missed(q, must) => !must
  }

  ghost predicate Inv(c: Config, s: State) {
    && Sizes(c, s) && NamesOk(c, s) && Complete(c, s) && WriterOk(c, s)
    && RowsOk(c, s) && ReadersOk(c, s)
  }

  ghost predicate RowsOk(c: Config, s: State)
    requires Sizes(c, s)
  {
    forall r :: 0 <= r < c.rows ==> RowOk(c, s, r)
  }

  ghost predicate ReadersOk(c: Config, s: State)
    requires Sizes(c, s)
  {
    (forall i :: 0 <= i < |s.readers| ==> ReaderOk(c, s, s.readers[i]))
  }

  // ---------------------------------------------------------------- steps

  /** cf_vmapx_put_unique_w_len: a name that fits the key field is looked up first. */
  ghost predicate Start(c: Config, s: State, t: State, n: seq<int>)
    requires Sizes(c, s)
  {
    t == s.(writer := if |n| >= c.size then Answered(n, BadParam)
                      else Looking(n, if s.used[Row(c, n)] then Row(c, n) else -1))
  }

  /** One element of the writer's vhash_get, and what follows when the name is not there. */
  ghost predicate Look(c: Config, s: State, t: State, n: seq<int>, e: int)
    requires Sizes(c, s)
  {
    if e == -1 then
      t == s.(writer := if exists i :: 0 <= i < |n| && n[i] == 0 then Answered(n, BadParam)
                        else if s.count >= |s.vec| then Answered(n, Full) else Naming(n))
    else
      && |n| < c.size && 0 <= e < |s.elems|
      && t == s.(writer :=
           if |s.elems[e].key| == c.size && Matches(s.elems[e].key, n) then Answered(n, Exists(s.elems[e].value))
           else Looking(n, s.elems[e].next))
  }

  ghost predicate WriteStep(c: Config, s: State, t: State)
    requires Sizes(c, s)
  {
    match s.writer
    case Resting => exists n :: Start(c, s, t, n)
    case Answered(_, _) => exists n :: Start(c, s, t, n)
    case Looking(n, e) => Look(c, s, t, n, e)
    case Naming(n) => s.count < |s.vec| && t == s.(vec := s.vec[s.count := n], writer := Counting(n))
    case Counting(n) => t == s.(count := s.count + 1, writer := Filling(n))
    case Filling(n) =>
      |n| < c.size &&
      var r, k := Row(c, n), Padded(n, c.size);
      if s.used[r]
      then t == s.(elems := s.elems + [Elem(k, s.count - 1, s.elems[r].next)], writer := Linking(n, |s.elems|))
      else t == s.(elems := s.elems[r := Elem(k, s.count - 1, s.elems[r].next)], writer := Linking(n, r))
    case Linking(n, e) =>
      var r := Row(c, n);
      if s.used[r]
      then t == s.(elems := s.elems[r := s.elems[r].(next := e)], writer := Answered(n, Added(s.count - 1)),
                   chains := s.chains[r := if s.chains[r] == [] then [] else [r, e] + s.chains[r][1..]])
      else t == s.(used := s.used[r := true], writer := Answered(n, Added(s.count - 1)), chains := s.chains[r := [r]])
  }

  /** vhash_get, one access at a time. */
  ghost predicate ReadStep(c: Config, s: State, t: State, i: nat)
    requires Sizes(c, s) && i < |s.readers|
  {
    match s.readers[i]
    case Seeking(q, must, e) =>
      && |q| < c.size
      && if e == -1 then t == s.(readers := s.readers[i := Missed(q, must)])
         else if 0 <= e < |s.elems| && |s.elems[e].key| == c.size && Matches(s.elems[e].key, q)
         then t == s.(readers := s.readers[i := Found(q, s.elems[e].value)])
         else 0 <= e < |s.elems| && t == s.(readers := s.readers[i := Seeking(q, must, s.elems[e].next)])
    case _ => exists q :: Begin(c, s, t, i, q)
  }

  /** A lookup begins by reading whether the row is in use; a name too long for the key field is not looked up. */
  ghost predicate Begin(c: Config, s: State, t: State, i: nat, q: seq<int>)
    requires Sizes(c, s) && i < |s.readers|
  {
    |q| < c.size && t == s.(readers := s.readers[i :=
      if s.used[Row(c, q)] then Seeking(q, Reachable(c, s, q), Row(c, q)) else Missed(q, Reachable(c, s, q))])
  }

  // ---------------------------------------------------------------- what the steps keep

  /** t has the same reachable elements as s, and perhaps more names. */
  ghost predicate Extends(c: Config, s: State, t: State)
    requires Sizes(c, s) && Sizes(c, t)
  {
    && t.chains == s.chains && t.used == s.used && t.readers == s.readers
    && s.count <= t.count && |t.vec| == |s.vec| && (forall i :: 0 <= i < s.count ==> t.vec[i] == s.vec[i])
    && |s.elems| <= |t.elems| && (forall r :: 0 <= r < c.rows ==> t.elems[r].next == s.elems[r].next)
    && (forall r, e :: 0 <= r < c.rows && e in s.chains[r] && 0 <= e < |s.elems| ==> t.elems[e] == s.elems[e])
  }

  lemma ExtendsNames(c: Config, s: State, t: State, r: nat, e: int)
    requires Sizes(c, s) && Sizes(c, t) && Extends(c, s, t) && r < c.rows && RowOk(c, s, r) && e in s.chains[r]
    ensures Holds(c, t, e) && Name(t, e) == Name(s, e)
  {
    assert Holds(c, s, e);
  }

  lemma ExtendsRows(c: Config, s: State, t: State)
    requires Sizes(c, s) && Sizes(c, t) && Extends(c, s, t) && RowsOk(c, s)
    ensures RowsOk(c, t) && forall n :: Reachable(c, t, n) <==> Reachable(c, s, n)
  {
    forall r | 0 <= r < c.rows ensures RowOk(c, t, r) {
      assert RowOk(c, s, r);
      forall e | e in s.chains[r] ensures Holds(c, t, e) && Name(t, e) == Name(s, e) {
        ExtendsNames(c, s, t, r, e);
      }
      if s.chains[r] != [] {
        LinkedKept(s.elems, t.elems, r, s.chains[r]);
      }
    }
    forall n ensures Reachable(c, t, n) <==> Reachable(c, s, n) {
      var r := Row(c, n);
      assert RowOk(c, s, r);
      forall e | e in s.chains[r] ensures Name(t, e) == Name(s, e) {
        ExtendsNames(c, s, t, r, e);
      }
    }
  }

  lemma ExtendsReaders(c: Config, s: State, t: State)
    requires Sizes(c, s) && Sizes(c, t) && Extends(c, s, t) && RowsOk(c, s) && ReadersOk(c, s)
    ensures ReadersOk(c, t)
  {
    forall i | 0 <= i < |t.readers| ensures ReaderOk(c, t, t.readers[i]) {
      var x := s.readers[i];
      assert ReaderOk(c, s, x);
      if x.Seeking? && x.e != -1 && x.must {
        var r := Row(c, x.q);
        assert RowOk(c, s, r);
        FromFacts(s.elems, r, s.chains[r], x.e);
        var y :| y in From(s.chains[r], x.e) && Name(s, y) == x.q;
        ExtendsNames(c, s, t, r, y);
        assert Name(t, y) == x.q;
      }
    }
  }

  /** Between puts every counted name is in the hash. */
  lemma KnownReachable(c: Config, s: State, n: seq<int>)
    requires Inv(c, s) && !Pending(s) && Known(s, n)
    ensures Reachable(c, s, n)
  {
    var i :| 0 <= i < s.count && i < |s.vec| && s.vec[i] == n;
  }

  /** A step that only moves the writer. */
  lemma OnlyWriter(c: Config, s: State, t: State)
    requires Inv(c, s) && t == s.(writer := t.writer)
    ensures Sizes(c, t) && (forall n :: Reachable(c, t, n) <==> Reachable(c, s, n)) &&
      (forall n :: Known(t, n) <==> Known(s, n))
    ensures RowsOk(c, t) && ReadersOk(c, t) && NamesOk(c, t)
    ensures forall i :: 0 <= i < t.count ==> Reachable(c, t, t.vec[i]) || (Pending(s) && i == t.count - 1)
  {
    ExtendsRows(c, s, t);
    ExtendsReaders(c, s, t);
  }

  lemma SameSeeker(c: Config, s: State, t: State, x: Reader)
    requires Inv(c, s) && t == s.(writer := t.writer) && Sizes(c, t) && ReaderOk(c, s, x)
    ensures ReaderOk(c, t, x)
  {
    forall e ensures Name(t, e) == Name(s, e) {
    }
    if x.Seeking? && x.e != -1 && x.must {
      var y :| y in From(s.chains[Row(c, x.q)], x.e) && Name(s, y) == x.q;
      assert Name(t, y) == x.q;
    }
  }

  lemma StartKeeps(c: Config, s: State, t: State, n: seq<int>)
    requires Inv(c, s) && !Pending(s) && Start(c, s, t, n)
    ensures Inv(c, t)
  {
    OnlyWriter(c, s, t);
    if |n| < c.size {
      var r := Row(c, n);
      assert RowOk(c, s, r);
      if s.used[r] {
        assert From(s.chains[r], r) == s.chains[r];
      }
      var x := Seeking(n, Reachable(c, s, n), t.writer.e);
      assert ReaderOk(c, s, x);
      SameSeeker(c, s, t, x);
    }
  }

  /** The writer has come to the end of the row: the name is not there. */
  lemma EndKeeps(c: Config, s: State, t: State, n: seq<int>)
    requires Inv(c, s) && s.writer == Looking(n, -1) && Look(c, s, t, n, -1)
    ensures Inv(c, t)
  {
    OnlyWriter(c, s, t);
    if Known(s, n) {
      KnownReachable(c, s, n);
    }
  }

  lemma LookKeeps(c: Config, s: State, t: State, n: seq<int>, e: int)
    requires Inv(c, s) && s.writer == Looking(n, e) && e != -1 && Look(c, s, t, n, e)
    ensures Inv(c, t)
  {
    OnlyWriter(c, s, t);
    var x, r := Seeking(n, Reachable(c, s, n), e), Row(c, n);
    assert ReaderOk(c, s, x);
    assert RowOk(c, s, r) && Holds(c, s, e);
    MatchIsName(Name(s, e), n, c.size);
    if Name(s, e) != n {
      GoesOn(c, s, x, r);
      SameSeeker(c, s, t, Seeking(n, Reachable(c, s, n), s.elems[e].next));
    }
  }

  lemma NameKeeps(c: Config, s: State, t: State)
    requires Inv(c, s) && WriteStep(c, s, t) && s.writer.Naming?
    ensures Inv(c, t)
  {
    ExtendsRows(c, s, t);
    ExtendsReaders(c, s, t);
    forall i | 0 <= i < s.count ensures t.vec[i] != s.writer.n {
    }
  }

  lemma CountKeeps(c: Config, s: State, t: State)
    requires Inv(c, s) && WriteStep(c, s, t) && s.writer.Counting?
    ensures Inv(c, t)
  {
    ExtendsRows(c, s, t);
    ExtendsReaders(c, s, t);
    forall i | 0 <= i < s.count ensures s.vec[i] != s.writer.n {
    }
  }

  lemma FillKeeps(c: Config, s: State, t: State)
    requires Inv(c, s) && WriteStep(c, s, t) && s.writer.Filling?
    ensures Inv(c, t)
  {
    FillExtends(c, s, t);
    assert RowOk(c, s, Row(c, s.writer.n));
    ExtendsRows(c, s, t);
    ExtendsReaders(c, s, t);
  }

  lemma FillExtends(c: Config, s: State, t: State)
    requires Inv(c, s) && WriteStep(c, s, t) && s.writer.Filling?
    ensures Sizes(c, t) && Extends(c, s, t)
    ensures forall q :: 0 <= q < c.rows ==> t.writer.e !in s.chains[q]
  {
    var r := Row(c, s.writer.n);
    assert RowOk(c, s, r);
    forall q, e | 0 <= q < c.rows && e in s.chains[q] ensures 0 <= e < |s.elems| && (s.used[r] || e != r) {
      assert RowOk(c, s, q);
    }
  }

  /** t has one more reachable element, the one the writer filled; names and vector are as in s. */
  ghost predicate Linking1(c: Config, s: State, t: State, n: seq<int>, e: int)
    requires Sizes(c, s) && Sizes(c, t)
  {
    var r := Row(c, n);
    && t.vec == s.vec && t.count == s.count && t.readers == s.readers && |t.elems| == |s.elems|
    && (forall q :: 0 <= q < c.rows && q != r ==> t.chains[q] == s.chains[q] && t.used[q] == s.used[q])
    && (forall x :: 0 <= x < |s.elems| ==> t.elems[x].key == s.elems[x].key && t.elems[x].value == s.elems[x].value)
    && (forall x :: 0 <= x < |s.elems| && x != r ==> t.elems[x] == s.elems[x])
    && (forall x :: x in t.chains[r] <==> x in s.chains[r] || x == e)
  }

  lemma LinkNames(c: Config, s: State, t: State, n: seq<int>, e: int, x: int)
    requires Sizes(c, s) && Sizes(c, t) && Linking1(c, s, t, n, e) && 0 <= x < |s.elems|
    ensures Name(t, x) == Name(s, x) && (Holds(c, s, x) ==> Holds(c, t, x))
  {
  }

  lemma LinkReachable(c: Config, s: State, t: State, n: seq<int>, e: int)
    requires Inv(c, s) && Sizes(c, t) && s.writer == Linking(n, e) && Linking1(c, s, t, n, e)
    ensures forall q :: Reachable(c, s, q) ==> Reachable(c, t, q)
    ensures Reachable(c, t, n) && Name(s, e) == n
  {
    forall q | Reachable(c, s, q) ensures Reachable(c, t, q) {
      var x :| x in s.chains[Row(c, q)] && Name(s, x) == q;
      assert RowOk(c, s, Row(c, q)) && Holds(c, s, x);
      LinkNames(c, s, t, n, e, x);
      assert x in t.chains[Row(c, q)];
    }
    LinkNames(c, s, t, n, e, e);
    assert e in t.chains[Row(c, n)];
  }

  /** The rows that the new element is not in. */
  lemma LinkOthers(c: Config, s: State, t: State, n: seq<int>, e: int, q: nat)
    requires Inv(c, s) && Sizes(c, t) && s.writer == Linking(n, e) && Linking1(c, s, t, n, e) && q < c.rows &&
      q != Row(c, n)
    ensures RowOk(c, t, q)
  {
    assert RowOk(c, s, q);
    forall x | x in s.chains[q] ensures Holds(c, t, x) && Name(t, x) == Name(s, x) && x != Row(c, n) {
      LinkNames(c, s, t, n, e, x);
    }
    if s.chains[q] != [] {
      LinkedKept(s.elems, t.elems, q, s.chains[q]);
    }
  }

  /** The chain with a new element behind its head. */
  lemma LinkedBehind(elems: seq<Elem>, now: seq<Elem>, r: int, e: int, chain: seq<int>)
    requires chain != [] && Linked(elems, r, chain) && |now| == |elems| && 0 <= e < |elems| && e !in chain &&
      now[r].next == e
    requires now[e].next == elems[r].next && forall x :: 0 <= x < |elems| && x != r ==> now[x] == elems[x]
    ensures Linked(now, r, [r, e] + chain[1..])
  {
    var tail := chain[1..];
    assert forall x :: x in tail ==> x in chain;
    LinkedKept(elems, now, elems[r].next, tail);
    Front(e, tail);
    assert Linked(now, e, [e] + tail);
    Front(r, [e] + tail);
    assert [r, e] + tail == [r] + ([e] + tail);
  }

  lemma Front(x: int, tail: seq<int>)
    ensures ([x] + tail)[0] == x && ([x] + tail)[1..] == tail
  {
  }

  /** The row of the new element. */
  lemma LinkRow(c: Config, s: State, t: State, n: seq<int>, e: int)
    requires Inv(c, s) && Sizes(c, t) && s.writer == Linking(n, e) && Linking1(c, s, t, n, e) && WriteStep(c, s, t)
    ensures RowOk(c, t, Row(c, n))
  {
    var r := Row(c, n);
    assert RowOk(c, s, r);
    LinkReachable(c, s, t, n, e);
    forall x | x in t.chains[r] ensures Holds(c, t, x) && Row(c, Name(t, x)) == r && (x == r || x >= c.rows) {
      LinkNames(c, s, t, n, e, x);
    }
    if s.used[r] {
      LinkedBehind(s.elems, t.elems, r, e, s.chains[r]);
    } else {
      assert t.chains[r][1..] == [];
    }
  }

  /** An element put behind the head does not change what follows any other element. */
  lemma FromBehind(r: int, e: int, tail: seq<int>, x: int)
    requires x != e && x in [r] + tail && r !in tail
    ensures x in [r, e] + tail && forall y :: y in From([r] + tail, x) ==> y in From([r, e] + tail, x)
  {
    var a, b := [r] + tail, [r, e] + tail;
    if x != r {
      assert a[1..] == tail && b[1..] == [e] + tail && b[1..][1..] == tail;
      assert From(a, x) == From(tail, x) == From(b, x);
    }
  }

  lemma LinkReaders(c: Config, s: State, t: State, n: seq<int>, e: int)
    requires Inv(c, s) && Sizes(c, t) && s.writer == Linking(n, e) && Linking1(c, s, t, n, e) && WriteStep(c, s, t)
    ensures ReadersOk(c, t)
  {
    var r := Row(c, n);
    assert RowOk(c, s, r);
    forall i | 0 <= i < |t.readers| ensures ReaderOk(c, t, t.readers[i]) {
      assert ReaderOk(c, s, s.readers[i]);
      if s.readers[i].Seeking? && s.readers[i].e != -1 {
        LinkReader(c, s, t, n, e, s.readers[i]);
      }
    }
  }

  /** What a reader has still to come is not lost by the new element. */
  lemma LinkFrom(c: Config, s: State, t: State, n: seq<int>, e: int, q: nat, x: int)
    requires Inv(c, s) && Sizes(c, t) && s.writer == Linking(n, e) && Linking1(c, s, t, n, e) && WriteStep(c, s, t)
    requires q < c.rows && x in s.chains[q]
    ensures x in t.chains[q] && forall y :: y in From(s.chains[q], x) ==> y in From(t.chains[q], x) && y in s.chains[q]
  {
    assert RowOk(c, s, q);
    FromFacts(s.elems, q, s.chains[q], x);
    if q == Row(c, n) {
      FromHead(q, e, s.chains[q], x);
    }
  }

  lemma FromHead(r: int, e: int, chain: seq<int>, x: int)
    requires chain != [] && chain[0] == r && r !in chain[1..] && x in chain && x != e
    ensures x in [r, e] + chain[1..] && forall y :: y in From(chain, x) ==> y in From([r, e] + chain[1..], x)
  {
    assert chain == [r] + chain[1..];
    FromBehind(r, e, chain[1..], x);
  }

  lemma LinkReader(c: Config, s: State, t: State, n: seq<int>, e: int, x: Reader)
    requires Inv(c, s) && Sizes(c, t) && s.writer == Linking(n, e) && Linking1(c, s, t, n, e) && WriteStep(c, s, t)
    requires x.Seeking? && x.e != -1 && ReaderOk(c, s, x)
    ensures ReaderOk(c, t, x)
  {
    var q := Row(c, x.q);
    LinkFrom(c, s, t, n, e, q, x.e);
    if x.must {
      var y :| y in From(s.chains[q], x.e) && Name(s, y) == x.q;
      assert RowOk(c, s, q);
      LinkNames(c, s, t, n, e, y);
      assert y in From(t.chains[q], x.e) && Name(t, y) == x.q;
    }
  }

  lemma LinkIsOne(c: Config, s: State, t: State, n: seq<int>, e: int)
    requires Inv(c, s) && s.writer == Linking(n, e) && WriteStep(c, s, t)
    ensures Sizes(c, t) && Linking1(c, s, t, n, e)
  {
    var r := Row(c, n);
    assert RowOk(c, s, r);
    if s.used[r] {
      assert s.chains[r] == [r] + s.chains[r][1..];
    }
  }

  lemma LinkKeeps(c: Config, s: State, t: State)
    requires Inv(c, s) && WriteStep(c, s, t) && s.writer.Linking?
    ensures Inv(c, t)
  {
    var n, e := s.writer.n, s.writer.e;
    LinkIsOne(c, s, t, n, e);
    LinkReachable(c, s, t, n, e);
    LinkReaders(c, s, t, n, e);
    forall q | 0 <= q < c.rows ensures RowOk(c, t, q) {
      if q == Row(c, n) {
        LinkRow(c, s, t, n, e);
      } else {
        LinkOthers(c, s, t, n, e, q);
      }
    }
  }

  // ---------------------------------------------------------------- readers

  lemma BeginKeeps(c: Config, s: State, t: State, i: nat, q: seq<int>)
    requires Inv(c, s) && i < |s.readers| && Begin(c, s, t, i, q)
    ensures Inv(c, t)
  {
    var r := Row(c, q);
    assert RowOk(c, s, r);
    SameButReader(c, s, t, i);
    if s.used[r] {
      assert From(s.chains[r], r) == s.chains[r];
    }
  }

  /** A reader's step changes nothing that others see. */
  lemma SameButReader(c: Config, s: State, t: State, i: nat)
    requires Inv(c, s) && i < |s.readers| == |t.readers| && t == s.(readers := t.readers) &&
      t.readers == s.readers[i := t.readers[i]]
    ensures Sizes(c, t) && (ReaderOk(c, t, t.readers[i]) ==> Inv(c, t))
    ensures (forall n :: Reachable(c, t, n) <==> Reachable(c, s, n)) && (forall e :: Name(t, e) == Name(s, e))
  {
    forall r | 0 <= r < c.rows ensures RowOk(c, t, r) {
      assert RowOk(c, s, r);
      forall e | e in s.chains[r] ensures Holds(c, t, e) {
        assert Holds(c, s, e);
      }
    }
    forall n ensures Reachable(c, t, n) <==> Reachable(c, s, n) {
      forall e ensures Name(t, e) == Name(s, e) {
      }
    }
    if s.writer.Looking? {
      SameReader(c, s, t, Seeking(s.writer.n, Reachable(c, s, s.writer.n), s.writer.e));
    }
    if ReaderOk(c, t, t.readers[i]) {
      forall j | 0 <= j < |t.readers| ensures ReaderOk(c, t, t.readers[j]) {
        if j != i {
          SameReader(c, s, t, s.readers[j]);
        }
      }
    }
  }

  lemma SameReader(c: Config, s: State, t: State, x: Reader)
    requires Sizes(c, s) && Sizes(c, t) && t == s.(readers := t.readers) && ReaderOk(c, s, x)
    ensures ReaderOk(c, t, x)
  {
    forall e ensures Name(t, e) == Name(s, e) {
    }
    if x.Seeking? && x.e != -1 && x.must {
      var y :| y in From(s.chains[Row(c, x.q)], x.e) && Name(s, y) == x.q;
      assert Name(t, y) == x.q;
    }
  }

  /** A reader that compares an element's key and goes on. */
  lemma SeekKeeps(c: Config, s: State, t: State, i: nat)
    requires Inv(c, s) && i < |s.readers| && s.readers[i].Seeking? && ReadStep(c, s, t, i)
    ensures Inv(c, t)
  {
    var x := s.readers[i];
    assert ReaderOk(c, s, x);
    SameButReader(c, s, t, i);
    if x.e != -1 {
      var r := Row(c, x.q);
      assert RowOk(c, s, r) && Holds(c, s, x.e);
      MatchIsName(Name(s, x.e), x.q, c.size);
      FromFacts(s.elems, r, s.chains[r], x.e);
      if Name(s, x.e) != x.q {
        GoesOn(c, s, x, r);
      }
    }
  }

  lemma GoesOn(c: Config, s: State, x: Reader, r: nat)
    requires Inv(c, s) && x.Seeking? && x.e != -1 && ReaderOk(c, s, x) && r == Row(c, x.q) && Name(s, x.e) != x.q &&
      x.e in s.chains[r]
    requires 0 <= x.e < |s.elems|
    ensures ReaderOk(c, s, Seeking(x.q, x.must, s.elems[x.e].next))
  {
    assert RowOk(c, s, r);
    FromFacts(s.elems, r, s.chains[r], x.e);
    var f := From(s.chains[r], x.e);
    if x.must {
      var y :| y in f && Name(s, y) == x.q;
      assert f == [f[0]] + f[1..];
      assert y in f[1..];
    }
    LinkedIn(s.elems, r, s.chains[r]);
  }

  lemma ReadKeeps(c: Config, s: State, t: State, i: nat)
    requires Inv(c, s) && i < |s.readers| && ReadStep(c, s, t, i)
    ensures Inv(c, t) && t == s.(readers := t.readers) && forall n :: Reachable(c, t, n) <==> Reachable(c, s, n)
  {
    if s.readers[i].Seeking? {
      SeekKeeps(c, s, t, i);
    } else {
      var q :| Begin(c, s, t, i, q);
      BeginKeeps(c, s, t, i, q);
    }
    SameButReader(c, s, t, i);
  }

  // ---------------------------------------------------------------- whole runs

  ghost predicate Init(c: Config, s: State) {
    && Sizes(c, s) && s.count == 0 && s.writer == Resting
    && (forall r :: 0 <= r < c.rows ==> !s.used[r] && s.chains[r] == [] && s.elems[r].next == -1)
    && (forall i :: 0 <= i < |s.readers| ==> s.readers[i] == Away)
  }

  ghost predicate Step(c: Config, s: State, t: State) {
    Sizes(c, s) && (WriteStep(c, s, t) || exists i :: 0 <= i < |s.readers| && ReadStep(c, s, t, i))
  }

  /** No step changes a name that has been counted, or takes one out of the hash. */
  ghost predicate Stable(c: Config, s: State, t: State)
    requires Sizes(c, s) && Sizes(c, t)
  {
    && s.count <= t.count && (forall i :: 0 <= i < s.count ==> t.vec[i] == s.vec[i])
    && forall n :: Reachable(c, s, n) ==> Reachable(c, t, n)
  }

  lemma WriteKeeps(c: Config, s: State, t: State)
    requires Inv(c, s) == true && Sizes(c, s) && WriteStep(c, s, t) == true && !s.writer.Linking?
    ensures Inv(c, t) == true && Sizes(c, t) && Extends(c, s, t) == true
  {
    match s.writer
    case Resting =>
      var n :| Start(c, s, t, n);
      StartKeeps(c, s, t, n);
    case Answered(_, _) =>
      var n :| Start(c, s, t, n);
      StartKeeps(c, s, t, n);
    case Looking(n, e) =>
      if e == -1 {
        EndKeeps(c, s, t, n);
      } else {
        LookKeeps(c, s, t, n, e);
      }
    case Naming(n) => NameKeeps(c, s, t);
    case Counting(n) => CountKeeps(c, s, t);
    case Filling(n) =>
      FillKeeps(c, s, t);
      FillExtends(c, s, t);
  }

  lemma StepKeeps(c: Config, s: State, t: State)
    requires Inv(c, s) == true && Step(c, s, t) == true
    ensures Inv(c, t) == true && Sizes(c, s) && Sizes(c, t) && Stable(c, s, t) == true
  {
    if WriteStep(c, s, t) {
      if s.writer.Linking? {
        LinkKeeps(c, s, t);
        LinkIsOne(c, s, t, s.writer.n, s.writer.e);
        LinkReachable(c, s, t, s.writer.n, s.writer.e);
      } else {
        WriteKeeps(c, s, t);
        ExtendsRows(c, s, t);
      }
    } else {
      var i :| 0 <= i < |s.readers| && ReadStep(c, s, t, i);
      ReadKeeps(c, s, t, i);
    }
  }

  ghost predicate StepAt(c: Config, run: seq<State>, k: int) {
    0 < k < |run| && Step(c, run[k - 1], run[k])
  }

  ghost predicate Run(c: Config, run: seq<State>) {
    run != [] && Init(c, run[0]) && forall k :: 0 < k < |run| ==> StepAt(c, run, k)
  }

  lemma InitInv(c: Config, s: State)
    requires Init(c, s)
    ensures Inv(c, s)
  {
  }

  lemma {:induction false} RunInv(c: Config, run: seq<State>, k: nat)
    requires Run(c, run) && k < |run|
    ensures Inv(c, run[k]) == true
  {
    if k == 0 {
      InitInv(c, run[0]);
    } else {
      RunInv(c, run, k - 1);
      assert StepAt(c, run, k);
      StepKeeps(c, run[k - 1], run[k]);
    }
  }

  /** The part of the invariant that needs no more than a look at the state. */
  lemma RunStep(c: Config, run: seq<State>, k: nat)
    requires Run(c, run) == true && 0 < k < |run|
    ensures Sizes(c, run[k - 1]) && Sizes(c, run[k]) && Stable(c, run[k - 1], run[k]) == true
  {
    RunInv(c, run, k - 1);
    assert StepAt(c, run, k);
    StepKeeps(c, run[k - 1], run[k]);
  }

  lemma StableTwice(c: Config, s: State, t: State, u: State)
    requires Sizes(c, s) && Sizes(c, t) && Sizes(c, u) && Stable(c, s, t) == true && Stable(c, t, u) == true
    ensures Stable(c, s, u) == true
  {
  }

  lemma RunSizes(c: Config, run: seq<State>, k: nat)
    requires Run(c, run) == true && k < |run|
    ensures Sizes(c, run[k]) && Stable(c, run[k], run[k]) == true
  {
    RunInv(c, run, k);
  }

  /** Indexes are stable: a counted name keeps its index, and a name once in the hash stays there. */
  lemma {:induction false} IndexesStable(c: Config, run: seq<State>, j: nat, k: nat)
    requires Run(c, run) == true && j <= k < |run|
    ensures Sizes(c, run[j]) && Sizes(c, run[k]) && Stable(c, run[j], run[k]) == true
    decreases k - j
  {
    RunSizes(c, run, j);
    if j < k {
      IndexesStable(c, run, j, k - 1);
      RunStep(c, run, k);
      StableTwice(c, run[j], run[k - 1], run[k]);
    }
  }

  /**
    A lookup that succeeded gave an index below the count whose entry is exactly the name asked for, then
    and ever after; one that failed was begun when the name was not in the hash. Different indexes have
    different names.
   */
  lemma LookupCorrect(c: Config, run: seq<State>, j: nat, k: nat, i: nat)
    requires Run(c, run) && j <= k < |run| && i < |run[j].readers|
    ensures var x := run[j].readers[i];
      && (x.Found? ==>
        0 <= x.value < run[j].count <= run[k].count && run[k].count <= |run[k].vec| && run[k].vec[x.value] == x.q)
      && (x.Missed? ==> !x.must)
    ensures forall a, b :: 0 <= a < b < run[k].count && run[k].count <= |run[k].vec| ==> run[k].vec[a] != run[k].vec[b]
  {
    RunInv(c, run, j);
    RunInv(c, run, k);
    IndexesStable(c, run, j, k);
    assert ReaderOk(c, run[j], run[j].readers[i]);
  }

  /**
    A put that has been answered: the index it returned, for a name added or already there, is that of the
    name, then and ever after; it was refused as illegal only for a name that is, and as full only for a
    name that was not there when every slot was taken.
   */
  lemma PutCorrect(c: Config, run: seq<State>, j: nat, k: nat)
    requires Run(c, run) && j <= k < |run| && run[j].writer.Answered?
    ensures var s, t, n, a := run[j], run[k], run[j].writer.n, run[j].writer.a;
      && s.count <= |s.vec| && t.count <= |t.vec|
      && (a.Added? || a.Exists? ==> 0 <= a.index < s.count <= t.count && t.vec[a.index] == n)
      && (a.BadParam? ==> !NameOk(n, c.size)) && (a.Full? ==> !Known(s, n) && s.count == |s.vec|)
  {
    RunInv(c, run, j);
    RunInv(c, run, k);
    IndexesStable(c, run, j, k);
  }

  // ---------------------------------------------------------------- one put, from its start to its answer

  /** No put is going on. */
  ghost predicate Idle(w: Writer) {
    w.Resting? || w.Answered?
  }

  /** A legal name that is not there in s, and a slot for it. */
  ghost predicate Welcome(c: Config, s: State, n: seq<int>) {
    NameOk(n, c.size) && !Known(s, n) && s.count < |s.vec|
  }

  /** u has one name more than s: n, at the end. */
  ghost predicate OneMore(s: State, u: State, n: seq<int>) {
    s.count < |s.vec| && u.count == s.count + 1 && u.vec == s.vec[s.count := n]
  }

  /**
    What a put of n that began in s answers, and what it has done by then, in u: each answer comes in exactly
    one case, and the vector and its count change only by a name that was added at the end.
   */
  ghost predicate Outcome(c: Config, s: State, u: State, n: seq<int>, a: Answer) {
    && (a.Exists? <==> Known(s, n))
    && (a.Exists? ==> 0 <= a.index < s.count && a.index < |s.vec| && s.vec[a.index] == n)
    && (a.Added? <==> NameOk(n, c.size) && !Known(s, n) && s.count < |s.vec|)
    && (a.BadParam? <==> !NameOk(n, c.size))
    && (a.Full? <==> NameOk(n, c.size) && !Known(s, n) && s.count >= |s.vec|)
    && if a.Added? then a.index == s.count && OneMore(s, u, n) else u.vec == s.vec && u.count == s.count
  }

  /** Where a put of n that began in s can be, in u. */
  ghost predicate Midway(c: Config, s: State, u: State, n: seq<int>) {
    match u.writer
    case Resting => false
    case Looking(m, _) => m == n && |n| < c.size && u.vec == s.vec && u.count == s.count
    case Naming(m) => m == n && Welcome(c, s, n) && u.vec == s.vec && u.count == s.count
    case Counting(m) => m == n && Welcome(c, s, n) && u.vec == s.vec[s.count := n] && u.count == s.count
    case Filling(m) => m == n && Welcome(c, s, n) && OneMore(s, u, n)
    case Linking(m, _) => m == n && Welcome(c, s, n) && OneMore(s, u, n)
    case Answered(m, a) => m == n && Outcome(c, s, u, n, a)
  }

  lemma KnownOk(c: Config, s: State, n: seq<int>)
    requires Inv(c, s) == true && Known(s, n)
    ensures NameOk(n, c.size)
  {
    var i :| 0 <= i < s.count && i < |s.vec| && s.vec[i] == n;
  }

  lemma MidwayStart(c: Config, s: State, u: State, n: seq<int>)
    requires Inv(c, s) == true && Sizes(c, s) && Start(c, s, u, n)
    ensures Midway(c, s, u, n) == true
  {
    if Known(s, n) {
      KnownOk(c, s, n);
    }
  }

  /** The writer at the end of the row. */
  lemma MidwayEnd(c: Config, s: State, u: State, v: State, n: seq<int>)
    requires Inv(c, s) == true && Inv(c, u) == true && u.writer == Looking(n, -1)
    requires Sizes(c, u) && Look(c, u, v, n, -1) && Midway(c, s, u, n)
    ensures Midway(c, s, v, n) == true
  {
    assert ReaderOk(c, u, Seeking(n, Reachable(c, u, n), -1));
    if Known(u, n) {
      KnownReachable(c, u, n);
    }
    assert Known(u, n) <==> Known(s, n);
  }

  /** The writer at an element: its key is the name, or the walk goes on. */
  lemma MidwayLook(c: Config, s: State, u: State, v: State, n: seq<int>, e: int)
    requires Inv(c, s) == true && Inv(c, u) == true && u.writer == Looking(n, e) && e != -1
    requires Sizes(c, u) && Look(c, u, v, n, e) && Midway(c, s, u, n)
    ensures Midway(c, s, v, n) == true
  {
    assert ReaderOk(c, u, Seeking(n, Reachable(c, u, n), e));
    assert RowOk(c, u, Row(c, n)) && Holds(c, u, e);
    MatchIsName(Name(u, e), n, c.size);
    if v.writer.Answered? {
      assert Known(s, n);
      KnownOk(c, s, n);
    }
  }

  lemma MidwayWrite(c: Config, s: State, u: State, v: State, n: seq<int>)
    requires Inv(c, s) == true && Inv(c, u) == true && !Idle(u.writer) && Midway(c, s, u, n)
    requires Sizes(c, u) && WriteStep(c, u, v)
    ensures Midway(c, s, v, n) == true
  {
    if u.writer.Looking? {
      if u.writer.e == -1 {
        MidwayEnd(c, s, u, v, n);
      } else {
        MidwayLook(c, s, u, v, n, u.writer.e);
      }
    }
  }

  lemma MidwayStep(c: Config, s: State, u: State, v: State, n: seq<int>)
    requires Inv(c, s) == true && Inv(c, u) == true && !Idle(u.writer) && Midway(c, s, u, n) == true &&
      Step(c, u, v) == true
    ensures Midway(c, s, v, n) == true
  {
    if WriteStep(c, u, v) {
      MidwayWrite(c, s, u, v, n);
    } else {
      var i :| 0 <= i < |u.readers| && ReadStep(c, u, v, i);
      ReadKeeps(c, u, v, i);
    }
  }

  /** From i to j one put of n goes on: it begins in the step after i and no answer comes before j. */
  ghost predicate Putting(c: Config, run: seq<State>, i: int, j: int, n: seq<int>) {
    && 0 <= i < j < |run| && Idle(run[i].writer) && Sizes(c, run[i]) && Start(c, run[i], run[i + 1], n)
    && forall k :: i < k < j ==> !Idle(run[k].writer)
  }

  lemma {:induction false} MidwayRun(c: Config, run: seq<State>, i: nat, j: nat, n: seq<int>)
    requires Run(c, run) == true && Putting(c, run, i, j, n)
    ensures Midway(c, run[i], run[j], n) == true
    decreases j
  {
    RunInv(c, run, i);
    if j == i + 1 {
      MidwayStart(c, run[i], run[j], n);
    } else {
      MidwayRun(c, run, i, j - 1, n);
      RunInv(c, run, j - 1);
      assert Run(c, run) && StepAt(c, run, j);
      MidwayStep(c, run[i], run[j - 1], run[j], n);
    }
  }

  /**
    What a put answers is decided by the state it begins in, whatever the readers do meanwhile: a name that is
    there exists, one that is illegal is refused, one that finds no slot is refused as full, and any other is
    added at the end, where every lookup that begins later finds it.
   */
  lemma PutOutcome(c: Config, run: seq<State>, i: nat, j: nat, n: seq<int>)
    requires Run(c, run) == true && Putting(c, run, i, j, n) && run[j].writer.Answered?
    ensures run[j].writer.n == n && Outcome(c, run[i], run[j], n, run[j].writer.a)
  {
    MidwayRun(c, run, i, j, n);
  }

  /** The name is counted in s, and is not one whose put has still to make it reachable. */
  ghost predicate Settled(s: State, q: seq<int>) {
    exists i :: 0 <= i < s.count && i < |s.vec| && s.vec[i] == q && (i == s.count - 1 ==> !Pending(s))
  }

  lemma SettledWrite(c: Config, u: State, v: State, q: seq<int>)
    requires Sizes(c, u) && WriteStep(c, u, v) && Settled(u, q)
    ensures Settled(v, q)
  {
    var i :| 0 <= i < u.count && i < |u.vec| && u.vec[i] == q && (i == u.count - 1 ==> !Pending(u));
    assert v.vec[i] == q;
  }

  lemma SettledStep(c: Config, u: State, v: State, q: seq<int>)
    requires Inv(c, u) == true && Step(c, u, v) == true && Settled(u, q) == true
    ensures Settled(v, q) == true
  {
    if WriteStep(c, u, v) {
      SettledWrite(c, u, v, q);
    } else {
      var r :| 0 <= r < |u.readers| && ReadStep(c, u, v, r);
      ReadKeeps(c, u, v, r);
    }
  }

  lemma {:induction false} SettledRun(c: Config, run: seq<State>, j: nat, k: nat, q: seq<int>)
    requires Run(c, run) == true && j <= k < |run| && Settled(run[j], q) == true
    ensures Settled(run[k], q) == true
    decreases k
  {
    if j < k {
      SettledRun(c, run, j, k - 1, q);
      RunInv(c, run, k - 1);
      assert Run(c, run) && StepAt(c, run, k);
      SettledStep(c, run[k - 1], run[k], q);
    }
  }

  // ---------------------------------------------------------------- one lookup, from its start to its end

  /** From i to j reader r looks up q. */
  ghost predicate LookingUp(c: Config, run: seq<State>, i: int, j: int, r: int, q: seq<int>) {
    && 0 <= i < j < |run| && 0 <= r < |run[i].readers| && Sizes(c, run[i]) && Begin(c, run[i], run[i + 1], r, q)
    && forall k :: i < k < j ==> r < |run[k].readers| && run[k].readers[r].Seeking?
  }

  ghost predicate Asks(x: Reader, q: seq<int>, must: bool) {
    !x.Away? && x.q == q && (x.Seeking? || x.Missed? ==> x.must == must)
  }

  lemma AsksStep(c: Config, u: State, v: State, r: nat, q: seq<int>, must: bool)
    requires Inv(c, u) == true && Step(c, u, v) == true && r < |u.readers| && u.readers[r].Seeking? &&
      Asks(u.readers[r], q, must)
    ensures r < |v.readers| && Asks(v.readers[r], q, must)
  {
    if WriteStep(c, u, v) {
      if !u.writer.Linking? {
        WriteKeeps(c, u, v);
      }
    } else {
      var i :| 0 <= i < |u.readers| && ReadStep(c, u, v, i);
    }
  }

  lemma {:induction false} AsksRun(c: Config, run: seq<State>, i: nat, j: nat, r: nat, q: seq<int>)
    requires Run(c, run) == true && LookingUp(c, run, i, j, r, q)
    ensures r < |run[j].readers| && Asks(run[j].readers[r], q, Reachable(c, run[i], q))
    decreases j
  {
    if j > i + 1 {
      AsksRun(c, run, i, j - 1, r, q);
      RunInv(c, run, j - 1);
      assert Run(c, run) && StepAt(c, run, j);
      AsksStep(c, run[j - 1], run[j], r, q, Reachable(c, run[i], q));
    }
  }

  /**
    A lookup that ends answers for the name it was begun with: a found index is that of the name, and a name
    that was settled when the lookup began is found, whatever is put meanwhile.
   */
  lemma LookupOutcome(c: Config, run: seq<State>, i: nat, j: nat, r: nat, q: seq<int>)
    requires Run(c, run) == true && LookingUp(c, run, i, j, r, q) && r < |run[j].readers| && !run[j].readers[r].Seeking?
    ensures var s, x := run[j], run[j].readers[r];
      && (x.Found? || x.Missed?) && x.q == q && (Settled(run[i], q) ==> x.Found?)
      && (x.Found? ==> 0 <= x.value < s.count && x.value < |s.vec| && s.vec[x.value] == q)
  {
    AsksRun(c, run, i, j, r, q);
    RunInv(c, run, i);
    RunInv(c, run, j);
    assert ReaderOk(c, run[j], run[j].readers[r]);
  }

  /** Every lookup that begins after a put has answered with an index ends by finding that index. */
  lemma PutThenLookup(c: Config, run: seq<State>, j: nat, a: nat, b: nat, r: nat, n: seq<int>, v: int)
    requires Run(c, run) == true && j <= a < b && LookingUp(c, run, a, b, r, n)
    requires run[j].writer == Answered(n, Added(v)) || run[j].writer == Answered(n, Exists(v))
    requires r < |run[b].readers| && !run[b].readers[r].Seeking?
    ensures run[b].readers[r] == Found(n, v)
  {
    RunInv(c, run, j);
    assert Settled(run[j], n);
    SettledRun(c, run, j, a, n);
    LookupOutcome(c, run, a, b, r, n);
    PutCorrect(c, run, j, b);
    RunInv(c, run, b);
    SameIndex(c, run[b], run[b].readers[r].value, v);
  }

  lemma SameIndex(c: Config, s: State, a: int, b: int)
    requires Inv(c, s) == true && 0 <= a < s.count <= |s.vec| && 0 <= b < s.count && s.vec[a] == s.vec[b]
    ensures a == b
  {
  }
}
