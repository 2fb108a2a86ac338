/**
  The element allocator of cf/src/arenax.c: fixed-size elements in stages, named by 64-bit handles, with
  a free list threaded through the free elements themselves.
 */
module Arena {
  import opened Search

  const ELEMENT_ID_NUM_BITS: nat := 24
  const MAX_STAGE_CAPACITY := 0x100_0000
  const CF_ARENAX_MAX_STAGES := 256
  /** Size of a free element's header, and where in it the next handle is. */
  const FREE_ELEMENT := 16
  const NEXT_OFFSET := 8

  // ---------------------------------------------------------------- handles

  lemma {:induction false} OrIsSum(s: nat, e: nat, n: nat)
    requires e < Pow2(n)
    ensures BitOr(s * Pow2(n), e) == s * Pow2(n) + e
  {
    if n == 0 {
      OrZero(s);
    } else {
      var p := Pow2(n - 1);
      assert s * Pow2(n) == 2 * (s * p);
      OrIsSum(s, e / 2, n - 1);
    }
  }

  lemma Capacity()
    ensures Pow2(ELEMENT_ID_NUM_BITS) == MAX_STAGE_CAPACITY
  {
    assert Pow2(8) == 256;
    Pow2Add(8, 8);
    Pow2Add(16, 8);
  }

  /** cf_arenax_set_handle. */
  function Handle(stage: nat, element: nat): (h: nat)
    requires element < MAX_STAGE_CAPACITY
    ensures h == stage * MAX_STAGE_CAPACITY + element
  {
    Capacity();
    OrIsSum(stage, element, ELEMENT_ID_NUM_BITS);
    BitOr(stage * MAX_STAGE_CAPACITY, element)
  }

  function StageId(h: nat): nat {
    h / MAX_STAGE_CAPACITY
  }

  function ElementId(h: nat): nat {
    h % MAX_STAGE_CAPACITY
  }

  /** A handle gives back its stage and its element, and these give back the handle. */
  lemma HandleParts(stage: nat, element: nat, h: nat)
    requires element < MAX_STAGE_CAPACITY
    ensures StageId(Handle(stage, element)) == stage && ElementId(Handle(stage, element)) == element
    ensures Handle(StageId(h), ElementId(h)) == h
  {
  }

  // ---------------------------------------------------------------- places

  /** Stages of size n at the given addresses do not overlap. */
  ghost predicate Apart(stages: seq<int>, n: int) {
    forall i, j :: 0 <= i < j < |stages| ==> stages[i] + n <= stages[j] || stages[j] + n <= stages[i]
  }

  /** n elements' bytes; the product, spelt out for the verifier. */
  function Times(n: nat, size: int): (r: int) {
    if n == 0 then 0 else size + Times(n - 1, size)
  }

  lemma {:induction false} TimesIsProduct(n: nat, size: int)
    ensures Times(n, size) == n * size
  {
    if n > 0 {
      TimesIsProduct(n - 1, size);
    }
  }

  /** cf_arenax_resolve. */
  function Resolve(stages: seq<int>, size: int, h: nat): (a: int)
    requires StageId(h) < |stages|
    ensures a == stages[h / 0x100_0000] + (h % 0x100_0000) * size
  {
    TimesIsProduct(ElementId(h), size);
    stages[StageId(h)] + Times(ElementId(h), size)
  }

  lemma {:induction false} TimesGap(a: nat, b: nat, size: int)
    requires a < b && size > 0
    ensures 0 <= Times(a, size) && Times(a, size) + size <= Times(b, size)
  {
    if a + 1 < b {
      TimesGap(a, b - 1, size);
    } else if a > 0 {
      TimesGap(a - 1, a, size);
    }
  }

  /** Elements lie inside their stages, and different elements do not overlap. */
  lemma Disjoint(stages: seq<int>, size: int, cap: nat, g: nat, h: nat)
    requires size > 0 && Apart(stages, Times(cap, size)) && StageId(g) < |stages| && StageId(h) < |stages|
    requires ElementId(g) < cap && ElementId(h) < cap
    ensures stages[StageId(h)] <= Resolve(stages, size, h) &&
      Resolve(stages, size, h) + size <= stages[StageId(h)] + Times(cap, size)
    ensures g != h ==>
      Resolve(stages, size, g) + size <= Resolve(stages, size, h) ||
      Resolve(stages, size, h) + size <= Resolve(stages, size, g)
  {
    TimesGap(ElementId(h), cap, size);
    TimesGap(ElementId(g), cap, size);
    if StageId(g) == StageId(h) && g != h {
      HandleParts(0, 0, g);
      HandleParts(0, 0, h);
      if ElementId(g) < ElementId(h) {
        TimesGap(ElementId(g), ElementId(h), size);
      } else {
        TimesGap(ElementId(h), ElementId(g), size);
      }
    }
  }

  lemma TailFacts(s: seq<int>)
    requires s != [] && forall i, j :: 0 <= i < j < |s| ==> s[i] != s[j]
    ensures s[0] !in s[1..] && forall x :: x in s <==> x == s[0] || x in s[1..]
    ensures forall i, j :: 0 <= i < j < |s[1..]| ==> s[1..][i] != s[1..][j]
  {
    assert s == [s[0]] + s[1..];
  }

  // ---------------------------------------------------------------- the arena

  /** h was handed out by end allocation up to the given place; 0:0 never is. */
  ghost predicate Given(h: int, atStage: int, atElement: int, cap: int) {
    && h > 0 && StageId(h) <= atStage && ElementId(h) < cap
    && (StageId(h) == atStage ==> ElementId(h) < atElement)
  }

  /** Where the link of an element is. */
  ghost function Link(stages: seq<int>, size: int, h: int): int
    requires h > 0 && StageId(h) < |stages|
  {
    Resolve(stages, size, h) + NEXT_OFFSET
  }

  /** The free list in memory, from handle h: each free element holds the handle of the next, the last one 0. */
  ghost predicate Threaded(free: seq<int>, h: int, stages: seq<int>, size: int, mem: map<int, int>)
    decreases free
  {
    if free == [] then h == 0 else
      && h == free[0] && h > 0 && StageId(h) < |stages| && Link(stages, size, h) in mem
      && Threaded(free[1..], mem[Link(stages, size, h)], stages, size, mem)
  }

  /** Live and free handles are disjoint and are together exactly those given; the free list is acyclic. */
  ghost predicate Parted(live: set<int>, free: seq<int>, atStage: int, atElement: int, cap: int) {
    && (forall i, j :: 0 <= i < j < |free| ==> free[i] != free[j])
    && (forall h :: h in live ==> h !in free)
    && (forall h :: h in live || h in free <==> Given(h, atStage, atElement, cap))
  }

  /** No link of the free list is at address a. */
  ghost predicate Misses(free: seq<int>, stages: seq<int>, size: int, a: int) {
    forall h :: h in free && h > 0 && StageId(h) < |stages| ==> Link(stages, size, h) != a
  }

  /** The list survives a write elsewhere and new stages. */
  lemma {:induction false} ThreadKept(free: seq<int>, h: int, stages: seq<int>, size: int, mem: map<int, int>, a: int,
                                      v: int)
    requires Threaded(free, h, stages, size, mem) == true && Misses(free, stages, size, a)
    ensures Threaded(free, h, stages, size, mem[a := v]) == true
    decreases free
  {
    if free != [] {
      assert free[0] in free;
      ThreadKept(free[1..], mem[Link(stages, size, h)], stages, size, mem, a, v);
    }
  }

  lemma HeadOrNone(free: seq<int>, h: int, stages: seq<int>, size: int, mem: map<int, int>)
    requires Threaded(free, h, stages, size, mem) == true
    ensures h == 0 <==> free == []
    ensures free == [] ==> forall more: seq<int> :: Threaded([], 0, stages + more, size, mem) == true
    ensures free != [] ==> h == free[0] && h > 0 && StageId(h) < |stages| && Link(stages, size, h) in mem
    ensures free != [] ==> Threaded(free[1..], mem[Link(stages, size, h)], stages, size, mem) == true
  {
  }

  lemma PushThread(free: seq<int>, freeH: int, stages: seq<int>, size: int, mem: map<int, int>, h: int)
    requires Threaded(free, freeH, stages, size, mem) == true && h > 0 && StageId(h) < |stages|
    requires Misses(free, stages, size, Link(stages, size, h))
    ensures Threaded([h] + free, h, stages, size, mem[Link(stages, size, h) := freeH]) == true
  {
    ThreadKept(free, freeH, stages, size, mem, Link(stages, size, h), freeH);
    assert ([h] + free)[1..] == free;
  }

  lemma PopParted(live: set<int>, free: seq<int>, atStage: int, atElement: int, cap: int)
    requires Parted(live, free, atStage, atElement, cap) == true && free != []
    ensures Parted(live + {free[0]}, free[1..], atStage, atElement, cap) == true && free[0] !in live
  {
    TailFacts(free);
  }

  lemma PushParted(live: set<int>, free: seq<int>, atStage: int, atElement: int, cap: int, h: int)
    requires Parted(live, free, atStage, atElement, cap) == true && h in live
    ensures Parted(live - {h}, [h] + free, atStage, atElement, cap) == true
  {
    var f := [h] + free;
    forall i, j | 0 <= i < j < |f| ensures f[i] != f[j] {
      assert f[j] == free[j - 1] && free[j - 1] in free;
    }
  }

  /** One more element is given at (stage, element), which is next. */
  lemma GiveOne(live: set<int>, atStage: int, atElement: int, cap: int, stage: nat, element: nat)
    requires Parted(live, [], atStage, atElement, cap) == true && element < cap <= MAX_STAGE_CAPACITY &&
      stage + element > 0
    requires stage == atStage && element == atElement
    ensures var h := Handle(stage, element);
      h > 0 && h !in live && Parted(live + {h}, [], atStage, atElement + 1, cap) == true
  {
    var n := Handle(stage, element);
    HandleParts(stage, element, 0);
    forall h | h > 0 && StageId(h) == stage && ElementId(h) == element ensures h == n {
      HandleParts(0, 0, h);
    }
  }

  /** A full stage is left for the next one: nothing is given by that. */
  lemma GiveNone(live: set<int>, atStage: nat, cap: int)
    requires Parted(live, [], atStage, cap, cap) == true
    ensures Parted(live, [], atStage + 1, 0, cap) == true
  {
    forall h ensures Given(h, atStage + 1, 0, cap) <==> Given(h, atStage, cap, cap) {
    }
  }

  class Arena {
    const elementSize: int
    const stageCapacity: nat
    const maxStages: int
    var freeH: int
    var atStage: int
    var atElement: int
    /** The stages' addresses. */
    var stages: seq<int>
    /** The words in memory by address. */
    var mem: map<int, int>

    /** Handles in use, and the free list from its head. */
    ghost var live: set<int>
    ghost var free: seq<int>

    ghost predicate Placed()
      reads this
    {
      && elementSize >= FREE_ELEMENT && 0 < stageCapacity <= MAX_STAGE_CAPACITY && 0 < maxStages <= CF_ARENAX_MAX_STAGES
      && 0 <= atStage == |stages| - 1 < maxStages && 0 <= atElement <= stageCapacity && atStage + atElement > 0
      && Apart(stages, Times(stageCapacity, elementSize))
    }

    ghost predicate Valid()
      reads this
    {
      && Placed() == true && Threaded(free, freeH, stages, elementSize, mem) == true
      && Parted(live, free, atStage, atElement, stageCapacity) == true
    }

    /** cf_arenax_init, whose first stage is at address base. */
    constructor (elementSize: int, stageCapacity: nat, maxStages: int, base: int)
      requires elementSize >= FREE_ELEMENT && 0 <= stageCapacity <= MAX_STAGE_CAPACITY &&
        0 <= maxStages <= CF_ARENAX_MAX_STAGES
      ensures Valid() == true && live == {} && free == []
      ensures this.elementSize == elementSize
      ensures this.stageCapacity == if stageCapacity == 0 then 0x100_0000 else stageCapacity
      ensures this.maxStages == if maxStages == 0 then 256 else maxStages
      ensures stages == [base] && atStage == 0 && atElement == 1
    {
      this.elementSize := elementSize;
      this.stageCapacity := if stageCapacity == 0 then MAX_STAGE_CAPACITY else stageCapacity;
      this.maxStages := if maxStages == 0 then CF_ARENAX_MAX_STAGES else maxStages;
      freeH, atStage, atElement := 0, 0, 1;
      stages, mem := [base], map[];
      live, free := {}, [];
    }

    /** Distinct handles in use or free resolve to disjoint ranges inside their stages. */
    lemma Separate(g: int, h: int)
      requires Valid() == true && (g in live || g in free) && (h in live || h in free)
      ensures g > 0 && h > 0 && StageId(h) < |stages| && StageId(g) < |stages|
      ensures stages[StageId(h)] <= Resolve(stages, elementSize, h)
      ensures Resolve(stages, elementSize, h) + elementSize <= stages[StageId(h)] + Times(stageCapacity, elementSize)
      ensures g == h || Resolve(stages, elementSize, g) + elementSize <= Resolve(stages, elementSize, h)
                     || Resolve(stages, elementSize, h) + elementSize <= Resolve(stages, elementSize, g)
    {
      assert Given(g, atStage, atElement, stageCapacity) && Given(h, atStage, atElement, stageCapacity);
      Disjoint(stages, elementSize, stageCapacity, g, h);
    }

    /** No free element's link is inside a live element. */
    lemma LinksElsewhere(h: int, offset: int)
      requires Valid() == true && h in live && 0 <= offset < elementSize
      ensures h > 0 && StageId(h) < |stages|
      ensures Misses(free, stages, elementSize, Resolve(stages, elementSize, h) + offset) == true
    {
      Separate(h, h);
      forall f | f in free && f > 0 && StageId(f) < |stages|
        ensures Link(stages, elementSize, f) != Resolve(stages, elementSize, h) + offset
      {
        Separate(f, h);
      }
    }

    /** cf_arenax_add_stage; `base` is what the allocator returned, if anything. */
    method AddStage(ok: bool, base: int) returns (done: bool)
      modifies this`stages
      ensures done == (|old(stages)| < maxStages && ok) && stages == if done then old(stages) + [base] else old(stages)
    {
      done := |stages| < maxStages && ok;
      if done {
        stages := stages + [base];
      }
    }

    /** Takes the head of the free list. */
    method AllocFree() returns (h: int)
      requires Valid() == true && free != []
      modifies this`freeH, this`live, this`free
      ensures Valid() == true && h > 0 && h !in old(live) && live == old(live) + {h} && h == old(free)[0] &&
        free == old(free)[1..]
    {
      h := freeH;
      HeadOrNone(free, freeH, stages, elementSize, mem);
      PopParted(live, free, atStage, atElement, stageCapacity);
      freeH := mem[Resolve(stages, elementSize, h) + NEXT_OFFSET];
      live, free := live + {h}, free[1..];
    }

    /** End allocation where there is room. */
    method AllocEnd() returns (h: int)
      requires Valid() == true && free == [] && atElement < stageCapacity
      modifies this`atElement, this`live
      ensures Valid() == true && h > 0 && h !in old(live) && live == old(live) + {h}
      ensures h == 0x100_0000 * atStage + old(atElement) && atElement == old(atElement) + 1
    {
      GiveOne(live, atStage, atElement, stageCapacity, atStage, atElement);
      h := Handle(atStage, atElement);
      atElement := atElement + 1;
      live := live + {h};
    }

    /**
      cf_arenax_alloc: a handle that was not in use, from the free list if that has any; 0, with nothing
      changed, exactly when a new stage is needed and cannot be had.
     */
    method Alloc(ok: bool, base: int) returns (h: int)
      requires Valid() == true && (ok ==> Apart(stages + [base], Times(stageCapacity, elementSize)) == true)
      modifies this
      ensures Valid() == true && old(stages) <= stages
      ensures h == 0 <==> old(free) == [] && old(atElement) == stageCapacity && (|old(stages)| == maxStages || !ok)
      ensures h == 0 ==> unchanged(this)
      ensures h != 0 ==> h > 0 && h !in old(live) && live == old(live) + {h}
      ensures old(free) != [] ==> h == old(free)[0] && free == old(free)[1..] && stages == old(stages)
      ensures old(free) == [] && old(atElement) < stageCapacity ==>
        h == 0x100_0000 * old(atStage) + old(atElement) && stages == old(stages)
      ensures old(free) == [] && old(atElement) == stageCapacity && h != 0 ==>
        h == 0x100_0000 * (old(atStage) + 1) && stages == old(stages) + [base]
    {
      HeadOrNone(free, freeH, stages, elementSize, mem);
      if freeH != 0 {
        h := AllocFree();
        return;
      }
      if atElement >= stageCapacity {
        var done := AddStage(ok, base);
        if !done {
          return 0;
        }
        GiveNone(live, atStage, stageCapacity);
        atStage, atElement := atStage + 1, 0;
      }
      h := AllocEnd();
    }

    /** cf_arenax_free: the element becomes the head of the free list. */
    method Free(h: int)
      requires Valid() == true && h in live
      modifies this
      ensures Valid() == true && live == old(live) - {h} && free == [h] + old(free) && stages == old(stages)
      ensures mem == old(mem)[Resolve(stages, elementSize, h) + 8 := old(freeH)] && freeH == h
    {
      LinksElsewhere(h, NEXT_OFFSET);
      PushThread(free, freeH, stages, elementSize, mem, h);
      PushParted(live, free, atStage, atElement, stageCapacity, h);
      mem := mem[Resolve(stages, elementSize, h) + NEXT_OFFSET := freeH];
      freeH := h;
      live, free := live - {h}, [h] + free;
    }

    /** The owner of a live element writes anywhere in it: the free list is not touched. */
    method Store(h: int, offset: int, v: int)
      requires Valid() == true && h in live && 0 <= offset < elementSize
      modifies this`mem
      ensures Valid() == true && mem == old(mem)[Resolve(stages, elementSize, h) + offset := v]
    {
      LinksElsewhere(h, offset);
      ThreadKept(free, freeH, stages, elementSize, mem, Resolve(stages, elementSize, h) + offset, v);
      mem := mem[Resolve(stages, elementSize, h) + offset := v];
    }
  }
}
