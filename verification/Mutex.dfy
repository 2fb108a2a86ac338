/**
  The futex mutex of cf/src/cf_mutex.c as a transition system: any number of threads, each at a point of
  lock, trylock, lock_spin, unlock or unlock_spin, interleaved at every atomic access to the lock word.
 */
module Mutex {

  const FUTEX_SPIN_MAX := 100

  /** Where a thread is. */
  datatype Pc =
    | Idle                 // outside, not holding the lock
    | Spin(i: int)         // lock_spin, before attempt i
    | Read                 // slow path, before reading the word
    | Wait                 // about to call FUTEX_WAIT with value 2
    | Asleep               // in the kernel's wait queue
    | Xchg                 // slow path, before exchanging in 2
    | Holding              // holds the lock
    | SpinRead(i: int)     // unlock_spin has found waiters, before reading the word for the i-th time
    | SpinCas              // unlock_spin, before changing 1 to 2
    | Wake                 // about to call FUTEX_WAKE
    | Crashed              // "already unlocked"

  /** The lock word and the threads. */
  datatype State = State(word: int, pcs: seq<Pc>)

  ghost predicate Init(s: State) {
    s.word == 0 && forall i :: 0 <= i < |s.pcs| ==> s.pcs[i] == Idle
  }

  ghost function Go(s: State, i: nat, word: int, pc: Pc): State
    requires i < |s.pcs|
  {
    State(word, s.pcs[i := pc])
  }

  // ---------------------------------------------------------------- atomic steps

  /** cmpxchg(m, 0, 1): takes a free lock, or goes on to `fail`. */
  ghost predicate Attempt(s: State, t: State, i: nat, fail: Pc)
    requires i < |s.pcs|
  {
    t == if s.word == 0 then Go(s, i, 1, Holding) else Go(s, i, s.word, fail)
  }

  ghost function AfterSpin(i: int): Pc {
    if i + 1 < FUTEX_SPIN_MAX then Spin(i + 1) else Read
  }

  /** cf_mutex_lock, cf_mutex_lock_spin and cf_mutex_trylock. */
  ghost predicate LockStep(s: State, t: State, i: nat)
    requires i < |s.pcs|
  {
    match s.pcs[i]
    case Idle =>
      || Attempt(s, t, i, Read)                                              // lock
      || Attempt(s, t, i, Idle)                                              // trylock
      || t == Go(s, i, s.word, Spin(0))                                      // lock_spin
    case Spin(n) => Attempt(s, t, i, AfterSpin(n))
    case Read => t == Go(s, i, s.word, if s.word == 2 then Wait else Xchg)
    case Wait => t == Go(s, i, s.word, if s.word == 2 then Asleep else Xchg) // the kernel compares again
    case Asleep => t == Go(s, i, s.word, Xchg)                               // a signal or a spurious wake-up
    case Xchg => t == Go(s, i, 2, if s.word == 0 then Holding else Wait)
    case _ => false
  }

  /** A wake-up call wakes one sleeper, if there is any. */
  ghost predicate WakeOne(s: State, t: State, i: nat)
    requires i < |s.pcs|
  {
    if exists j :: 0 <= j < |s.pcs| && s.pcs[j] == Asleep
    then exists j :: 0 <= j < |s.pcs| && s.pcs[j] == Asleep && t == State(s.word, s.pcs[i := Idle][j := Xchg])
    else t == Go(s, i, s.word, Idle)
  }

  /** After the exchange in unlock returned `check`: go on to wake when there are waiters. */
  ghost function Released(check: int, wake: Pc): Pc {
    if check == 2 then wake else if check == 0 then Crashed else Idle
  }

  /** cf_mutex_unlock and cf_mutex_unlock_spin. */
  ghost predicate UnlockStep(s: State, t: State, i: nat)
    requires i < |s.pcs|
  {
    match s.pcs[i]
    case Holding =>
      || t == Go(s, i, 0, Released(s.word, Wake))                            // unlock
      || t == Go(s, i, 0, Released(s.word, SpinRead(0)))                     // unlock_spin
    case SpinRead(n) =>
      t == Go(s, i, s.word, if s.word != 0 then SpinCas else if n + 1 < FUTEX_SPIN_MAX then SpinRead(n + 1) else Wake)
    case SpinCas => t == Go(s, i, if s.word == 1 then 2 else s.word, if s.word == 0 then Wake else Idle)
    case Wake => WakeOne(s, t, i)
    case _ => false
  }

  ghost predicate Step(s: State, t: State, i: nat) {
    i < |s.pcs| && (LockStep(s, t, i) || UnlockStep(s, t, i))
  }

  // ---------------------------------------------------------------- the invariant

  ghost predicate Has(s: State, pc: Pc) {
    exists i :: 0 <= i < |s.pcs| && s.pcs[i] == pc
  }

  /** A thread that will wake a sleeper, or mark the lock as contended, before it is done. */
  ghost predicate Rouser(pc: Pc) {
    pc.SpinRead? || pc == SpinCas || pc == Wake || pc == Xchg
  }

  ghost predicate Roused(s: State) {
    exists i :: 0 <= i < |s.pcs| && Rouser(s.pcs[i])
  }

  ghost predicate OneHolder(s: State) {
    forall i, j :: 0 <= i < j < |s.pcs| ==> !(s.pcs[i] == Holding && s.pcs[j] == Holding)
  }

  /**
    At most one holder; the word is 0 exactly when there is none; while anyone sleeps, the word is 2 or
    somebody is awake who will see to it; and nobody has crashed.
   */
  ghost predicate Inv(s: State) {
    && 0 <= s.word <= 2 && OneHolder(s) && (s.word == 0 <==> !Has(s, Holding))
    && (Has(s, Asleep) ==> s.word == 2 || Roused(s))
    && !Has(s, Crashed)
  }

  lemma InitInv(s: State)
    requires Init(s)
    ensures Inv(s)
  {
  }

  ghost predicate Other(s: State, i: nat, pc: Pc) {
    exists j :: 0 <= j < |s.pcs| && j != i && s.pcs[j] == pc
  }

  ghost predicate OtherRouser(s: State, i: nat) {
    exists j :: 0 <= j < |s.pcs| && j != i && Rouser(s.pcs[j])
  }

  /** The state seen from thread i and from the others. */
  lemma Split(s: State, i: nat)
    requires i < |s.pcs|
    ensures forall p :: Has(s, p) <==> s.pcs[i] == p || Other(s, i, p)
    ensures Roused(s) <==> Rouser(s.pcs[i]) || OtherRouser(s, i)
    ensures OneHolder(s) && s.pcs[i] == Holding ==> !Other(s, i, Holding)
  {
    forall p ensures Has(s, p) <==> s.pcs[i] == p || Other(s, i, p) {
    }
  }

  /** When only thread i moves, the others are as they were. */
  lemma Moved(s: State, i: nat, word: int, pc: Pc)
    requires i < |s.pcs|
    ensures var t := Go(s, i, word, pc);
      && (forall p :: Other(t, i, p) <==> Other(s, i, p)) && (OtherRouser(t, i) <==> OtherRouser(s, i))
      && (OneHolder(s) && (pc == Holding ==> !Other(s, i, Holding)) ==> OneHolder(t))
  {
    var t := Go(s, i, word, pc);
    assert forall j :: 0 <= j < |s.pcs| && j != i ==> t.pcs[j] == s.pcs[j];
    forall p ensures Other(t, i, p) <==> Other(s, i, p) {
      if Other(t, i, p) {
        var j :| 0 <= j < |t.pcs| && j != i && t.pcs[j] == p;
        assert s.pcs[j] == p;
      }
      if Other(s, i, p) {
        var j :| 0 <= j < |s.pcs| && j != i && s.pcs[j] == p;
        assert t.pcs[j] == p;
      }
    }
    if OtherRouser(t, i) {
      var j :| 0 <= j < |t.pcs| && j != i && Rouser(t.pcs[j]);
      assert Rouser(s.pcs[j]);
    }
    if OtherRouser(s, i) {
      var j :| 0 <= j < |s.pcs| && j != i && Rouser(s.pcs[j]);
      assert Rouser(t.pcs[j]);
    }
  }

  lemma GoKeeps(s: State, i: nat, word: int, pc: Pc)
    requires Inv(s) && i < |s.pcs| && 0 <= word <= 2 && pc != Crashed
    requires pc == Holding ==> !Other(s, i, Holding)
    requires word == 0 <==> pc != Holding && !Other(s, i, Holding)
    requires pc == Asleep || Other(s, i, Asleep) ==> word == 2 || Rouser(pc) || OtherRouser(s, i)
    ensures Inv(Go(s, i, word, pc))
  {
    Split(s, i);
    Moved(s, i, word, pc);
    Split(Go(s, i, word, pc), i);
  }

  lemma LockKeeps(s: State, t: State, i: nat)
    requires Inv(s) && i < |s.pcs| && LockStep(s, t, i)
    ensures Inv(t)
  {
    Split(s, i);
    GoKeeps(s, i, t.word, t.pcs[i]);
  }

  /** A wake-up is the sleeper's move followed by the waker's. */
  lemma WakeKeeps(s: State, i: nat, j: nat)
    requires Inv(s) && i < |s.pcs| && j < |s.pcs| && s.pcs[i] == Wake && s.pcs[j] == Asleep
    ensures Inv(State(s.word, s.pcs[i := Idle][j := Xchg]))
  {
    Split(s, j);
    GoKeeps(s, j, s.word, Xchg);
    var m := Go(s, j, s.word, Xchg);
    assert m.pcs[j] == Xchg && m.pcs[i] == Wake;
    assert OtherRouser(m, i);
    Split(m, i);
    GoKeeps(m, i, s.word, Idle);
    assert s.pcs[i := Idle][j := Xchg] == m.pcs[i := Idle];
  }

  lemma UnlockKeeps(s: State, t: State, i: nat)
    requires Inv(s) && i < |s.pcs| && UnlockStep(s, t, i)
    ensures Inv(t)
  {
    Split(s, i);
    if s.pcs[i] == Wake && Has(s, Asleep) {
      var j :| 0 <= j < |s.pcs| && s.pcs[j] == Asleep && t == State(s.word, s.pcs[i := Idle][j := Xchg]);
      WakeKeeps(s, i, j);
    } else {
      GoKeeps(s, i, t.word, t.pcs[i]);
    }
  }

  /** Every step of every thread keeps the invariant. */
  lemma StepKeeps(s: State, t: State, i: nat)
    requires Inv(s) && Step(s, t, i)
    ensures Inv(t) && |t.pcs| == |s.pcs|
  {
    if LockStep(s, t, i) {
      LockKeeps(s, t, i);
    } else {
      UnlockKeeps(s, t, i);
    }
  }

  // ---------------------------------------------------------------- whole runs

  ghost predicate Next(s: State, t: State) {
    exists i :: Step(s, t, i)
  }

  ghost predicate Steps(run: seq<State>) {
    run != [] && forall k :: 0 < k < |run| ==> Next(run[k - 1], run[k])
  }

  /** In every state of every interleaving the invariant holds. */
  lemma {:induction false} RunInv(run: seq<State>, k: nat)
    requires Steps(run) && Init(run[0]) && k < |run|
    ensures Inv(run[k])
  {
    if k == 0 {
      InitInv(run[0]);
    } else {
      RunInv(run, k - 1);
      var i :| Step(run[k - 1], run[k], i);
      StepKeeps(run[k - 1], run[k], i);
    }
  }

  /** No wake-up is lost: when every thread is idle or asleep, none is asleep. */
  lemma NoLostWakeup(run: seq<State>, k: nat)
    requires Steps(run) && Init(run[0]) && k < |run|
    requires forall i :: 0 <= i < |run[k].pcs| ==> run[k].pcs[i] in {Idle, Asleep}
    ensures forall i :: 0 <= i < |run[k].pcs| ==> run[k].pcs[i] == Idle
  {
    RunInv(run, k);
  }

  ghost function Sleepers(pcs: seq<Pc>): (n: nat) {
    if pcs == [] then 0 else (if pcs[0] == Asleep then 1 else 0) + Sleepers(pcs[1..])
  }

  lemma {:induction false} SleepersAt(pcs: seq<Pc>, i: nat, pc: Pc)
    requires i < |pcs|
    ensures Sleepers(pcs[i := pc]) ==
      Sleepers(pcs) - (if pcs[i] == Asleep then 1 else 0) + if pc == Asleep then 1 else 0
  {
    if i > 0 {
      SleepersAt(pcs[1..], i - 1, pc);
      assert pcs[i := pc][1..] == pcs[1..][i - 1 := pc];
    } else {
      assert pcs[i := pc][1..] == pcs[1..];
    }
  }

  /** A step of a thread that is inside an operation and awake: no new caller, no spurious wake-up. */
  ghost predicate Driven(s: State, t: State) {
    exists i: nat :: Step(s, t, i) && s.pcs[i] !in {Idle, Asleep}
  }

  ghost predicate DrivenSteps(run: seq<State>) {
    |run| > 0 && forall k :: 0 < k < |run| ==> Driven(run[k - 1], run[k])
  }

  lemma Prepend(s: State, i: nat, run: seq<State>)
    requires DrivenSteps(run) && Step(s, run[0], i) && s.pcs[i] !in {Idle, Asleep}
    ensures DrivenSteps([s] + run)
  {
    var r := [s] + run;
    forall k | 0 < k < |r| ensures Driven(r[k - 1], r[k]) {
      if k == 1 {
        assert Step(r[0], r[1], i);
      } else {
        assert r[k - 1] == run[k - 2] && r[k] == run[k - 1];
      }
    }
  }

  /** A run from s of threads inside and awake that takes a sleeper out of the queue. */
  ghost predicate Wakes(s: State, run: seq<State>) {
    DrivenSteps(run) && run[0] == s && Sleepers(run[|run| - 1].pcs) < Sleepers(s.pcs)
  }

  lemma WakesAfter(s: State, i: nat, t: State, run: seq<State>)
    requires Step(s, t, i) && s.pcs[i] !in {Idle, Asleep} && Wakes(t, run) && Sleepers(t.pcs) == Sleepers(s.pcs)
    ensures Wakes(s, [s] + run)
  {
    Prepend(s, i, run);
  }

  lemma WakeNow(s: State, i: nat) returns (run: seq<State>)
    requires i < |s.pcs| && s.pcs[i] == Wake && Has(s, Asleep)
    ensures Wakes(s, run)
  {
    var j :| 0 <= j < |s.pcs| && s.pcs[j] == Asleep;
    var t := State(s.word, s.pcs[i := Idle][j := Xchg]);
    run := [s, t];
    assert Step(s, t, i);
    SleepersAt(s.pcs, i, Idle);
    SleepersAt(s.pcs[i := Idle], j, Xchg);
    assert Step(run[0], run[1], i);
  }

  /** The holder of a contended lock unlocks and wakes. */
  lemma HolderWakes(s: State) returns (run: seq<State>)
    requires Inv(s) && s.word == 2 && Has(s, Asleep)
    ensures Wakes(s, run)
  {
    var h :| 0 <= h < |s.pcs| && s.pcs[h] == Holding;
    var t := Go(s, h, 0, Wake);
    assert UnlockStep(s, t, h);
    SleepersAt(s.pcs, h, Wake);
    Split(s, h);
    Moved(s, h, 0, Wake);
    Split(t, h);
    var rest := WakeNow(t, h);
    WakesAfter(s, h, t, rest);
    run := [s] + rest;
  }

  /** One step of a thread that does not itself sleep or wake. */
  lemma Along(s: State, i: nat, word: int, pc: Pc)
    requires Inv(s) && i < |s.pcs| && s.pcs[i] != Asleep && pc != Asleep && Has(s, Asleep) &&
      Step(s, Go(s, i, word, pc), i)
    ensures var t := Go(s, i, word, pc); Inv(t) && Has(t, Asleep) && Sleepers(t.pcs) == Sleepers(s.pcs)
  {
    StepKeeps(s, Go(s, i, word, pc), i);
    SleepersAt(s.pcs, i, pc);
    Split(s, i);
    Moved(s, i, word, pc);
    Split(Go(s, i, word, pc), i);
  }

  lemma XchgWakes(s: State, i: nat) returns (run: seq<State>)
    requires Inv(s) && i < |s.pcs| && s.pcs[i] == Xchg && Has(s, Asleep)
    ensures Wakes(s, run)
  {
    var pc := if s.word == 0 then Holding else Wait;
    var t := Go(s, i, 2, pc);
    assert LockStep(s, t, i);
    Along(s, i, 2, pc);
    var rest := HolderWakes(t);
    WakesAfter(s, i, t, rest);
    run := [s] + rest;
  }

  lemma CasWakes(s: State, i: nat) returns (run: seq<State>)
    requires Inv(s) && i < |s.pcs| && s.pcs[i] == SpinCas && Has(s, Asleep)
    ensures Wakes(s, run)
  {
    var word, pc := if s.word == 1 then 2 else s.word, if s.word == 0 then Wake else Idle;
    var t := Go(s, i, word, pc);
    assert UnlockStep(s, t, i);
    Along(s, i, word, pc);
    var rest;
    if s.word == 0 {
      rest := WakeNow(t, i);
    } else {
      rest := HolderWakes(t);
    }
    WakesAfter(s, i, t, rest);
    run := [s] + rest;
  }

  lemma {:induction false} SpinWakes(s: State, i: nat) returns (run: seq<State>)
    requires Inv(s) && i < |s.pcs| && s.pcs[i].SpinRead? && Has(s, Asleep)
    ensures Wakes(s, run)
    decreases FUTEX_SPIN_MAX - s.pcs[i].i
  {
    var n := s.pcs[i].i;
    var pc := if s.word != 0 then SpinCas else if n + 1 < FUTEX_SPIN_MAX then SpinRead(n + 1) else Wake;
    var t := Go(s, i, s.word, pc);
    assert UnlockStep(s, t, i);
    Along(s, i, s.word, pc);
    var rest;
    if pc == SpinCas {
      rest := CasWakes(t, i);
    } else if pc == Wake {
      rest := WakeNow(t, i);
    } else {
      rest := SpinWakes(t, i);
    }
    WakesAfter(s, i, t, rest);
    run := [s] + rest;
  }

  lemma SleeperWakes(s: State) returns (run: seq<State>)
    requires Inv(s) && Has(s, Asleep)
    ensures Wakes(s, run)
  {
    if s.word == 2 {
      run := HolderWakes(s);
    } else {
      var i :| 0 <= i < |s.pcs| && Rouser(s.pcs[i]);
      if s.pcs[i] == Wake {
        run := WakeNow(s, i);
      } else if s.pcs[i] == Xchg {
        run := XchgWakes(s, i);
      } else if s.pcs[i] == SpinCas {
        run := CasWakes(s, i);
      } else {
        run := SpinWakes(s, i);
      }
    }
  }

  /**
    From every reachable state with a sleeper, threads that are already inside and awake can bring about a
    wake-up by their own steps, without a new caller and without a spurious wake-up.
   */
  lemma CanAlwaysWake(run: seq<State>, k: nat)
    requires Steps(run) && Init(run[0]) && k < |run| && Has(run[k], Asleep)
    ensures exists r :: Wakes(run[k], r)
  {
    RunInv(run, k);
    var r := SleeperWakes(run[k]);
  }

  lemma OnlyUnlock(s: State, t: State)
    requires Driven(s, t) && (s == State(1, [Holding, Asleep]) || s == State(0, [Idle, Asleep]))
    ensures t == State(0, [Idle, Asleep])
  {
    var i: nat :| Step(s, t, i) && s.pcs[i] !in {Idle, Asleep};
    assert s.pcs[1] == Asleep && i == 0;
    assert [Holding, Asleep][0 := Idle] == [Idle, Asleep];
  }

  /** That is not so of every state: a sleeper behind a word of 1 is never woken by the holder's unlock. */
  lemma LostWakeup(run: seq<State>)
    ensures !Inv(State(1, [Holding, Asleep])) && !Wakes(State(1, [Holding, Asleep]), run)
  {
    var s, t := State(1, [Holding, Asleep]), State(0, [Idle, Asleep]);
    assert s.pcs[0] == Holding && s.pcs[1] == Asleep;
    assert !Roused(s) && Sleepers(s.pcs) == Sleepers(t.pcs);
    if Wakes(s, run) {
      var k := 1;
      while k < |run|
        invariant 1 <= k <= |run| && (run[k - 1] == s || run[k - 1] == t)
      {
        OnlyUnlock(run[k - 1], run[k]);
        k := k + 1;
      }
    }
  }

  // ---------------------------------------------------------------- the lock it implements

  ghost function Holders(s: State): (h: set<int>) {
    set i | 0 <= i < |s.pcs| && s.pcs[i] == Holding
  }

  lemma HoldersGo(s: State, i: nat, word: int, pc: Pc)
    requires i < |s.pcs|
    ensures Holders(Go(s, i, word, pc)) == Holders(s) - {i} + if pc == Holding then {i} else {}
  {
  }

  /** The holder is the one thread that holds, and there is none exactly when the word is 0. */
  lemma HoldersInv(s: State, i: nat)
    requires Inv(s) && i < |s.pcs|
    ensures (s.pcs[i] == Holding ==> Holders(s) == {i}) && (s.word == 0 <==> Holders(s) == {})
  {
    if s.pcs[i] == Holding {
      forall j | j in Holders(s) ensures j == i {
        assert s.pcs[j] == Holding;
      }
    }
    if Has(s, Holding) {
      var h :| 0 <= h < |s.pcs| && s.pcs[h] == Holding;
      assert h in Holders(s);
    }
  }

  lemma WakeHolders(s: State, t: State, i: nat)
    requires i < |s.pcs| && s.pcs[i] == Wake && WakeOne(s, t, i)
    ensures Holders(t) == Holders(s) && |t.pcs| == |s.pcs| && t.pcs[i] != Holding
  {
    HoldersGo(s, i, s.word, Idle);
    if Has(s, Asleep) {
      var j :| 0 <= j < |s.pcs| && s.pcs[j] == Asleep && t == State(s.word, s.pcs[i := Idle][j := Xchg]);
      HoldersGo(Go(s, i, s.word, Idle), j, s.word, Xchg);
    }
  }

  /**
    Seen from outside every step leaves the holder alone, gives a free lock to the thread that moves, or
    takes it from that thread; and a failed trylock has met a holder.
   */
  lemma RefinesLock(s: State, t: State, i: nat)
    requires Inv(s) && Step(s, t, i)
    ensures || Holders(t) == Holders(s)
            || (Holders(s) == {} && Holders(t) == {i})
            || (Holders(s) == {i} && Holders(t) == {} && s.pcs[i] == Holding)
    ensures s.pcs[i] == Idle && t.pcs[i] == Idle ==> t == s && Holders(s) != {}
  {
    HoldersInv(s, i);
    if s.pcs[i] == Wake {
      WakeHolders(s, t, i);
    } else {
      assert t == Go(s, i, t.word, t.pcs[i]);
      HoldersGo(s, i, t.word, t.pcs[i]);
    }
  }
}
