/** What the reference-count protocol guarantees in every interleaving. */
module RefCountSafety {
  import opened RefCountProtocol

  /** The states some schedule of `n` threads reaches. */
  ghost predicate Reachable(s: State) {
    exists n: nat, schedule :: s == Run(Initial(n), schedule)
  }

  lemma ReachableInv(s: State)
    requires Reachable(s)
    ensures Inv(s)
  {
    var n: nat, schedule :| s == Run(Initial(n), schedule);
    InitialInv(n);
    RunKeepsInv(Initial(n), schedule);
  }

  // ---------- The managed object ----------

  /** The deletion of the object has begun or is over. */
  ghost predicate Dead(s: State) { s.deletes + Total(s.threads, Deleting) > 0 }

  /** The object is deleted at most once, and never while an owner is left: whenever a thread is
      about to delete it, it has not been deleted and nobody owns it, not even half-way. */
  lemma ObjectDeletedAtMostOnce(s: State)
    requires Reachable(s)
    ensures s.deletes <= 1
    ensures Dead(s) <==> Owning(s) == 0
    ensures forall t :: 0 <= t < |s.threads| && s.threads[t].DropDelete? ==> s.deletes == 0 && s.owners == {}
  {
    ReachableInv(s);
    forall t | 0 <= t < |s.threads| && s.threads[t].DropDelete?
      ensures s.deletes == 0 && s.owners == {}
    {
      TotalShifts(s.threads, t, Idle, Deleting);
    }
  }

  /** An upgrade succeeds exactly when the object still has an owner, and then the object is alive. */
  lemma UpgradeSucceedsIffOwned(s: State, t: nat)
    requires Reachable(s) && t < |s.threads| && s.threads[t].LockUse?
    ensures Step(s, t, Continue).threads[t].LockWeak? <==> Owning(s) > 0
    ensures Step(s, t, Continue).threads[t].LockWeak? <==> !Dead(s)
  {
    ReachableInv(s);
    TotalShifts(s.threads, t, Idle, Hold);
  }

  /** No thread ever holds a successful upgrade on a dead object. */
  ghost predicate NoOwner(s: State) {
    && s.owners == {}
    && forall t :: 0 <= t < |s.threads| ==> Own(s.threads[t]) == 0
  }

  lemma DeadHasNoOwner(s: State)
    requires Inv(s) && Dead(s)
    ensures NoOwner(s)
  {
    forall t | 0 <= t < |s.threads| ensures Own(s.threads[t]) == 0 {
      TotalShifts(s.threads, t, Idle, Own);
    }
  }

  lemma DeadStays(s: State, t: nat, a: Action)
    requires Inv(s) && Dead(s) && Enabled(s, t, a)
    ensures Dead(Step(s, t, a))
  {
    EffectCloses(s, t, a);
    TotalShifts(s.threads, t, EffectOf(s, t, a).pc, Deleting);
  }

  /** Once the deletion has begun no copy and no upgrade brings an owner back, however the run goes on. */
  lemma {:induction false} NoResurrection(s: State, schedule: seq<(nat, Action)>)
    requires Inv(s) && Dead(s)
    ensures Dead(Run(s, schedule)) && NoOwner(Run(s, schedule))
    decreases |schedule|
  {
    DeadHasNoOwner(s);
    if schedule != [] {
      var (t, a) := schedule[0];
      if Enabled(s, t, a) {
        StepKeepsInv(s, t, a);
        DeadStays(s, t, a);
        NoResurrection(Step(s, t, a), schedule[1..]);
      } else {
        NoResurrection(s, schedule[1..]);
      }
    }
  }

  // ---------- What each operation does ----------

  datatype Task = NoTask | Copying(h: Handle) | Weakening(h: Handle) | Locking(h: Handle) | Releasing

  /** The operation a thread is in. */
  function TaskOf(pc: Pc): Task {
    match pc
    case Idle => NoTask
    case CopyUse(h) => Copying(h)
    case CopyWeak(h) => Copying(h)
    case WeakFrom(h) => Weakening(h)
    case SpinTry(w) => Locking(w)
    case SpinBack(w) => Locking(w)
    case LockUse(w) => Locking(w)
    case LockWeak(w) => Locking(w)
    case LockFail(w) => Locking(w)
    case Unlock(w, _) => Locking(w)
    case _ => Releasing
  }

  /** The operation an action starts. */
  function Begun(a: Action): Task
    requires !a.Continue?
  {
    match a
    case StartCopy(h) => Copying(h)
    case StartDrop(_) => Releasing
    case StartWeak(h) => Weakening(h)
    case StartLock(h) => Locking(h)
    case StartWeakDrop(_) => Releasing
  }

  /** What the last step of an operation brings about: a copy makes an owner; a weak copy makes a weak handle;
      an upgrade has been decided, and makes an owner iff it succeeded; a release has given back its unit of
      `weakCount`, or frees the block. */
  predicate EndsWell(pc: Pc, e: Effect, weak: int) {
    match TaskOf(pc)
    case NoTask => true
    case Copying(_) => e.event.OwnerMade?
    case Weakening(_) => e.event.WeakMade?
    case Locking(_) => pc.Unlock? && (e.event.OwnerMade? <==> pc.ok)
    case Releasing => e.weak == weak - 1 || e.event.BlockFreed?
  }

  /** An action starts its own operation; an operation under way goes on until it has done what it is for. */
  lemma {:induction false} TaskProtocol(s: State, t: nat, a: Action)
    requires Enabled(s, t, a)
    ensures var pc, e := s.threads[t], EffectOf(s, t, a);
            && (!a.Continue? ==> TaskOf(e.pc) == Begun(a))
            && (a.Continue? && !e.pc.Idle? ==> TaskOf(e.pc) == TaskOf(pc))
            && (a.Continue? && e.pc.Idle? ==> EndsWell(pc, e, s.weak))
            && (e.pc.Unlock? ==> (e.pc.ok <==> pc.LockWeak?))
  {
  }

  /** An upgrade that failed is still failed: the object stays dead. */
  ghost predicate FailedIsDead(s: State) {
    forall t :: 0 <= t < |s.threads| && s.threads[t].Unlock? && !s.threads[t].ok ==> Dead(s)
  }

  lemma FailIsDead(s: State, t: nat)
    requires Inv(s) && t < |s.threads| && s.threads[t].LockFail?
    ensures Dead(s)
  {
    TotalShifts(s.threads, t, Idle, Fail);
  }

  lemma StepKeepsFailedIsDead(s: State, t: nat, a: Action)
    requires Inv(s) && FailedIsDead(s) && Enabled(s, t, a)
    ensures FailedIsDead(Step(s, t, a))
  {
    var s' := Step(s, t, a);
    TaskProtocol(s, t, a);
    forall u | 0 <= u < |s'.threads| && s'.threads[u].Unlock? && !s'.threads[u].ok ensures Dead(s') {
      if u == t {
        LeadsToUnlock(s, t, a);
        FailIsDead(s, t);
      } else {
        assert s.threads[u] == s'.threads[u];
      }
      DeadStays(s, t, a);
    }
  }

  lemma {:induction false} LeadsToUnlock(s: State, t: nat, a: Action)
    requires Enabled(s, t, a) && EffectOf(s, t, a).pc.Unlock? && !EffectOf(s, t, a).pc.ok
    ensures s.threads[t].LockFail?
  {
  }

  lemma {:induction false} RunKeepsFailedIsDead(s: State, schedule: seq<(nat, Action)>)
    requires Inv(s) && FailedIsDead(s)
    ensures FailedIsDead(Run(s, schedule))
    decreases |schedule|
  {
    if schedule != [] {
      var (t, a) := schedule[0];
      if Enabled(s, t, a) {
        StepKeepsInv(s, t, a);
        StepKeepsFailedIsDead(s, t, a);
        RunKeepsFailedIsDead(Step(s, t, a), schedule[1..]);
      } else {
        RunKeepsFailedIsDead(s, schedule[1..]);
      }
    }
  }

  /** In every interleaving an upgrade ends only by unlocking; it then makes an owner, or the object is dead. */
  lemma UpgradeEnds(s: State, t: nat)
    requires Reachable(s) && t < |s.threads| && TaskOf(s.threads[t]).Locking?
    ensures var s' := Step(s, t, Continue);
            s'.threads[t].Idle? ==> s.threads[t].Unlock? && (if s.threads[t].ok then s'.owners == s.owners + {s.next} else Dead(s))
  {
    var n: nat, schedule :| s == Run(Initial(n), schedule);
    InitialInv(n);
    RunKeepsFailedIsDead(Initial(n), schedule);
    TaskProtocol(s, t, Continue);
  }

  /** Own steps an operation has still to take, if it does not have to try for the spin lock again. */
  function Rank(pc: Pc): nat {
    match pc
    case Idle => 0
    case CopyUse(_) => 2
    case CopyWeak(_) => 1
    case DropUse => 4
    case DropDelete => 3
    case DropWeakLast => 2
    case DropWeak => 1
    case FreeBlock => 1
    case WeakFrom(_) => 1
    case SpinTry(_) => 4
    case SpinBack(_) => 5
    case LockUse(_) => 3
    case LockWeak(_) => 2
    case LockFail(_) => 2
    case Unlock(_, _) => 1
    case WeakDrop => 2
  }

  /** Every step of an operation leads nearer to its end, unless it finds the spin lock taken. */
  lemma {:induction false} StepAdvances(s: State, t: nat)
    requires Enabled(s, t, Continue)
    ensures Rank(Step(s, t, Continue).threads[t]) < Rank(s.threads[t]) || (s.threads[t].SpinTry? && s.spin != 0)
  {
  }

  // ---------- The count block ----------

  /** The next step of this thread reads or writes the count block. */
  predicate Touches(pc: Pc) { !pc.Idle? && !pc.DropDelete? && !pc.FreeBlock? }

  /** No step touches the count block after it was freed, and it is freed at most once. */
  lemma BlockSafe(s: State)
    requires Reachable(s)
    ensures s.frees <= 1
    ensures forall t :: 0 <= t < |s.threads| && Touches(s.threads[t]) ==> s.frees == 0 && s.weak > 0
    ensures forall t :: 0 <= t < |s.threads| && s.threads[t].FreeBlock? ==> s.frees == 0 && s.weak == 0
    ensures s.owners + s.weaks != {} ==> s.frees == 0
  {
    ReachableInv(s);
    forall t | 0 <= t < |s.threads| && Touches(s.threads[t])
      ensures s.weak > 0
    {
      assert HandleOk(s, s.threads[t]);
      TotalShifts(s.threads, t, Idle, Weak);
    }
    forall t | 0 <= t < |s.threads| && s.threads[t].FreeBlock?
      ensures s.frees == 0 && s.weak == 0
    {
      TotalShifts(s.threads, t, Idle, Freeing);
    }
  }

  predicate AllIdle(s: State) { forall t :: 0 <= t < |s.threads| ==> s.threads[t].Idle? }

  /** With no operation under way the counters are the numbers of handles; the object is gone exactly
      when no owner is left; the block is freed or leaked exactly when no handle is left. */
  lemma QuietCounts(s: State)
    requires Reachable(s) && AllIdle(s)
    ensures s.use == |s.owners| && s.weak == |s.owners| + |s.weaks| && s.spin == 0
    ensures s.deletes == One(s.owners == {})
    ensures s.frees + s.leaks == One(s.owners == {} && s.weaks == {})
  {
    ReachableInv(s);
    TotalZero(s.threads, Own);
    TotalZero(s.threads, Fail);
    TotalZero(s.threads, Weak);
    TotalZero(s.threads, Hold);
    TotalZero(s.threads, Back);
    TotalZero(s.threads, Deleting);
    TotalZero(s.threads, Freeing);
  }

  /** The counters stay between zero and the number of handles and threads, so they cannot wrap while
      those are fewer than 2^31. */
  lemma CountersBounded(s: State)
    requires Reachable(s)
    ensures 0 <= s.use <= |s.owners| + |s.threads| + 1
    ensures 0 <= s.weak <= |s.owners| + |s.weaks| + |s.threads|
    ensures 0 <= s.spin <= |s.threads| + 1
  {
    ReachableInv(s);
    TotalBound(s.threads, Own);
    TotalBound(s.threads, Weak);
    TotalBound(s.threads, Back);
  }

  // ---------- Operations on their own ----------

  /** Thread `t` goes on for up to `k` steps, undisturbed. */
  function Finish(s: State, t: nat, k: nat): State
    decreases k
  {
    if k == 0 || !Enabled(s, t, Continue) then s else Finish(Step(s, t, Continue), t, k - 1)
  }

  /** The operation that `a` starts, from its start to its end. */
  function Alone(s: State, t: nat, a: Action): State
    requires Enabled(s, t, a)
  {
    Finish(Step(s, t, a), t, 5)
  }

  /** The state with one more owner. */
  function WithOwner(s: State): State {
    s.(use := s.use + 1, weak := s.weak + 1, owners := s.owners + {s.next}, next := s.next + 1)
  }

  lemma CopyAlone(s: State, t: nat, h: Handle)
    requires Reachable(s) && AllIdle(s) && t < |s.threads| && h in s.owners
    ensures Alone(s, t, StartCopy(h)) == WithOwner(s)
  {
    var s1 := Step(s, t, StartCopy(h));
    var s2 := Step(s1, t, Continue);
    assert s2.threads == s.threads[t := CopyWeak(h)];
    var s3 := Step(s2, t, Continue);
    assert s3.threads == s.threads;
    assert Finish(s2, t, 4) == Finish(s3, t, 3) == s3;
  }

  lemma WeakAlone(s: State, t: nat, h: Handle)
    requires Reachable(s) && AllIdle(s) && t < |s.threads| && h in s.owners
    ensures Alone(s, t, StartWeak(h)) == s.(weak := s.weak + 1, weaks := s.weaks + {s.next}, next := s.next + 1)
  {
    var s1 := Step(s, t, StartWeak(h));
    var s2 := Step(s1, t, Continue);
    assert s2.threads == s.threads;
    assert Finish(s1, t, 5) == Finish(s2, t, 4) == s2;
  }

  /** A weak handle yields an owner exactly when one is left, and otherwise nothing changes. */
  lemma LockAlone(s: State, t: nat, w: Handle)
    requires Reachable(s) && AllIdle(s) && t < |s.threads| && w in s.weaks
    ensures Alone(s, t, StartLock(w)) == if s.owners != {} then WithOwner(s) else s
  {
    QuietCounts(s);
    var s1 := Step(s, t, StartLock(w));
    assert s1 == s.(threads := s.threads[t := SpinTry(w)]);
    var s2 := Step(s1, t, Continue);
    assert s2 == s.(spin := 1, threads := s.threads[t := LockUse(w)]);
    LockedAlone(s, s2, t, w);
    assert Finish(s1, t, 5) == Finish(s2, t, 4);
  }

  lemma LockedAlone(s: State, s2: State, t: nat, w: Handle)
    requires AllIdle(s) && t < |s.threads| && s.use == |s.owners| && s.spin == 0
    requires s2 == s.(spin := 1, threads := s.threads[t := LockUse(w)])
    ensures Finish(s2, t, 4) == if s.owners != {} then WithOwner(s) else s
  {
    var ok := s.owners != {};
    var s3 := Step(s2, t, Continue);
    assert s3 == s.(use := s.use + 1, spin := 1, threads := s.threads[t := if ok then LockWeak(w) else LockFail(w)]);
    var s4 := Step(s3, t, Continue);
    assert s4.threads == s.threads[t := Unlock(w, ok)];
    var s5 := Step(s4, t, Continue);
    assert s5.threads == s.threads;
    assert Finish(s2, t, 4) == Finish(s3, t, 3) == Finish(s4, t, 2) == Finish(s5, t, 1) == s5;
  }

  /** A release deletes the object with the last owner, and the block with the last handle. */
  lemma DropAlone(s: State, t: nat, h: Handle)
    requires Reachable(s) && AllIdle(s) && t < |s.threads| && h in s.owners
    ensures Alone(s, t, StartDrop(h)) ==
            s.(use := s.use - 1, weak := s.weak - 1, owners := s.owners - {h},
               deletes := s.deletes + One(s.owners == {h}), frees := s.frees + One(s.owners == {h} && s.weaks == {}))
  {
    QuietCounts(s);
    SetShrinks(s.owners, h);
    assert s.owners == {h} <==> |s.owners| == 1 by { if |s.owners| == 1 { assert s.owners - {h} == {}; } }
    var s1 := Step(s, t, StartDrop(h));
    assert s1 == s.(owners := s.owners - {h}, threads := s.threads[t := DropUse]);
    if s.owners == {h} {
      LastDropAlone(s, s1, t);
    } else {
      var s2 := Step(s1, t, Continue);
      assert s2.threads == s.threads[t := DropWeak];
      var s3 := Step(s2, t, Continue);
      assert s3.threads == s.threads;
      assert Finish(s1, t, 5) == Finish(s2, t, 4) == Finish(s3, t, 3) == s3;
    }
  }

  lemma LastDropAlone(s: State, s1: State, t: nat)
    requires AllIdle(s) && t < |s.threads| && s.use == 1 && s.weak == 1 + |s.weaks|
    requires s1 == s.(owners := {}, threads := s.threads[t := DropUse])
    ensures Finish(s1, t, 5) ==
            s.(use := 0, weak := s.weak - 1, owners := {}, deletes := s.deletes + 1, frees := s.frees + One(s.weaks == {}))
  {
    var s2 := Step(s1, t, Continue);
    assert s2 == s.(owners := {}, use := 0, threads := s.threads[t := DropDelete]);
    var s3 := Step(s2, t, Continue);
    assert s3 == s.(owners := {}, use := 0, deletes := s.deletes + 1, threads := s.threads[t := DropWeakLast]);
    assert Finish(s1, t, 5) == Finish(s2, t, 4) == Finish(s3, t, 3);
    DeletedAlone(s3, s.threads, t);
  }

  lemma DeletedAlone(s3: State, threads: seq<Pc>, t: nat)
    requires t < |threads| && threads[t] == Idle && s3.threads == threads[t := DropWeakLast]
    ensures Finish(s3, t, 3) == s3.(weak := s3.weak - 1, frees := s3.frees + One(s3.weak == 1), threads := threads)
  {
    var s4 := Step(s3, t, Continue);
    assert Finish(s3, t, 3) == Finish(s4, t, 2);
    if s3.weak == 1 {
      assert s4.threads == threads[t := FreeBlock];
      var s5 := Step(s4, t, Continue);
      assert s5.threads == threads;
      assert Finish(s4, t, 2) == Finish(s5, t, 1) == s5;
    } else {
      assert s4.threads == threads;
    }
  }

  lemma WeakDropAlone(s: State, t: nat, w: Handle)
    requires Reachable(s) && AllIdle(s) && t < |s.threads| && w in s.weaks
    ensures Alone(s, t, StartWeakDrop(w)) ==
            s.(weak := s.weak - 1, weaks := s.weaks - {w}, frees := s.frees + One(s.owners == {} && s.weaks == {w}))
  {
    QuietCounts(s);
    SetShrinks(s.weaks, w);
    assert s.weaks == {w} <==> |s.weaks| == 1 by { if |s.weaks| == 1 { assert s.weaks - {w} == {}; } }
    var s1 := Step(s, t, StartWeakDrop(w));
    assert s1 == s.(weaks := s.weaks - {w}, threads := s.threads[t := WeakDrop]);
    WeakDroppedAlone(s1, s.threads, t);
  }

  lemma WeakDroppedAlone(s1: State, threads: seq<Pc>, t: nat)
    requires t < |threads| && threads[t] == Idle && s1.threads == threads[t := WeakDrop]
    ensures Finish(s1, t, 5) == s1.(weak := s1.weak - 1, frees := s1.frees + One(s1.weak == 1), threads := threads)
  {
    var s2 := Step(s1, t, Continue);
    assert Finish(s1, t, 5) == Finish(s2, t, 4);
    if s1.weak == 1 {
      assert s2.threads == threads[t := FreeBlock];
      var s3 := Step(s2, t, Continue);
      assert s3.threads == threads;
      assert Finish(s2, t, 4) == Finish(s3, t, 3) == s3;
    } else {
      assert s2.threads == threads;
    }
  }

  // ---------- The discarded decrement ----------

  /** A release under way whose decrement of `weakCount` is tested, or not decided yet. */
  function Drop(pc: Pc): nat { One(pc.DropUse? || pc.DropDelete? || pc.DropWeakLast?) }
  /** A release under way whose decrement of `weakCount` is discarded. */
  function Discard(pc: Pc): nat { One(pc.DropWeak?) }

  ghost function Releases(s: State): nat { Total(s.threads, Drop) + Total(s.threads, Discard) }

  /** In this run no release of an owner starts while another one is under way. */
  ghost predicate ReleasesApart(s: State, schedule: seq<(nat, Action)>)
    decreases |schedule|
  {
    schedule == [] ||
    var (t, a) := schedule[0];
    if Enabled(s, t, a)
    then (a.StartDrop? ==> Releases(s) == 0) && ReleasesApart(Step(s, t, a), schedule[1..])
    else ReleasesApart(s, schedule[1..])
  }

  ghost predicate Apart(s: State) {
    && s.leaks == 0
    && Releases(s) <= 1
    && (Total(s.threads, Discard) > 0 ==> Owning(s) > 0)
  }

  lemma {:induction false} TotalWitness(ts: seq<Pc>, w: Pc -> nat) returns (t: nat)
    requires Total(ts, w) > 0
    ensures t < |ts| && w(ts[t]) > 0
  {
    if w(ts[0]) > 0 {
      t := 0;
    } else {
      t := TotalWitness(ts[1..], w);
      t := t + 1;
    }
  }

  /** A thread that discards its decrement is not the last one to hold the block. */
  lemma DiscardIsNotLast(s: State, t: nat)
    requires Inv(s) && Apart(s) && t < |s.threads| && s.threads[t].DropWeak?
    ensures s.weak > 1
  {
    TotalShifts(s.threads, t, Idle, Discard);
    TotalShifts(s.threads, t, Idle, Weak);
    if s.owners == {} {
      var u := TotalWitness(s.threads, Own);
      assert HandleOk(s, s.threads[u]);
      TotalShifts(s.threads, u, Idle, Drop);
      TotalShifts(s.threads[t := Idle], u, Idle, Weak);
    }
  }

  /** Releases begin only by `StartDrop`; a discarded decrement follows a use count that stayed positive. */
  predicate DropsInOrder(pc: Pc, e: Effect, a: Action, use: int, weak: int) {
    && Drop(e.pc) + Discard(e.pc) <= Drop(pc) + Discard(pc) + One(a.StartDrop?)
    && (Discard(e.pc) > Discard(pc) ==> pc.DropUse? && use != 1)
    && (e.event.BlockLeaked? ==> pc.DropWeak? && weak == 1)
  }

  lemma {:induction false} EffectDrops(s: State, t: nat, a: Action)
    requires Enabled(s, t, a)
    ensures DropsInOrder(s.threads[t], EffectOf(s, t, a), a, s.use, s.weak)
  {
  }

  lemma {:induction false} StepKeepsApart(s: State, t: nat, a: Action)
    requires Inv(s) && Apart(s) && Enabled(s, t, a)
    requires a.StartDrop? ==> Releases(s) == 0
    ensures Apart(Step(s, t, a))
  {
    var pc, pc' := s.threads[t], EffectOf(s, t, a).pc;
    EffectCloses(s, t, a);
    EffectDrops(s, t, a);
    StepSizes(s, t, a);
    TotalShifts(s.threads, t, pc', Drop);
    TotalShifts(s.threads, t, pc', Discard);
    TotalShifts(s.threads, t, pc', Own);
    TotalShifts(s.threads, t, pc', Fail);
    if pc.DropWeak? { DiscardIsNotLast(s, t); }
  }

  /** If releases of owners never overlap, no block is leaked, whatever else runs beside them: with no
      handle and no operation left, the block has been freed exactly once. */
  lemma {:induction false} NoLeakWhenReleasesApart(s: State, schedule: seq<(nat, Action)>)
    requires Inv(s) && Apart(s) && ReleasesApart(s, schedule)
    ensures Run(s, schedule).leaks == 0
    decreases |schedule|
  {
    if schedule != [] {
      var (t, a) := schedule[0];
      if Enabled(s, t, a) {
        StepKeepsInv(s, t, a);
        StepKeepsApart(s, t, a);
        NoLeakWhenReleasesApart(Step(s, t, a), schedule[1..]);
      } else {
        NoLeakWhenReleasesApart(s, schedule[1..]);
      }
    }
  }

  /** The caller's side of it: if releases never overlap, then once no handle and no operation is left
      the block has been freed, exactly once. */
  lemma BlockFreedWhenReleasesApart(n: nat, schedule: seq<(nat, Action)>)
    requires ReleasesApart(Initial(n), schedule)
    ensures var s := Run(Initial(n), schedule);
            AllIdle(s) && s.owners == {} && s.weaks == {} ==> s.frees == 1 && s.deletes == 1
  {
    var s := Run(Initial(n), schedule);
    InitialInv(n);
    TotalZero(Initial(n).threads, Drop);
    TotalZero(Initial(n).threads, Discard);
    NoLeakWhenReleasesApart(Initial(n), schedule);
    if AllIdle(s) { QuietCounts(s); }
  }

  lemma {:induction false} RunAppend(s: State, schedule: seq<(nat, Action)>, t: nat, a: Action)
    requires Enabled(Run(s, schedule), t, a)
    ensures Run(s, schedule + [(t, a)]) == Step(Run(s, schedule), t, a)
    decreases |schedule|
  {
    if schedule != [] {
      var (u, b) := schedule[0];
      assert (schedule + [(t, a)])[1..] == schedule[1..] + [(t, a)];
      RunAppend(if Enabled(s, u, b) then Step(s, u, b) else s, schedule[1..], t, a);
    }
  }

  lemma ReachableStep(s: State, t: nat, a: Action)
    requires Reachable(s) && Enabled(s, t, a)
    ensures Reachable(Step(s, t, a))
  {
    var n: nat, schedule :| s == Run(Initial(n), schedule);
    RunAppend(Initial(n), schedule, t, a);
  }

  /** Exactly when the block is leaked: a thread discards its decrement while no handle is left and no other
      operation under way has a unit of `weakCount` to give back. */
  lemma LeakIff(s: State, t: nat, a: Action)
    requires Reachable(s) && Enabled(s, t, a)
    ensures Step(s, t, a).leaks > s.leaks <==>
              && s.threads[t].DropWeak? && s.owners == {} && s.weaks == {}
              && forall u :: 0 <= u < |s.threads| && u != t ==> Weak(s.threads[u]) == 0
  {
    ReachableInv(s);
    EffectDrops(s, t, a);
    var others := s.threads[t := Idle];
    TotalShifts(s.threads, t, Idle, Weak);
    if forall u :: 0 <= u < |s.threads| && u != t ==> Weak(s.threads[u]) == 0 {
      TotalZero(others, Weak);
    } else {
      var u :| 0 <= u < |s.threads| && u != t && Weak(s.threads[u]) > 0;
      assert others[u] == s.threads[u];
      TotalShifts(others, u, Idle, Weak);
    }
  }

  /** A release on its own, of an owner that is neither the last nor the last but one. */
  lemma DropOwner(s: State, h: Handle)
    requires Reachable(s) && AllIdle(s) && |s.threads| >= 2 && h in s.owners && |s.owners| >= 3
    ensures exists s' :: Reachable(s') && AllIdle(s') && |s'.threads| == |s.threads|
                         && s'.owners == s.owners - {h} && s'.weaks == s.weaks
  {
    QuietCounts(s);
    var t := |s.threads| - 1;
    var s1 := Step(s, t, StartDrop(h));
    ReachableStep(s, t, StartDrop(h));
    assert s1.threads == s.threads[t := DropUse] && s1.use == s.use && s1.weak == s.weak;
    var s2 := Step(s1, t, Continue);
    ReachableStep(s1, t, Continue);
    assert s2.threads == s1.threads[t := DropWeak] && s2.weak == s.weak;
    var s3 := Step(s2, t, Continue);
    ReachableStep(s2, t, Continue);
    assert s3.threads == s2.threads[t := Idle] && s3.owners == s.owners - {h} && s3.weaks == s.weaks;
  }

  lemma DropWeakHandle(s: State, w: Handle)
    requires Reachable(s) && AllIdle(s) && |s.threads| >= 2 && w in s.weaks && |s.owners| >= 2
    ensures exists s' :: Reachable(s') && AllIdle(s') && |s'.threads| == |s.threads|
                         && s'.owners == s.owners && s'.weaks == s.weaks - {w}
  {
    QuietCounts(s);
    var t := |s.threads| - 1;
    var s1 := Step(s, t, StartWeakDrop(w));
    ReachableStep(s, t, StartWeakDrop(w));
    assert s1.threads == s.threads[t := WeakDrop] && s1.weak == s.weak;
    var s2 := Step(s1, t, Continue);
    ReachableStep(s1, t, Continue);
    assert s2.threads == s1.threads[t := Idle] && s2.owners == s.owners && s2.weaks == s.weaks - {w};
  }

  lemma TwoElements(a: set<Handle>) returns (g: Handle, h: Handle)
    requires |a| == 2
    ensures g != h && a == {g, h}
  {
    g :| g in a;
    SetShrinks(a, g);
    var b := a - {g};
    assert |b| == 1;
    h :| h in b;
    SetShrinks(b, h);
    assert a == {g, h};
  }

  /** The block is not always freed: from any quiet state with at least two owners, and any weak handles, two
      threads can bring it about that no handle is left and yet the block is never freed.  When two owners
      are left both take their unit of `useCount` before either gives back its unit of `weakCount`; the last
      one discards the result. */
  lemma {:induction false} OverlappingReleasesLeak(s: State)
    requires Reachable(s) && AllIdle(s) && |s.threads| >= 2 && |s.owners| >= 2
    ensures exists s' :: Reachable(s') && AllIdle(s') && s'.owners == {} && s'.weaks == {} && s'.frees == 0 && s'.leaks == 1
    decreases |s.owners| + |s.weaks|
  {
    if s.weaks != {} {
      var w :| w in s.weaks;
      DropWeakHandle(s, w);
      var s' :| Reachable(s') && AllIdle(s') && |s'.threads| == |s.threads|
                && s'.owners == s.owners && s'.weaks == s.weaks - {w};
      OverlappingReleasesLeak(s');
    } else if |s.owners| > 2 {
      var h :| h in s.owners;
      DropOwner(s, h);
      var s' :| Reachable(s') && AllIdle(s') && |s'.threads| == |s.threads|
                && s'.owners == s.owners - {h} && s'.weaks == s.weaks;
      OverlappingReleasesLeak(s');
    } else {
      var g, h := TwoElements(s.owners);
      LastTwoLeak(s, g, h);
    }
  }

  lemma LastTwoLeak(s0: State, g: Handle, h: Handle)
    requires Reachable(s0) && AllIdle(s0) && |s0.threads| >= 2
    requires g != h && s0.owners == {g, h} && s0.weaks == {}
    ensures exists s :: Reachable(s) && AllIdle(s) && s.owners == {} && s.weaks == {} && s.frees == 0 && s.leaks == 1
  {
    QuietCounts(s0);
    var s1 := Step(s0, 0, StartDrop(g));
    ReachableStep(s0, 0, StartDrop(g));
    assert s1.threads == s0.threads[0 := DropUse] && s1.owners == {h};
    var s2 := Step(s1, 1, StartDrop(h));
    ReachableStep(s1, 1, StartDrop(h));
    assert s2.threads == s1.threads[1 := DropUse] && s2.owners == {} && s2.use == s2.weak == 2;
    BothRelease(s2);
  }

  lemma BothRelease(s2: State)
    requires Reachable(s2) && |s2.threads| >= 2 && s2.threads[0].DropUse? && s2.threads[1].DropUse?
    requires forall t :: 2 <= t < |s2.threads| ==> s2.threads[t].Idle?
    requires s2.owners == {} && s2.weaks == {} && s2.use == s2.weak == 2
    ensures exists s :: Reachable(s) && AllIdle(s) && s.owners == {} && s.weaks == {} && s.frees == 0 && s.leaks == 1
  {
    var s3 := Step(s2, 0, Continue);
    ReachableStep(s2, 0, Continue);
    assert s3.threads[0].DropWeak? && s3.threads[1].DropUse? && s3.use == 1;
    var s4 := Step(s3, 1, Continue);
    ReachableStep(s3, 1, Continue);
    LastDecrementDiscarded(s4);
  }

  lemma LastDecrementDiscarded(s4: State)
    requires Reachable(s4) && |s4.threads| >= 2 && s4.threads[0].DropWeak? && s4.threads[1].DropDelete?
    requires forall t :: 2 <= t < |s4.threads| ==> s4.threads[t].Idle?
    requires s4.owners == {} && s4.weaks == {} && s4.weak == 2
    ensures exists s :: Reachable(s) && AllIdle(s) && s.owners == {} && s.weaks == {} && s.frees == 0 && s.leaks == 1
  {
    var s5 := Step(s4, 1, Continue);
    ReachableStep(s4, 1, Continue);
    assert s5.threads[0].DropWeak? && s5.threads[1].DropWeakLast? && s5.weak == 2;
    var s6 := Step(s5, 1, Continue);
    ReachableStep(s5, 1, Continue);
    assert s6.threads[0].DropWeak? && s6.threads[1].Idle? && s6.weak == 1;
    var s7 := Step(s6, 0, Continue);
    ReachableStep(s6, 0, Continue);
    assert AllIdle(s7) && s7.leaks > 0;
    QuietCounts(s7);
  }

  /** Copying a handle, undisturbed, gives one more owner. */
  lemma CopyReachable(s: State, t: nat, h: nat)
    requires Reachable(s) && AllIdle(s) && t < |s.threads| && h in s.owners
    ensures exists s' :: Reachable(s') && AllIdle(s') && |s'.threads| == |s.threads|
                         && s'.owners == s.owners + {s.next} && s'.weaks == s.weaks
  {
    var s1 := Step(s, t, StartCopy(h));
    ReachableStep(s, t, StartCopy(h));
    assert s1.threads == s.threads[t := CopyUse(h)] && s1.owners == s.owners && s1.next == s.next;
    var s2 := Step(s1, t, Continue);
    ReachableStep(s1, t, Continue);
    assert s2.threads == s1.threads[t := CopyWeak(h)] && s2.owners == s.owners && s2.next == s.next;
    var s3 := Step(s2, t, Continue);
    ReachableStep(s2, t, Continue);
    assert s3.owners == s.owners + {s.next} && AllIdle(s3);
  }

  /** Such a state is reached by copying the first owner. */
  lemma TwoOwnersReachable(n: nat)
    requires n >= 2
    ensures exists s, g, h :: Reachable(s) && AllIdle(s) && |s.threads| == n && g != h && s.owners == {g, h} && s.weaks == {}
  {
    var s := Initial(n);
    assert s == Run(s, []);
    CopyReachable(s, n - 1, 0);
    var s' :| Reachable(s') && AllIdle(s') && |s'.threads| == n && s'.owners == s.owners + {s.next} && s'.weaks == s.weaks;
    assert s'.owners == {0, 1};
  }

  // ---------- Why the spin lock ----------

  /** The same protocol with the lock taken out: a thread at the lock goes straight on. */
  function StepWithoutLock(s: State, t: nat, a: Action): State
    requires Enabled(s, t, a)
  {
    if a.Continue? && s.threads[t].SpinTry? then s.(threads := s.threads[t := LockUse(s.threads[t].w)])
    else Step(s, t, a)
  }

  function RunWithoutLock(s: State, schedule: seq<(nat, Action)>): State
    decreases |schedule|
  {
    if schedule == [] then s
    else
      var (t, a) := schedule[0];
      RunWithoutLock(if Enabled(s, t, a) then StepWithoutLock(s, t, a) else s, schedule[1..])
  }

  lemma {:induction false} RunWithoutLockAppend(s: State, schedule: seq<(nat, Action)>, t: nat, a: Action)
    requires Enabled(RunWithoutLock(s, schedule), t, a)
    ensures RunWithoutLock(s, schedule + [(t, a)]) == StepWithoutLock(RunWithoutLock(s, schedule), t, a)
    decreases |schedule|
  {
    if schedule != [] {
      var (u, b) := schedule[0];
      assert (schedule + [(t, a)])[1..] == schedule[1..] + [(t, a)];
      RunWithoutLockAppend(if Enabled(s, u, b) then StepWithoutLock(s, u, b) else s, schedule[1..], t, a);
    }
  }

  ghost predicate ReachableWithoutLock(n: nat, s: State) { exists schedule :: s == RunWithoutLock(Initial(n), schedule) }

  lemma WithoutLockStep(n: nat, s: State, t: nat, a: Action) returns (s': State)
    requires ReachableWithoutLock(n, s) && Enabled(s, t, a)
    ensures s' == StepWithoutLock(s, t, a) && ReachableWithoutLock(n, s')
  {
    var schedule :| s == RunWithoutLock(Initial(n), schedule);
    RunWithoutLockAppend(Initial(n), schedule, t, a);
    s' := StepWithoutLock(s, t, a);
  }

  /** Two threads in the middle of an upgrade of the weak handle `w`, which is the only handle left beside
      the owner `h`. */
  predicate BothUpgrade(s: State, n: nat, h: Handle, w: Handle) {
    && n >= 3 && |s.threads| == n && s.use == 1 && s.deletes == 0 && s.owners == {h} && h != w
    && s.threads[0] == LockUse(w) && s.threads[1] == LockUse(w)
    && forall t :: 2 <= t < n ==> s.threads[t] == Idle
  }

  lemma WeakMadeWithoutLock(n: nat, s: State, t: nat, h: Handle) returns (s': State)
    requires ReachableWithoutLock(n, s) && t < |s.threads| && s.threads[t].Idle? && h in s.owners
    ensures ReachableWithoutLock(n, s')
    ensures s' == s.(weak := s.weak + 1, weaks := s.weaks + {s.next}, next := s.next + 1)
  {
    s' := WithoutLockStep(n, s, t, StartWeak(h));
    assert s' == s.(threads := s.threads[t := WeakFrom(h)]);
    s' := WithoutLockStep(n, s', t, Continue);
    assert s'.threads == s.threads;
  }

  lemma UpgradeWithoutLock(n: nat, s: State, t: nat, w: Handle) returns (s': State)
    requires ReachableWithoutLock(n, s) && t < |s.threads| && s.threads[t].Idle? && w in s.weaks
    ensures ReachableWithoutLock(n, s') && s' == s.(threads := s.threads[t := LockUse(w)])
  {
    s' := WithoutLockStep(n, s, t, StartLock(w));
    assert s' == s.(threads := s.threads[t := SpinTry(w)]);
    s' := WithoutLockStep(n, s', t, Continue);
    assert s'.threads == s.threads[t := LockUse(w)];
  }

  lemma BothUpgradeReachable(n: nat) returns (s: State, w: Handle)
    requires n >= 3
    ensures ReachableWithoutLock(n, s) && BothUpgrade(s, n, 0, w)
  {
    var s0 := Initial(n);
    assert s0 == RunWithoutLock(s0, []);
    w := s0.next;
    s := WeakMadeWithoutLock(n, s0, n - 1, w - 1);
    s := UpgradeWithoutLock(n, s, 0, w);
    s := UpgradeWithoutLock(n, s, 1, w);
  }

  lemma OwnerDiesBetween(n: nat, s: State, h: Handle, w: Handle) returns (s': State)
    requires ReachableWithoutLock(n, s) && BothUpgrade(s, n, h, w)
    ensures ReachableWithoutLock(n, s') && |s'.threads| == n && s'.use == 0 && s'.deletes == 1 && s'.owners == {}
    ensures s'.threads[0] == LockUse(w) && s'.threads[1] == LockUse(w)
  {
    s' := WithoutLockStep(n, s, n - 1, StartDrop(h));
    assert s'.threads == s.threads[n - 1 := DropUse] && s'.owners == {};
    s' := WithoutLockStep(n, s', n - 1, Continue);
    assert s'.threads == s.threads[n - 1 := DropDelete] && s'.use == 0;
    s' := WithoutLockStep(n, s', n - 1, Continue);
  }

  /** Without the lock the protocol fails: some run from a fresh block deletes the object and then lets an
      upgrade succeed, because it sees the increment of another upgrade that is failing. */
  lemma SpinLockIsNeeded(n: nat)
    requires n >= 3
    ensures exists s :: ReachableWithoutLock(n, s) && |s.threads| == n && s.threads[1].LockWeak?
                        && s.deletes == 1 && s.owners == {}
  {
    var s, w := BothUpgradeReachable(n);
    s := OwnerDiesBetween(n, s, 0, w);
    s := WithoutLockStep(n, s, 0, Continue);
    assert s.use == 1 && s.threads[0].LockFail? && s.threads[1] == LockUse(w);
    s := WithoutLockStep(n, s, 1, Continue);
  }
}
