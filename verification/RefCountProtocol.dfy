/** The reference-count block of `shared_ptr`/`weak_ptr` under concurrency.

    One count block and its managed object, any number of threads.  Every `Interlocked*` call, the
    deletion of the object and the deletion of the block is one atomic step; between two steps of a
    thread any other thread may run.  A handle may be read by several threads at once, but it is not
    destroyed while some thread is still copying or locking it. */
module RefCountProtocol {

  type Handle = nat

  /** Where a thread is: the step it takes next.  A thread that destroys a handle has already taken
      it out of `owners` or `weaks`, and carries the units that handle held. */
  datatype Pc =
    | Idle
    | CopyUse(src: Handle)           // acquire: ++useCount
    | CopyWeak(src: Handle)          // acquire: ++weakCount
    | DropUse                        // release: --useCount
    | DropDelete                     // release: delete the object
    | DropWeakLast                   // release: --weakCount by the thread that deleted the object
    | DropWeak                       // release: --weakCount whose result is discarded
    | FreeBlock                      // delete the count block
    | WeakFrom(src: Handle)          // weakAcquire: ++weakCount
    | SpinTry(w: Handle)             // weakLock: ++spinLock
    | SpinBack(w: Handle)            // weakLock: --spinLock after a failed try
    | LockUse(w: Handle)             // weakLock: ++useCount, spin lock held
    | LockWeak(w: Handle)            // weakLock: ++weakCount, spin lock held
    | LockFail(w: Handle)            // weakLock: --useCount, spin lock held
    | Unlock(w: Handle, ok: bool)    // weakLock: --spinLock
    | WeakDrop                       // weakRelease: --weakCount

  datatype State = State(
    use: int, weak: int, spin: int,            // the three counters of the block
    owners: set<Handle>, weaks: set<Handle>,   // handles not being destroyed
    next: Handle,                              // fresh handle names
    deletes: nat, frees: nat,                  // how often the object and the block were deleted
    leaks: nat,                                // discarded decrements that reached zero
    threads: seq<Pc>)

  /** A fresh block as the constructor of the first owner leaves it, before it is shared. */
  function Initial(threadCount: nat): State {
    State(1, 1, 0, {0}, {}, 1, 0, 0, 0, seq(threadCount, _ => Idle))
  }

  /** What a scheduled thread does: start an operation, or take the next step of the one under way. */
  datatype Action =
    | StartCopy(h: Handle) | StartDrop(h: Handle) | StartWeak(h: Handle)
    | StartLock(h: Handle) | StartWeakDrop(h: Handle) | Continue

  predicate Uses(pc: Pc, h: Handle) {
    match pc
    case CopyUse(s) => s == h
    case CopyWeak(s) => s == h
    case WeakFrom(s) => s == h
    case SpinTry(w) => w == h
    case SpinBack(w) => w == h
    case LockUse(w) => w == h
    case LockWeak(w) => w == h
    case LockFail(w) => w == h
    case Unlock(w, _) => w == h
    case _ => false
  }

  predicate InUse(s: State, h: Handle) {
    exists t :: 0 <= t < |s.threads| && Uses(s.threads[t], h)
  }

  predicate Enabled(s: State, t: nat, a: Action) {
    && t < |s.threads|
    && match a
       case StartCopy(h) => s.threads[t].Idle? && h in s.owners
       case StartDrop(h) => s.threads[t].Idle? && h in s.owners && !InUse(s, h)
       case StartWeak(h) => s.threads[t].Idle? && h in s.owners
       case StartLock(h) => s.threads[t].Idle? && h in s.weaks
       case StartWeakDrop(h) => s.threads[t].Idle? && h in s.weaks && !InUse(s, h)
       case Continue => !s.threads[t].Idle?
  }

  /** What else happens at a step, besides the counters. */
  datatype Event =
    | Nothing
    | OwnerMade | WeakMade
    | OwnerGone(h: Handle) | WeakGone(h: Handle)
    | ObjectDeleted | BlockFreed | BlockLeaked

  /** One atomic step: where the thread goes, and the counters it leaves. */
  datatype Effect = Effect(pc: Pc, use: int, weak: int, spin: int, event: Event)

  function EffectOf(s: State, t: nat, a: Action): Effect
    requires Enabled(s, t, a)
  {
    match a
    case StartCopy(h) => Effect(CopyUse(h), s.use, s.weak, s.spin, Nothing)
    case StartDrop(h) => Effect(DropUse, s.use, s.weak, s.spin, OwnerGone(h))
    case StartWeak(h) => Effect(WeakFrom(h), s.use, s.weak, s.spin, Nothing)
    case StartLock(h) => Effect(SpinTry(h), s.use, s.weak, s.spin, Nothing)
    case StartWeakDrop(h) => Effect(WeakDrop, s.use, s.weak, s.spin, WeakGone(h))
    case Continue => Resume(s.threads[t], s.use, s.weak, s.spin)
  }

  /** The next step of an operation under way, given the counters it finds. */
  function Resume(pc: Pc, use: int, weak: int, spin: int): Effect
    requires !pc.Idle?
  {
    match pc
    case CopyUse(src) => Effect(CopyWeak(src), use + 1, weak, spin, Nothing)
    case CopyWeak(_) => Effect(Idle, use, weak + 1, spin, OwnerMade)
    case DropUse => Effect(if use - 1 == 0 then DropDelete else DropWeak, use - 1, weak, spin, Nothing)
    case DropDelete => Effect(DropWeakLast, use, weak, spin, ObjectDeleted)
    case DropWeakLast => Effect(if weak - 1 == 0 then FreeBlock else Idle, use, weak - 1, spin, Nothing)
    case DropWeak => Effect(Idle, use, weak - 1, spin, if weak - 1 == 0 then BlockLeaked else Nothing)
    case FreeBlock => Effect(Idle, use, weak, spin, BlockFreed)
    case WeakFrom(_) => Effect(Idle, use, weak + 1, spin, WeakMade)
    case SpinTry(w) => Effect(if spin + 1 != 1 then SpinBack(w) else LockUse(w), use, weak, spin + 1, Nothing)
    case SpinBack(w) => Effect(SpinTry(w), use, weak, spin - 1, Nothing)
    case LockUse(w) => Effect(if use + 1 > 1 then LockWeak(w) else LockFail(w), use + 1, weak, spin, Nothing)
    case LockWeak(w) => Effect(Unlock(w, true), use, weak + 1, spin, Nothing)
    case LockFail(w) => Effect(Unlock(w, false), use - 1, weak, spin, Nothing)
    case Unlock(_, ok) => Effect(Idle, use, weak, spin - 1, if ok then OwnerMade else Nothing)
    case WeakDrop => Effect(if weak - 1 == 0 then FreeBlock else Idle, use, weak - 1, spin, Nothing)
  }

  /** One atomic step of thread `t`. */
  function Step(s: State, t: nat, a: Action): State
    requires Enabled(s, t, a)
  {
    var e := EffectOf(s, t, a);
    State(
      e.use, e.weak, e.spin,
      (match e.event case OwnerMade => s.owners + {s.next} case OwnerGone(h) => s.owners - {h} case _ => s.owners),
      (match e.event case WeakMade => s.weaks + {s.next} case WeakGone(h) => s.weaks - {h} case _ => s.weaks),
      s.next + One(e.event.OwnerMade? || e.event.WeakMade?),
      s.deletes + One(e.event.ObjectDeleted?),
      s.frees + One(e.event.BlockFreed?),
      s.leaks + One(e.event.BlockLeaked?),
      s.threads[t := e.pc])
  }

  function One(b: bool): nat { if b then 1 else 0 }

  /** The state after a schedule; an entry that cannot run is skipped. */
  function Run(s: State, schedule: seq<(nat, Action)>): State
    decreases |schedule|
  {
    if schedule == [] then s
    else
      var (t, a) := schedule[0];
      Run(if Enabled(s, t, a) then Step(s, t, a) else s, schedule[1..])
  }

  // ---------- Units held by threads ----------

  /** Units of `useCount` that stand for an owner on its way in or out. */
  function Own(pc: Pc): nat { One(pc.CopyWeak? || pc.DropUse? || pc.LockWeak? || (pc.Unlock? && pc.ok)) }
  /** The unit of `useCount` that a failing upgrade takes back; its thread holds the spin lock. */
  function Fail(pc: Pc): nat { One(pc.LockFail?) }
  /** Units of `weakCount` held by threads. */
  function Weak(pc: Pc): nat {
    One(pc.DropUse? || pc.DropDelete? || pc.DropWeakLast? || pc.DropWeak? || pc.WeakDrop? || (pc.Unlock? && pc.ok))
  }
  /** Threads that hold the spin lock and are not backing out of a failed upgrade. */
  function Hold(pc: Pc): nat { One(pc.LockUse? || pc.LockWeak? || pc.Unlock?) }
  /** Threads between a failed try of the spin lock and its undo. */
  function Back(pc: Pc): nat { One(pc.SpinBack?) }
  function Deleting(pc: Pc): nat { One(pc.DropDelete?) }
  function Freeing(pc: Pc): nat { One(pc.FreeBlock?) }

  function Total(ts: seq<Pc>, w: Pc -> nat): nat {
    if ts == [] then 0 else w(ts[0]) + Total(ts[1..], w)
  }

  lemma {:induction false} TotalShifts(ts: seq<Pc>, t: nat, pc: Pc, w: Pc -> nat)
    requires t < |ts|
    ensures Total(ts[t := pc], w) == Total(ts, w) - w(ts[t]) + w(pc)
    ensures w(ts[t]) <= Total(ts, w)
  {
    if t == 0 {
      assert ts[t := pc][1..] == ts[1..];
    } else {
      assert ts[t := pc][1..] == ts[1..][t - 1 := pc];
      TotalShifts(ts[1..], t - 1, pc, w);
    }
  }

  lemma {:induction false} TotalBound(ts: seq<Pc>, w: Pc -> nat)
    requires forall pc :: w(pc) <= 1
    ensures Total(ts, w) <= |ts|
  {
    if ts != [] { TotalBound(ts[1..], w); }
  }

  lemma {:induction false} TotalZero(ts: seq<Pc>, w: Pc -> nat)
    requires forall t :: 0 <= t < |ts| ==> w(ts[t]) == 0
    ensures Total(ts, w) == 0
  {
    if ts != [] { TotalZero(ts[1..], w); }
  }

  // ---------- The invariant ----------

  /** Owning handles, complete or in flight. */
  ghost function Owning(s: State): nat { |s.owners| + Total(s.threads, Own) }

  /** `useCount` counts owners and the upgrade that is backing out; `weakCount` counts owners, owners
      in the middle of their release, and weak handles. */
  ghost predicate Counts(s: State) {
    && s.use == Owning(s) + Total(s.threads, Fail)
    && s.weak == |s.owners| + |s.weaks| + Total(s.threads, Weak)
    && s.spin == Total(s.threads, Hold) + Total(s.threads, Fail) + Total(s.threads, Back)
  }

  /** At most one thread is inside the critical section of `weakLock`, and it backs out only when
      no owner is left. */
  ghost predicate Exclusive(s: State) {
    && Total(s.threads, Hold) + Total(s.threads, Fail) <= 1
    && (Total(s.threads, Fail) > 0 ==> Owning(s) == 0)
  }

  /** The object is deleted, or about to be, exactly when no owner is left; the block is freed, about
      to be freed, or leaked, exactly when its weak count is zero. */
  ghost predicate Ends(s: State) {
    && s.deletes + Total(s.threads, Deleting) == One(Owning(s) == 0)
    && s.frees + s.leaks + Total(s.threads, Freeing) == One(s.weak == 0)
  }

  predicate HandleOk(s: State, pc: Pc) {
    match pc
    case CopyUse(h) => h in s.owners
    case CopyWeak(h) => h in s.owners
    case WeakFrom(h) => h in s.owners
    case SpinTry(w) => w in s.weaks
    case SpinBack(w) => w in s.weaks
    case LockUse(w) => w in s.weaks
    case LockWeak(w) => w in s.weaks
    case LockFail(w) => w in s.weaks
    case Unlock(w, _) => w in s.weaks
    case _ => true
  }

  /** Names are fresh, and a handle some thread is reading has not been destroyed. */
  ghost predicate Handles(s: State) {
    && s.owners !! s.weaks
    && (forall h :: h in s.owners || h in s.weaks ==> h < s.next)
    && (forall t :: 0 <= t < |s.threads| ==> HandleOk(s, s.threads[t]))
  }

  ghost predicate Inv(s: State) { Counts(s) && Exclusive(s) && Ends(s) && Handles(s) }

  lemma {:induction false} InitialInv(threadCount: nat)
    ensures Inv(Initial(threadCount))
  {
    var ts := Initial(threadCount).threads;
    TotalZero(ts, Own);
    TotalZero(ts, Fail);
    TotalZero(ts, Weak);
    TotalZero(ts, Hold);
    TotalZero(ts, Back);
    TotalZero(ts, Deleting);
    TotalZero(ts, Freeing);
  }

  lemma {:induction false} StepKeepsHandles(s: State, t: nat, a: Action)
    requires Handles(s) && Enabled(s, t, a)
    ensures Handles(Step(s, t, a))
  {
    var s' := Step(s, t, a);
    assert HandleOk(s, s.threads[t]);
    forall i | 0 <= i < |s'.threads|
      ensures HandleOk(s', s'.threads[i])
    {
      assert HandleOk(s, s.threads[i]);
      if a.StartDrop? || a.StartWeakDrop? {
        assert !Uses(s.threads[i], a.h);
      }
    }
  }

  function OwnersGained(e: Effect): int { One(e.event.OwnerMade?) - One(e.event.OwnerGone?) }
  function WeaksGained(e: Effect): int { One(e.event.WeakMade?) - One(e.event.WeakGone?) }

  /** The units a thread gains or loses are the ones its step puts into the counters. */
  predicate UseBalanced(pc: Pc, e: Effect, use: int) {
    e.use == use + Own(e.pc) + Fail(e.pc) - Own(pc) - Fail(pc) + OwnersGained(e)
  }

  predicate WeakBalanced(pc: Pc, e: Effect, weak: int) {
    e.weak == weak + Weak(e.pc) - Weak(pc) + OwnersGained(e) + WeaksGained(e)
  }

  predicate SpinBalanced(pc: Pc, e: Effect, spin: int) {
    e.spin == spin + Hold(e.pc) + Fail(e.pc) + Back(e.pc) - Hold(pc) - Fail(pc) - Back(pc)
  }

  /** The spin lock is entered only when free; backing out starts only at a use count of zero; a new
      owner comes from an owner, or from an upgrade that saw one. */
  predicate Guarded(pc: Pc, e: Effect, use: int, spin: int) {
    && (Hold(e.pc) + Fail(e.pc) > Hold(pc) + Fail(pc) ==> Hold(e.pc) + Fail(e.pc) == 1 && spin == 0)
    && (Fail(e.pc) > Fail(pc) ==> use <= 0 && Hold(pc) == 1)
    && (Own(e.pc) + OwnersGained(e) > Own(pc) ==> pc.CopyUse? || (Hold(pc) == 1 && use > 0))
  }

  /** The deletions start exactly where a count reaches zero. */
  predicate Closes(pc: Pc, e: Effect, use: int, weak: int) {
    && One(e.event.ObjectDeleted?) + Deleting(e.pc) == Deleting(pc) + One(pc.DropUse? && use == 1)
    && (Own(e.pc) + OwnersGained(e) < Own(pc) <==> pc.DropUse?)
    && One(e.event.BlockFreed?) + One(e.event.BlockLeaked?) + Freeing(e.pc) == Freeing(pc) + One(e.weak < weak && weak == 1)
    && weak - 1 <= e.weak <= weak + 1
    && (e.weak > weak ==> pc.CopyWeak? || pc.WeakFrom? || pc.LockWeak?)
  }

  lemma {:induction false} EffectUse(s: State, t: nat, a: Action)
    requires Enabled(s, t, a)
    ensures UseBalanced(s.threads[t], EffectOf(s, t, a), s.use)
  {
  }

  lemma {:induction false} EffectWeak(s: State, t: nat, a: Action)
    requires Enabled(s, t, a)
    ensures WeakBalanced(s.threads[t], EffectOf(s, t, a), s.weak)
  {
  }

  lemma {:induction false} EffectSpin(s: State, t: nat, a: Action)
    requires Enabled(s, t, a)
    ensures SpinBalanced(s.threads[t], EffectOf(s, t, a), s.spin)
  {
  }

  lemma {:induction false} EffectGuarded(s: State, t: nat, a: Action)
    requires Enabled(s, t, a)
    ensures Guarded(s.threads[t], EffectOf(s, t, a), s.use, s.spin)
  {
  }

  lemma {:induction false} EffectCloses(s: State, t: nat, a: Action)
    requires Enabled(s, t, a)
    ensures Closes(s.threads[t], EffectOf(s, t, a), s.use, s.weak)
  {
  }

  lemma {:induction false} SetGrows(a: set<Handle>, h: Handle)
    requires h !in a
    ensures |a + {h}| == |a| + 1
  {
  }

  lemma {:induction false} SetShrinks(a: set<Handle>, h: Handle)
    requires h in a
    ensures |a - {h}| == |a| - 1
  {
  }

  /** A handle that goes was there. */
  lemma {:induction false} GoneWasThere(s: State, t: nat, a: Action)
    requires Enabled(s, t, a)
    ensures var e := EffectOf(s, t, a).event; (e.OwnerGone? ==> e.h in s.owners) && (e.WeakGone? ==> e.h in s.weaks)
  {
  }

  lemma {:induction false} StepSizes(s: State, t: nat, a: Action)
    requires Handles(s) && Enabled(s, t, a)
    ensures |Step(s, t, a).owners| == |s.owners| + OwnersGained(EffectOf(s, t, a))
    ensures |Step(s, t, a).weaks| == |s.weaks| + WeaksGained(EffectOf(s, t, a))
  {
    var event := EffectOf(s, t, a).event;
    GoneWasThere(s, t, a);
    if event.OwnerMade? {
      SetGrows(s.owners, s.next);
    } else if event.WeakMade? {
      SetGrows(s.weaks, s.next);
    } else if event.OwnerGone? {
      SetShrinks(s.owners, event.h);
    } else if event.WeakGone? {
      SetShrinks(s.weaks, event.h);
    }
  }

  lemma {:induction false} StepKeepsInv(s: State, t: nat, a: Action)
    requires Inv(s) && Enabled(s, t, a)
    ensures Inv(Step(s, t, a))
  {
    var pc := EffectOf(s, t, a).pc;
    assert HandleOk(s, s.threads[t]);
    EffectUse(s, t, a);
    EffectWeak(s, t, a);
    EffectSpin(s, t, a);
    EffectGuarded(s, t, a);
    EffectCloses(s, t, a);
    StepSizes(s, t, a);
    TotalShifts(s.threads, t, pc, Own);
    TotalShifts(s.threads, t, pc, Fail);
    TotalShifts(s.threads, t, pc, Weak);
    TotalShifts(s.threads, t, pc, Hold);
    TotalShifts(s.threads, t, pc, Back);
    TotalShifts(s.threads, t, pc, Deleting);
    TotalShifts(s.threads, t, pc, Freeing);
    StepKeepsHandles(s, t, a);
  }

  lemma {:induction false} RunKeepsInv(s: State, schedule: seq<(nat, Action)>)
    requires Inv(s)
    ensures Inv(Run(s, schedule))
    decreases |schedule|
  {
    if schedule != [] {
      var (t, a) := schedule[0];
      if Enabled(s, t, a) {
        StepKeepsInv(s, t, a);
        RunKeepsInv(Step(s, t, a), schedule[1..]);
      } else {
        RunKeepsInv(s, schedule[1..]);
      }
    }
  }
}
