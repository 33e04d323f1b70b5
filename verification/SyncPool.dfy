/** `SynchronizedObjectMemoryPool`: any number of threads allocate, free and write to their objects.

    Taking the spin lock, every store of `allocate` and `free` with the loads it depends on, and the unlock
    are separate steps, and other threads may run between them.  A slot may be passed from thread to thread,
    so that one frees what another allocated.  `world` and `log` are history: the pool after the operations
    committed so far, run one after the other, and those operations in that order.  So are `called` and
    `done`, the calls begun and the calls ended, in order. */
module SyncPool {
  import opened PoolModel

  /** Where a thread is.  `r` and `c` are the region the allocator handed out, if one was needed. */
  datatype Pc =
    | Idle
    | WantTake | WantGive(q: Address)                                // spinning on the lock
    | TakeStart                                                      // test m_firstDeleted and m_allocated
    | TakePop(q: Address)                                            // m_firstDeleted = *q
    | TakeBump(q: Address)                                           // m_allocated += m_elementSize
    | TakeLink(r: Address, c: Memory)                                // *region = m_currentRegion
    | TakeSwitch(r: Address, c: Memory)                              // m_currentRegion = region
    | TakeFirst(r: Address, c: Memory)                               // m_allocated = m_headerSize + m_elementSize
    | TakeCount(q: Address, r: Address, c: Memory)                   // m_elements++
    | TakeUnlock(q: Address, r: Address, c: Memory)
    | GiveStart(q: Address)                                          // *q = m_firstDeleted
    | GiveHead(q: Address)                                           // m_firstDeleted = q
    | GiveCount(q: Address)                                          // m_elements--
    | GiveUnlock(q: Address)

  /** A call of a thread, and a call that has ended with the slot it allocated or freed. */
  datatype Call = Taking | Giving(q: Address)
  datatype Request = Request(thread: nat, call: Call)
  datatype Done = Done(thread: nat, call: Call, slot: Address)

  datatype State = State(
    lock: int, pool: Pool, threads: seq<Pc>,
    held: seq<set<Address>>,     // the slots each thread holds and is not giving back
    world: World, log: seq<Op>, called: seq<Request>, done: seq<Done>)

  datatype Action =
    | HandOver(u: nat, q: Address)      // the client passes an object to thread u
    | BeginTake
    | BeginGive(q: Address)
    | ClientStore(q: Address, at: Address, v: int)
    | Continue(r: Address, c: Memory)   // what the allocator would hand out

  predicate Critical(pc: Pc) { !pc.Idle? && !pc.WantTake? && !pc.WantGive? }

  /** The slot a thread has begun to give back. */
  function Carried(pc: Pc): set<Address> {
    match pc
    case WantGive(q) => if q == 0 then {} else {q}
    case GiveStart(q) => if q == 0 then {} else {q}
    case GiveHead(q) => {q}
    case GiveCount(q) => {q}
    case GiveUnlock(q) => if q == 0 then {} else {q}
    case _ => {}
  }

  ghost predicate Enabled(l: Layout, s: State, t: nat, a: Action) {
    && t < |s.threads| && t < |s.held|
    && match a
       case HandOver(u, q) => u != t && u < |s.threads| && u < |s.held| && q in s.held[t]
       case BeginTake => s.threads[t].Idle?
       case BeginGive(q) => s.threads[t].Idle? && (q == 0 || q in s.held[t])
       case ClientStore(q, at, _) => q in s.held[t] && q <= at < q + l.element && at % WORD == 0
       case Continue(r, c) =>
         && !s.threads[t].Idle?
         && (s.threads[t].TakeStart? && NeedsRegion(l, s.pool) ==> FreshRegion(l, s.world.shape, r, c))
  }

  /** One step of a thread inside the lock, up to the unlock: where it goes and the pool it leaves. */
  function Inner(l: Layout, p: Pool, pc: Pc, r: Address, c: Memory): (Pc, Pool)
    requires Critical(pc) && !pc.TakeUnlock? && !pc.GiveUnlock?
  {
    match pc
    case TakeStart =>
      if p.first != 0 then (TakePop(p.first), p)
      else if p.bump < l.region then (TakeBump(p.current + p.bump), p)
      else (TakeLink(r, c), p.(mem := p.mem + c))
    case TakePop(q) => (TakeCount(q, 0, map[]), p.(first := Load(p.mem, q)))
    case TakeBump(q) => (TakeCount(q, 0, map[]), p.(bump := p.bump + l.element))
    case TakeLink(r, c) => (TakeSwitch(r, c), p.(mem := p.mem[r := p.current]))
    case TakeSwitch(r, c) => (TakeFirst(r, c), p.(current := r))
    case TakeFirst(r, c) => (TakeCount(p.current + l.header, r, c), p.(bump := l.header + l.element))
    case TakeCount(q, r, c) => (TakeUnlock(q, r, c), p.(elements := p.elements + 1))
    case GiveStart(q) => if q == 0 then (GiveUnlock(q), p) else (GiveHead(q), p.(mem := p.mem[q := p.first]))
    case GiveHead(q) => (GiveCount(q), p.(first := q))
    case GiveCount(q) => (GiveUnlock(q), p.(elements := p.elements - 1))
  }

  /** One step of thread `t`. */
  ghost function Step(l: Layout, s: State, t: nat, a: Action): State
    requires Enabled(l, s, t, a)
  {
    match a
    case HandOver(u, q) => s.(held := s.held[t := s.held[t] - {q}][u := s.held[u] + {q}])
    case BeginTake => s.(threads := s.threads[t := WantTake], called := s.called + [Request(t, Taking)])
    case BeginGive(q) =>
      s.(threads := s.threads[t := WantGive(q)], held := s.held[t := s.held[t] - {q}],
         called := s.called + [Request(t, Giving(q))])
    case ClientStore(q, at, v) => Commit(l, s.(pool := Write(s.pool, at, v)), Store(q, at, v))
    case Continue(r, c) =>
      var pc := s.threads[t];
      // InterlockedCompareExchange(&m_lock, 1, 0)
      if pc.WantTake? then
        if s.lock == 0 then s.(lock := 1, threads := s.threads[t := TakeStart]) else s
      else if pc.WantGive? then
        if s.lock == 0 then s.(lock := 1, threads := s.threads[t := GiveStart(pc.q)]) else s
      // InterlockedDecrement(&m_lock)
      else if pc.TakeUnlock? then
        Commit(l, s.(lock := s.lock - 1, threads := s.threads[t := Idle], held := s.held[t := s.held[t] + {pc.q}],
                     done := s.done + [Done(t, Taking, pc.q)]), Take(pc.r, pc.c))
      else if pc.GiveUnlock? then
        Commit(l, s.(lock := s.lock - 1, threads := s.threads[t := Idle], done := s.done + [Done(t, Giving(pc.q), pc.q)]),
               Give(pc.q))
      else
        var (pc', p) := Inner(l, s.pool, pc, r, c);
        s.(threads := s.threads[t := pc'], pool := p)
  }

  ghost function Commit(l: Layout, s: State, op: Op): State {
    s.(world := Do(l, s.world, op), log := s.log + [op])
  }

  // ---------- The invariant ----------

  /** The lock is held exactly when some thread is inside, and then by one thread only. */
  ghost predicate Locked(s: State) {
    && (s.lock == 0 || s.lock == 1)
    && (s.lock == 0 ==> forall t :: 0 <= t < |s.threads| ==> !Critical(s.threads[t]))
    && (s.lock == 1 ==> exists t :: 0 <= t < |s.threads| && Critical(s.threads[t]))
    && (forall t, u :: 0 <= t < |s.threads| && 0 <= u < |s.threads| && Critical(s.threads[t]) && Critical(s.threads[u]) ==> t == u)
  }

  /** The pool while a thread is part-way through its operation, as a function of the committed pool. */
  function Midway(l: Layout, p: Pool, pc: Pc): Pool {
    match pc
    case TakeLink(r, c) => p.(mem := p.mem + c)
    case TakeSwitch(r, c) => p.(mem := (p.mem + c)[r := p.current])
    case TakeFirst(r, c) => p.(mem := (p.mem + c)[r := p.current], current := r)
    case TakeCount(q, r, c) => Allocate(l, p, r, c).0.(elements := p.elements)
    case TakeUnlock(q, r, c) => Allocate(l, p, r, c).0
    case GiveHead(q) => p.(mem := p.mem[q := p.first])
    case GiveCount(q) => p.(mem := p.mem[q := p.first], first := q)
    case GiveUnlock(q) => Free(p, q)
    case _ => p
  }

  /** The branch a thread is on agrees with the committed pool. */
  ghost predicate OnPath(l: Layout, w: World, pc: Pc) {
    match pc
    case TakePop(q) => q == w.pool.first && q != 0
    case TakeBump(q) => w.pool.first == 0 && w.pool.bump < l.region && q == w.pool.current + w.pool.bump
    case TakeLink(r, c) => NeedsRegion(l, w.pool) && FreshRegion(l, w.shape, r, c)
    case TakeSwitch(r, c) => NeedsRegion(l, w.pool) && FreshRegion(l, w.shape, r, c)
    case TakeFirst(r, c) => NeedsRegion(l, w.pool) && FreshRegion(l, w.shape, r, c)
    case TakeCount(q, r, c) => q == Allocate(l, w.pool, r, c).1 && (NeedsRegion(l, w.pool) ==> FreshRegion(l, w.shape, r, c))
    case TakeUnlock(q, r, c) => q == Allocate(l, w.pool, r, c).1 && (NeedsRegion(l, w.pool) ==> FreshRegion(l, w.shape, r, c))
    case GiveHead(q) => q != 0
    case GiveCount(q) => q != 0
    case _ => true
  }

  /** Outside the lock the pool is the committed one; inside, it is midway from there. */
  ghost predicate InStep(l: Layout, s: State) {
    && (s.lock == 0 ==> s.pool == s.world.pool)
    && (forall t :: 0 <= t < |s.threads| && Critical(s.threads[t]) ==>
          s.pool == Midway(l, s.world.pool, s.threads[t]) && OnPath(l, s.world, s.threads[t]))
  }

  ghost function Owned(s: State, t: nat): set<Address>
    requires t < |s.threads| && t < |s.held|
  {
    s.held[t] + Carried(s.threads[t])
  }

  /** Each thread's slots are live, and no slot belongs to two threads. */
  ghost predicate Separate(s: State) {
    && |s.held| == |s.threads|
    && (forall t :: 0 <= t < |s.threads| ==> Owned(s, t) <= s.world.shape.live && s.held[t] !! Carried(s.threads[t]))
    && (forall t, u :: 0 <= t < u < |s.threads| ==> Owned(s, t) !! Owned(s, u))
  }

  ghost predicate SysOk(l: Layout, start: World, s: State) {
    && Locked(s) && InStep(l, s) && Separate(s)
    && WorldOk(l, s.world) && Reaches(l, start, s.log, s.world)
  }

  // ---------- Every step keeps it ----------

  lemma {:induction false} StepKeepsLocked(l: Layout, s: State, t: nat, a: Action)
    requires Locked(s) && Enabled(l, s, t, a)
    ensures Locked(Step(l, s, t, a))
  {
    var s' := Step(l, s, t, a);
    assert forall i :: 0 <= i < |s.threads| && i != t ==> s'.threads[i] == s.threads[i];
    if s'.lock == 1 {
      if s.lock == 1 {
        var u :| 0 <= u < |s.threads| && Critical(s.threads[u]);
        assert Critical(s'.threads[u]);
      } else {
        assert Critical(s'.threads[t]);
      }
    }
  }

  // A step inside the lock.

  lemma {:induction false} InnerFollows(l: Layout, w: World, p: Pool, pc: Pc, r: Address, c: Memory)
    requires Critical(pc) && !pc.TakeUnlock? && !pc.GiveUnlock?
    requires p == Midway(l, w.pool, pc) && OnPath(l, w, pc)
    requires pc.TakeStart? && NeedsRegion(l, p) ==> FreshRegion(l, w.shape, r, c)
    ensures var (pc', p') := Inner(l, p, pc, r, c); p' == Midway(l, w.pool, pc') && OnPath(l, w, pc')
    ensures Critical(Inner(l, p, pc, r, c).0) && Carried(Inner(l, p, pc, r, c).0) == Carried(pc)
  {
  }

  // A client's store beside somebody's operation.

  /** A word of a live slot lies outside any region the allocator hands out afresh. */
  lemma FreshMissesSlot(l: Layout, w: World, q: Address, at: Address, r: Address, c: Memory)
    requires WorldOk(l, w) && q in w.shape.live && q <= at < q + l.element && at % WORD == 0
    requires FreshRegion(l, w.shape, r, c)
    ensures at !in c && at != r
  {
    SlotWord(l, w.pool, w.shape, q, at);
    var home :| home in w.shape.regions && at in RegionWords(l, home);
    assert Apart(r, l.region, home, l.region);
  }

  /** The word is none that the operation under way has read or written. */
  predicate Misses(l: Layout, p: Pool, pc: Pc, at: Address) {
    && at != p.first && at !in Carried(pc)
    && match pc
       case TakeLink(r, c) => at !in c && at != r
       case TakeSwitch(r, c) => at !in c && at != r
       case TakeFirst(r, c) => at !in c && at != r
       case TakeCount(_, r, c) => NeedsRegion(l, p) ==> at !in c && at != r
       case TakeUnlock(_, r, c) => NeedsRegion(l, p) ==> at !in c && at != r
       case _ => true
  }

  /** Storing before somebody's half-done operation or after it comes to the same pool. */
  lemma StoreCommutes(l: Layout, p: Pool, pc: Pc, at: Address, v: int)
    requires Misses(l, p, pc, at)
    ensures Midway(l, Write(p, at, v), pc) == Write(Midway(l, p, pc), at, v)
  {
    var p' := Write(p, at, v);
    match pc {
      case TakeLink(r, c) => assert p'.mem + c == (p.mem + c)[at := v];
      case TakeSwitch(r, c) => assert (p'.mem + c)[r := p.current] == (p.mem + c)[r := p.current][at := v];
      case TakeFirst(r, c) => assert (p'.mem + c)[r := p.current] == (p.mem + c)[r := p.current][at := v];
      case TakeCount(_, r, c) => AllocateCommutes(l, p, at, v, r, c);
      case TakeUnlock(_, r, c) => AllocateCommutes(l, p, at, v, r, c);
      case _ =>
    }
  }

  lemma AllocateCommutes(l: Layout, p: Pool, at: Address, v: int, r: Address, c: Memory)
    requires at != p.first && (NeedsRegion(l, p) ==> at !in c && at != r)
    ensures Allocate(l, Write(p, at, v), r, c).0 == Write(Allocate(l, p, r, c).0, at, v)
  {
    if NeedsRegion(l, p) {
      assert (p.mem[at := v] + c)[r := p.current] == (p.mem + c)[r := p.current][at := v];
    }
  }

  lemma StoreMisses(l: Layout, w: World, pc: Pc, q: Address, at: Address)
    requires WorldOk(l, w) && q in w.shape.live && q <= at < q + l.element && at % WORD == 0
    requires OnPath(l, w, pc) && Carried(pc) <= w.shape.live - {q}
    ensures Misses(l, w.pool, pc, at)
  {
    SlotWord(l, w.pool, w.shape, q, at);
    assert w.pool.first != 0 ==> w.pool.first in w.shape.free;
    assert w.pool.first != 0 ==> w.pool.first in Slots(w.shape) && w.pool.first != q;
    match pc {
      case TakeLink(r, c) => FreshMissesSlot(l, w, q, at, r, c);
      case TakeSwitch(r, c) => FreshMissesSlot(l, w, q, at, r, c);
      case TakeFirst(r, c) => FreshMissesSlot(l, w, q, at, r, c);
      case TakeCount(_, r, c) => if NeedsRegion(l, w.pool) { FreshMissesSlot(l, w, q, at, r, c); }
      case TakeUnlock(_, r, c) => if NeedsRegion(l, w.pool) { FreshMissesSlot(l, w, q, at, r, c); }
      case _ =>
    }
  }

  lemma {:induction false} ReachesCommit(l: Layout, start: World, log: seq<Op>, w: World, op: Op)
    requires Reaches(l, start, log, w) && Legal(l, w, op)
    ensures Reaches(l, start, log + [op], Do(l, w, op))
    decreases |log|
  {
    if log != [] {
      assert (log + [op])[1..] == log[1..] + [op];
      ReachesCommit(l, Do(l, start, log[0]), log[1..], w, op);
    }
  }

  // The seven kinds of steps.

  lemma HandOverKeeps(l: Layout, s: State, t: nat, a: Action)
    requires Locked(s) && InStep(l, s) && Separate(s) && Enabled(l, s, t, a) && a.HandOver?
    ensures InStep(l, Step(l, s, t, a)) && Separate(Step(l, s, t, a))
  {
    var s', u := Step(l, s, t, a), a.u;
    assert Owned(s, t) !! Owned(s, u) && a.q in Owned(s, t);
    assert Owned(s', t) <= Owned(s, t) && a.q !in Owned(s', t);
    assert Owned(s', u) == Owned(s, u) + {a.q};
    forall v | 0 <= v < |s.threads| && v != t && v != u ensures Owned(s', v) == Owned(s, v) && a.q !in Owned(s, v) {
      assert Owned(s, v) !! Owned(s, t);
    }
  }

  lemma BeginKeeps(l: Layout, s: State, t: nat, a: Action)
    requires Locked(s) && InStep(l, s) && Separate(s) && Enabled(l, s, t, a) && (a.BeginTake? || a.BeginGive?)
    ensures InStep(l, Step(l, s, t, a)) && Separate(Step(l, s, t, a))
  {
    var s' := Step(l, s, t, a);
    assert Owned(s', t) <= Owned(s, t);
    forall u | 0 <= u < |s.threads| && u != t ensures Owned(s', u) == Owned(s, u) {
    }
  }

  lemma TryKeeps(l: Layout, s: State, t: nat, a: Action)
    requires Locked(s) && InStep(l, s) && Separate(s) && Enabled(l, s, t, a)
    requires a.Continue? && (s.threads[t].WantTake? || s.threads[t].WantGive?)
    ensures InStep(l, Step(l, s, t, a)) && Separate(Step(l, s, t, a))
  {
    var s' := Step(l, s, t, a);
    assert Carried(s'.threads[t]) == Carried(s.threads[t]);
    forall u | 0 <= u < |s.threads| ensures Owned(s', u) == Owned(s, u) {
    }
  }

  predicate IsInner(pc: Pc) { Critical(pc) && !pc.TakeUnlock? && !pc.GiveUnlock? }

  lemma InnerKeeps(l: Layout, s: State, t: nat, a: Action)
    requires Locked(s) && InStep(l, s) && Separate(s) && Enabled(l, s, t, a)
    requires a.Continue? && IsInner(s.threads[t])
    ensures InStep(l, Step(l, s, t, a)) && Separate(Step(l, s, t, a))
  {
    var s' := Step(l, s, t, a);
    assert NeedsRegion(l, s.pool) && s.threads[t].TakeStart? ==> FreshRegion(l, s.world.shape, a.r, a.c);
    InnerFollows(l, s.world, s.pool, s.threads[t], a.r, a.c);
    assert Critical(s'.threads[t]);
    forall u | 0 <= u < |s.threads| ensures Owned(s', u) == Owned(s, u) {
    }
  }

  lemma StoreKeeps(l: Layout, s: State, t: nat, a: Action)
    requires Locked(s) && InStep(l, s) && Separate(s) && WorldOk(l, s.world) && Enabled(l, s, t, a) && a.ClientStore?
    ensures InStep(l, Step(l, s, t, a)) && Separate(Step(l, s, t, a))
  {
    var s' := Step(l, s, t, a);
    assert a.q in Owned(s, t);
    forall u | 0 <= u < |s.threads| && Critical(s.threads[u])
      ensures s'.pool == Midway(l, s'.world.pool, s'.threads[u]) && OnPath(l, s'.world, s'.threads[u])
    {
      assert Owned(s, u) <= s.world.shape.live;
      assert a.q !in Carried(s.threads[u]);
      StoreMisses(l, s.world, s.threads[u], a.q, a.at);
      StoreCommutes(l, s.world.pool, s.threads[u], a.at, a.v);
    }
    forall u | 0 <= u < |s.threads| ensures Owned(s', u) == Owned(s, u) {
    }
  }

  lemma TakeAddsOne(l: Layout, w: World, r: Address, c: Memory)
    requires WorldOk(l, w) && (NeedsRegion(l, w.pool) ==> FreshRegion(l, w.shape, r, c))
    ensures HandsOut(Allocate(l, w.pool, r, c).1, w.shape, Do(l, w, Take(r, c)).shape)
  {
    AllocateInv(l, w.pool, w.shape, r, c);
  }

  lemma UnlockTakeInStep(l: Layout, s: State, t: nat, a: Action)
    requires Locked(s) && InStep(l, s) && Enabled(l, s, t, a) && a.Continue? && s.threads[t].TakeUnlock?
    ensures InStep(l, Step(l, s, t, a))
  {
  }

  /** A slot that nobody owned becomes one of thread `t`. */
  lemma SeparateGrows(s: State, s': State, t: nat, q: Address)
    requires Separate(s) && t < |s.threads| && Carried(s.threads[t]) == {}
    requires s'.threads == s.threads[t := Idle] && s'.held == s.held[t := s.held[t] + {q}]
    requires q !in s.world.shape.live && s'.world.shape.live == s.world.shape.live + {q}
    ensures Separate(s')
  {
    forall u | 0 <= u < |s.threads| && u != t ensures Owned(s', u) == Owned(s, u) {
    }
    assert Owned(s', t) == Owned(s, t) + {q};
  }

  lemma UnlockTakeSeparate(l: Layout, s: State, t: nat, a: Action)
    requires InStep(l, s) && Separate(s) && WorldOk(l, s.world) && Enabled(l, s, t, a)
    requires a.Continue? && s.threads[t].TakeUnlock?
    ensures Separate(Step(l, s, t, a))
  {
    TakeAddsOne(l, s.world, s.threads[t].r, s.threads[t].c);
    SeparateGrows(s, Step(l, s, t, a), t, s.threads[t].q);
  }

  lemma UnlockGiveKeeps(l: Layout, s: State, t: nat, a: Action)
    requires Locked(s) && InStep(l, s) && Separate(s) && Enabled(l, s, t, a)
    requires a.Continue? && s.threads[t].GiveUnlock?
    ensures InStep(l, Step(l, s, t, a)) && Separate(Step(l, s, t, a))
  {
    var s', pc := Step(l, s, t, a), s.threads[t];
    assert s'.world.shape.live == s.world.shape.live - Carried(pc);
    assert Carried(pc) <= Owned(s, t);
    forall u | 0 <= u < |s.threads| && u != t ensures Owned(s', u) == Owned(s, u) && Owned(s, u) !! Carried(pc) {
      assert Owned(s, u) !! Owned(s, t);
    }
    assert Owned(s', t) == s.held[t];
  }

  /** What a step commits, if anything, is legal for the sequential pool. */
  lemma StepCommits(l: Layout, start: World, s: State, t: nat, a: Action)
    requires SysOk(l, start, s) && Enabled(l, s, t, a)
    ensures WorldOk(l, Step(l, s, t, a).world) && Reaches(l, start, Step(l, s, t, a).log, Step(l, s, t, a).world)
  {
    var pc := s.threads[t];
    if a.ClientStore? {
      var op := Store(a.q, a.at, a.v);
      assert a.q in Owned(s, t);
      DoKeepsWorld(l, s.world, op);
      ReachesCommit(l, start, s.log, s.world, op);
    } else if a.Continue? && pc.TakeUnlock? {
      var op := Take(pc.r, pc.c);
      DoKeepsWorld(l, s.world, op);
      ReachesCommit(l, start, s.log, s.world, op);
    } else if a.Continue? && pc.GiveUnlock? {
      var op := Give(pc.q);
      assert pc.q == 0 || pc.q in Owned(s, t);
      DoKeepsWorld(l, s.world, op);
      ReachesCommit(l, start, s.log, s.world, op);
    }
  }

  lemma StepKeepsSys(l: Layout, start: World, s: State, t: nat, a: Action)
    requires SysOk(l, start, s) && Enabled(l, s, t, a)
    ensures SysOk(l, start, Step(l, s, t, a))
  {
    StepKeepsLocked(l, s, t, a);
    StepCommits(l, start, s, t, a);
    if a.HandOver? { HandOverKeeps(l, s, t, a); }
    else if a.BeginTake? || a.BeginGive? { BeginKeeps(l, s, t, a); }
    else if a.ClientStore? { StoreKeeps(l, s, t, a); }
    else if s.threads[t].WantTake? || s.threads[t].WantGive? { TryKeeps(l, s, t, a); }
    else if s.threads[t].TakeUnlock? { UnlockTakeInStep(l, s, t, a); UnlockTakeSeparate(l, s, t, a); }
    else if s.threads[t].GiveUnlock? { UnlockGiveKeeps(l, s, t, a); }
    else { InnerKeeps(l, s, t, a); }
  }

  // ---------- Every interleaving ----------

  /** `n` threads and a pool that nobody uses yet. */
  ghost function Initial(n: nat, start: World): State {
    State(0, start.pool, seq(n, _ => Idle), seq(n, _ => {}), start, [], [], [])
  }

  /** The state after a schedule; an entry that cannot run is skipped. */
  ghost function Run(l: Layout, s: State, schedule: seq<(nat, Action)>): State
    decreases |schedule|
  {
    if schedule == [] then s
    else
      var (t, a) := schedule[0];
      Run(l, if Enabled(l, s, t, a) then Step(l, s, t, a) else s, schedule[1..])
  }

  lemma {:induction false} RunKeepsSys(l: Layout, start: World, s: State, schedule: seq<(nat, Action)>)
    requires SysOk(l, start, s)
    ensures SysOk(l, start, Run(l, s, schedule))
    decreases |schedule|
  {
    if schedule != [] {
      var (t, a) := schedule[0];
      if Enabled(l, s, t, a) {
        StepKeepsSys(l, start, s, t, a);
        RunKeepsSys(l, start, Step(l, s, t, a), schedule[1..]);
      } else {
        RunKeepsSys(l, start, s, schedule[1..]);
      }
    }
  }

  lemma RunOk(l: Layout, start: World, n: nat, schedule: seq<(nat, Action)>)
    requires WorldOk(l, start)
    ensures var s := Run(l, Initial(n, start), schedule); SysOk(l, start, s) && |s.threads| == |s.held| == n
  {
    var s0 := Initial(n, start);
    assert SysOk(l, start, s0);
    RunKeepsSys(l, start, s0, schedule);
    RunThreads(l, s0, schedule);
  }

  /** The slots threads hold are live, and no two of them overlap, whoever holds them. */
  ghost predicate HoldersApart(l: Layout, s: State) {
    && (forall t :: 0 <= t < |s.held| ==> s.held[t] <= s.world.shape.live)
    && (forall t, u :: 0 <= t < u < |s.held| ==> s.held[t] !! s.held[u])
    && (forall t, u, q, r :: 0 <= t < |s.held| && 0 <= u < |s.held| && q in s.held[t] && r in s.held[u] && q != r ==>
          Apart(q, l.element, r, l.element))
  }

  lemma SysHoldersApart(l: Layout, start: World, s: State)
    requires SysOk(l, start, s)
    ensures HoldersApart(l, s)
  {
    forall t | 0 <= t < |s.held| ensures s.held[t] <= s.world.shape.live {
      assert s.held[t] <= Owned(s, t);
    }
    forall t, u | 0 <= t < u < |s.held| ensures s.held[t] !! s.held[u] {
      assert Owned(s, t) !! Owned(s, u);
    }
    forall t, u, q, r | 0 <= t < |s.held| && 0 <= u < |s.held| && q in s.held[t] && r in s.held[u] && q != r
      ensures Apart(q, l.element, r, l.element)
    {
      assert q in Slots(s.world.shape) && r in Slots(s.world.shape);
    }
  }

  /** Whatever the interleaving, and whoever frees what: the operations committed so far form a sequential run
      of the plain pool whose result is the shared pool whenever the lock is free; the slots that threads hold
      are live in it, none is held by two threads, and no two of them share storage. */
  lemma InterleavingsAreSequential(l: Layout, start: World, n: nat, schedule: seq<(nat, Action)>)
    requires WorldOk(l, start)
    ensures var s := Run(l, Initial(n, start), schedule);
            && Reaches(l, start, s.log, s.world)
            && (s.lock == 0 ==> s.pool == s.world.pool)
            && |s.held| == n
            && HoldersApart(l, s)
  {
    RunOk(l, start, n, schedule);
    SysHoldersApart(l, start, Run(l, Initial(n, start), schedule));
  }

  /** In no interleaving does a thread load or store outside the pool's memory. */
  lemma AccessesStayInMemory(l: Layout, start: World, n: nat, schedule: seq<(nat, Action)>, t: nat)
    requires WorldOk(l, start) && t < n
    ensures var s := Run(l, Initial(n, start), schedule); |s.threads| == n && InMemory(s, t)
  {
    RunOk(l, start, n, schedule);
    SysInMemory(l, start, Run(l, Initial(n, start), schedule), t);
  }

  /** The words the thread is about to load or store are in the pool's memory. */
  predicate InMemory(s: State, t: nat)
    requires t < |s.threads|
  {
    var pc := s.threads[t];
    && (pc.TakePop? || (pc.GiveStart? && pc.q != 0) ==> pc.q in s.pool.mem)
    && (pc.TakeLink? ==> pc.r in s.pool.mem)
  }

  lemma SysInMemory(l: Layout, start: World, s: State, t: nat)
    requires SysOk(l, start, s) && t < |s.threads|
    ensures InMemory(s, t)
  {
    var pc := s.threads[t];
    if pc.GiveStart? && pc.q != 0 {
      assert pc.q in Owned(s, t);
      assert Placed(l, s.world.pool, s.world.shape, pc.q);
      SlotWord(l, s.world.pool, s.world.shape, pc.q, pc.q);
    }
  }

  lemma {:induction false} RunThreads(l: Layout, s: State, schedule: seq<(nat, Action)>)
    ensures |Run(l, s, schedule).threads| == |s.threads| && |Run(l, s, schedule).held| == |s.held|
    decreases |schedule|
  {
    if schedule != [] {
      var (t, a) := schedule[0];
      RunThreads(l, if Enabled(l, s, t, a) then Step(l, s, t, a) else s, schedule[1..]);
    }
  }
}
