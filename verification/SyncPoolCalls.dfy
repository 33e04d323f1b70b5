/** What the calls of the synchronized pool come to: every call is carried out once, with the result it would
    have in the sequential run, and no slot is lost. */
module SyncPoolCalls {
  import opened PoolModel
  import opened SyncPool

  // ---------- Calls and commits, thread by thread ----------

  function Asked(t: nat, called: seq<Request>): seq<Call> {
    var n := |called|;
    if n == 0 then [] else Asked(t, called[..n - 1]) + (if called[n - 1].thread == t then [called[n - 1].call] else [])
  }

  function Ended(t: nat, done: seq<Done>): seq<Call> {
    var n := |done|;
    if n == 0 then [] else Ended(t, done[..n - 1]) + (if done[n - 1].thread == t then [done[n - 1].call] else [])
  }

  /** The call a thread is in. */
  function Open(pc: Pc): seq<Call> {
    match pc
    case Idle => []
    case WantGive(q) => [Giving(q)]
    case GiveStart(q) => [Giving(q)]
    case GiveHead(q) => [Giving(q)]
    case GiveCount(q) => [Giving(q)]
    case GiveUnlock(q) => [Giving(q)]
    case _ => [Taking]
  }

  /** Every call of the thread has ended, once and in order, but the one under way. */
  ghost predicate CallsEnd(t: nat, pc: Pc, called: seq<Request>, done: seq<Done>) {
    Asked(t, called) == Ended(t, done) + Open(pc)
  }

  ghost predicate Accounted(s: State) {
    forall t :: 0 <= t < |s.threads| ==> CallsEnd(t, s.threads[t], s.called, s.done)
  }

  lemma AskedGrows(t: nat, called: seq<Request>, r: Request)
    ensures Asked(t, called + [r]) == Asked(t, called) + (if r.thread == t then [r.call] else [])
  {
    assert (called + [r])[..|called|] == called;
  }

  lemma EndedGrows(t: nat, done: seq<Done>, d: Done)
    ensures Ended(t, done + [d]) == Ended(t, done) + (if d.thread == t then [d.call] else [])
  {
    assert (done + [d])[..|done|] == done;
  }

  /** What a step adds to the histories, and where the thread then is. */
  datatype Trace = Begins(call: Call) | Ends(call: Call, slot: Address) | Stays

  function TraceOf(s: State, t: nat, a: Action): Trace
    requires t < |s.threads|
  {
    var pc := s.threads[t];
    match a
    case BeginTake => Begins(Taking)
    case BeginGive(q) => Begins(Giving(q))
    case Continue(_, _) =>
      if pc.TakeUnlock? then Ends(Taking, pc.q) else if pc.GiveUnlock? then Ends(Giving(pc.q), pc.q) else Stays
    case _ => Stays
  }

  lemma StepTraced(l: Layout, s: State, t: nat, a: Action)
    requires Enabled(l, s, t, a)
    ensures var s', e, pc := Step(l, s, t, a), TraceOf(s, t, a), s.threads[t];
            && s'.called == s.called + (if e.Begins? then [Request(t, e.call)] else [])
            && s'.done == s.done + (if e.Ends? then [Done(t, e.call, e.slot)] else [])
            && |s'.threads| == |s.threads| && (forall u :: 0 <= u < |s.threads| && u != t ==> s'.threads[u] == s.threads[u])
            && Open(s'.threads[t]) == (if e.Begins? then [e.call] else if e.Ends? then [] else Open(pc))
            && (e.Begins? ==> Open(pc) == []) && (e.Ends? ==> Open(pc) == [e.call])
  {
  }

  lemma StepKeepsAccounted(l: Layout, s: State, t: nat, a: Action)
    requires Accounted(s) && Enabled(l, s, t, a)
    ensures Accounted(Step(l, s, t, a))
  {
    var s', e := Step(l, s, t, a), TraceOf(s, t, a);
    StepTraced(l, s, t, a);
    forall u | 0 <= u < |s'.threads| ensures CallsEnd(u, s'.threads[u], s'.called, s'.done) {
      assert CallsEnd(u, s.threads[u], s.called, s.done);
      TraceKeeps(u, t, e, s.threads[u], s'.threads[u], s.called, s.done);
    }
  }

  lemma TraceKeeps(u: nat, t: nat, e: Trace, pc: Pc, pc': Pc, called: seq<Request>, done: seq<Done>)
    requires CallsEnd(u, pc, called, done)
    requires u != t ==> pc' == pc
    requires u == t ==> Open(pc') == (if e.Begins? then [e.call] else if e.Ends? then [] else Open(pc))
    requires u == t ==> (e.Begins? ==> Open(pc) == []) && (e.Ends? ==> Open(pc) == [e.call])
    ensures CallsEnd(u, pc', called + (if e.Begins? then [Request(t, e.call)] else []),
                     done + (if e.Ends? then [Done(t, e.call, e.slot)] else []))
  {
    assert called + [] == called && done + [] == done;
    if e.Begins? {
      AskedGrows(u, called, Request(t, e.call));
    } else if e.Ends? {
      EndedGrows(u, done, Done(t, e.call, e.slot));
    }
  }

  // ---------- The results are those of the sequential run ----------

  /** The calls of a sequential run and the slots they return or free. */
  ghost function Results(l: Layout, w: World, ops: seq<Op>): seq<(Call, Address)>
    decreases |ops|
  {
    if ops == [] then [] else Result(l, w, ops[0]) + Results(l, Do(l, w, ops[0]), ops[1..])
  }

  ghost function Result(l: Layout, w: World, op: Op): seq<(Call, Address)> {
    match op
    case Take(base, contents) => [(Taking, Allocate(l, w.pool, base, contents).1)]
    case Give(q) => [(Giving(q), q)]
    case Store(_, _, _) => []
    case Clear => []
  }

  function Outcomes(done: seq<Done>): seq<(Call, Address)> {
    seq(|done|, i requires 0 <= i < |done| => (done[i].call, done[i].slot))
  }

  lemma {:induction false} ResultsGrow(l: Layout, start: World, log: seq<Op>, w: World, op: Op)
    requires Reaches(l, start, log, w)
    ensures Results(l, start, log + [op]) == Results(l, start, log) + Result(l, w, op)
    decreases |log|
  {
    if log == [] {
      assert log + [op] == [op] && [op][1..] == [];
    } else {
      assert (log + [op])[1..] == log[1..] + [op];
      ResultsGrow(l, Do(l, start, log[0]), log[1..], w, op);
    }
  }

  ghost predicate Matched(l: Layout, start: World, s: State) { Results(l, start, s.log) == Outcomes(s.done) }

  lemma OutcomesGrow(done: seq<Done>, d: Done)
    ensures Outcomes(done + [d]) == Outcomes(done) + [(d.call, d.slot)]
  {
  }

  lemma StepKeepsMatched(l: Layout, start: World, s: State, t: nat, a: Action)
    requires SysOk(l, start, s) && Matched(l, start, s) && Enabled(l, s, t, a)
    ensures Matched(l, start, Step(l, s, t, a))
  {
    var pc := s.threads[t];
    if a.ClientStore? {
      ResultsGrow(l, start, s.log, s.world, Store(a.q, a.at, a.v));
    } else if a.Continue? && pc.TakeUnlock? {
      ResultsGrow(l, start, s.log, s.world, Take(pc.r, pc.c));
      OutcomesGrow(s.done, Done(t, Taking, pc.q));
    } else if a.Continue? && pc.GiveUnlock? {
      ResultsGrow(l, start, s.log, s.world, Give(pc.q));
      OutcomesGrow(s.done, Done(t, Giving(pc.q), pc.q));
    }
  }

  // ---------- No slot is lost ----------

  lemma SlotIsPositive(l: Layout, w: World, q: Address)
    requires WorldOk(l, w) && q in w.shape.live
    ensures q > 0
  {
    assert q in Slots(w.shape);
    assert Placed(l, w.pool, w.shape, q);
  }

  lemma LiveIsPositive(l: Layout, w: World)
    requires WorldOk(l, w)
    ensures 0 !in w.shape.live
  {
    forall q | q in w.shape.live ensures q > 0 {
      SlotIsPositive(l, w, q);
    }
  }

  /** The slots a step takes from a thread and gives to it. */
  ghost function Lost(s: State, t: nat, a: Action, u: nat): set<Address>
    requires t < |s.threads|
  {
    if u != t then {}
    else match a
      case HandOver(_, q) => {q}
      case Continue(_, _) => if s.threads[t].GiveUnlock? then Carried(s.threads[t]) else {}
      case _ => {}
  }

  ghost function Won(s: State, t: nat, a: Action, u: nat): set<Address>
    requires t < |s.threads|
  {
    match a
    case HandOver(v, q) => if u == v then {q} else {}
    case Continue(_, _) => if u == t && s.threads[t].TakeUnlock? then {s.threads[t].q} else {}
    case _ => {}
  }

  lemma StepOwned(l: Layout, s: State, t: nat, a: Action, u: nat)
    requires InStep(l, s) && Separate(s) && 0 !in s.world.shape.live && Enabled(l, s, t, a) && u < |s.threads|
    ensures var s' := Step(l, s, t, a);
            |s'.threads| == |s'.held| == |s.threads| && Owned(s', u) == Owned(s, u) - Lost(s, t, a, u) + Won(s, t, a, u)
  {
    assert Owned(s, t) <= s.world.shape.live;
    if a.Continue? && IsInner(s.threads[t]) {
      InnerFollows(l, s.world, s.pool, s.threads[t], a.r, a.c);
    }
  }

  lemma StepLive(l: Layout, s: State, t: nat, a: Action)
    requires InStep(l, s) && WorldOk(l, s.world) && Enabled(l, s, t, a)
    ensures var pc, live, live' := s.threads[t], s.world.shape.live, Step(l, s, t, a).world.shape.live;
            if a.Continue? && pc.TakeUnlock? then pc.q !in live && live' == live + {pc.q}
            else if a.Continue? && pc.GiveUnlock? then live' == live - Carried(pc)
            else live' == live
  {
    var pc := s.threads[t];
    if a.Continue? && pc.TakeUnlock? {
      TakeAddsOne(l, s.world, pc.r, pc.c);
    }
  }

  ghost predicate OwnedBySome(s: State, q: Address)
    requires |s.held| == |s.threads|
  {
    exists t :: 0 <= t < |s.threads| && q in Owned(s, t)
  }

  /** The live slots are those that were live at the start and the ones threads own, and no others. */
  ghost predicate Kept(start: World, s: State) {
    && |s.held| == |s.threads|
    && start.shape.live <= s.world.shape.live
    && (forall q :: q in s.world.shape.live ==> q in start.shape.live || OwnedBySome(s, q))
    && (forall t :: 0 <= t < |s.threads| ==> Owned(s, t) !! start.shape.live)
  }

  /** Who owns a slot after a step, if it is still live. */
  lemma OwnerAfter(l: Layout, s: State, t: nat, a: Action, q: Address)
    requires InStep(l, s) && Separate(s) && WorldOk(l, s.world) && Enabled(l, s, t, a)
    requires OwnedBySome(s, q) && q in Step(l, s, t, a).world.shape.live
    ensures var s' := Step(l, s, t, a); |s'.held| == |s'.threads| && OwnedBySome(s', q)
  {
    LiveIsPositive(l, s.world);
    StepLive(l, s, t, a);
    var u :| 0 <= u < |s.threads| && q in Owned(s, u);
    StepOwned(l, s, t, a, u);
    if q in Lost(s, t, a, u) {
      if a.HandOver? {
        StepOwned(l, s, t, a, a.u);
        assert q in Owned(Step(l, s, t, a), a.u);
      } else {
        assert false;
      }
    } else {
      assert q in Owned(Step(l, s, t, a), u);
    }
  }

  lemma OwnedStaysApart(l: Layout, start: World, s: State, t: nat, a: Action, u: nat)
    requires SysOk(l, start, s) && Kept(start, s) && Enabled(l, s, t, a) && u < |s.threads|
    ensures var s' := Step(l, s, t, a); |s'.threads| == |s'.held| == |s.threads| && Owned(s', u) !! start.shape.live
  {
    LiveIsPositive(l, s.world);
    StepOwned(l, s, t, a, u);
    StepLive(l, s, t, a);
    assert Owned(s, u) !! start.shape.live && Owned(s, t) !! start.shape.live;
  }

  lemma LiveStaysOwned(l: Layout, start: World, s: State, t: nat, a: Action, q: Address)
    requires SysOk(l, start, s) && Kept(start, s) && Enabled(l, s, t, a)
    requires q in Step(l, s, t, a).world.shape.live && q !in start.shape.live
    ensures var s' := Step(l, s, t, a); |s'.threads| == |s'.held| && OwnedBySome(s', q)
  {
    if q in s.world.shape.live {
      OwnerAfter(l, s, t, a, q);
    } else {
      LiveIsPositive(l, s.world);
      StepLive(l, s, t, a);
      StepOwned(l, s, t, a, t);
      assert q in Owned(Step(l, s, t, a), t);
    }
  }

  lemma StartStaysLive(l: Layout, start: World, s: State, t: nat, a: Action)
    requires SysOk(l, start, s) && Kept(start, s) && Enabled(l, s, t, a)
    ensures start.shape.live <= Step(l, s, t, a).world.shape.live
  {
    StepLive(l, s, t, a);
    assert Carried(s.threads[t]) <= Owned(s, t) && Owned(s, t) !! start.shape.live;
  }

  lemma StepKeepsKept(l: Layout, start: World, s: State, t: nat, a: Action)
    requires SysOk(l, start, s) && Kept(start, s) && Enabled(l, s, t, a)
    ensures Kept(start, Step(l, s, t, a))
  {
    var s' := Step(l, s, t, a);
    StartStaysLive(l, start, s, t, a);
    OwnedStaysApart(l, start, s, t, a, t);
    forall u | 0 <= u < |s'.threads| ensures Owned(s', u) !! start.shape.live {
      OwnedStaysApart(l, start, s, t, a, u);
    }
    forall q | q in s'.world.shape.live && q !in start.shape.live ensures OwnedBySome(s', q) {
      LiveStaysOwned(l, start, s, t, a, q);
    }
  }

  // ---------- Every interleaving ----------

  ghost predicate CallsOk(l: Layout, start: World, s: State) {
    SysOk(l, start, s) && Accounted(s) && Matched(l, start, s) && Kept(start, s)
  }

  lemma {:induction false} RunKeepsCalls(l: Layout, start: World, s: State, schedule: seq<(nat, Action)>)
    requires CallsOk(l, start, s)
    ensures CallsOk(l, start, Run(l, s, schedule))
    decreases |schedule|
  {
    if schedule != [] {
      var (t, a) := schedule[0];
      if Enabled(l, s, t, a) {
        StepKeepsSys(l, start, s, t, a);
        StepKeepsAccounted(l, s, t, a);
        StepKeepsMatched(l, start, s, t, a);
        StepKeepsKept(l, start, s, t, a);
        RunKeepsCalls(l, start, Step(l, s, t, a), schedule[1..]);
      } else {
        RunKeepsCalls(l, start, s, schedule[1..]);
      }
    }
  }

  /** In every interleaving each thread's calls are carried out once and in order, but for the one under way;
      each with the slot that the sequential run of the committed operations gives it; and the live slots are
      exactly those live at the start and those that threads hold or are giving back. */
  lemma CallsAreCarriedOut(l: Layout, start: World, n: nat, schedule: seq<(nat, Action)>)
    requires WorldOk(l, start)
    ensures var s := Run(l, Initial(n, start), schedule);
            && |s.threads| == |s.held| == n
            && (forall t :: 0 <= t < n ==> CallsEnd(t, s.threads[t], s.called, s.done))
            && Results(l, start, s.log) == Outcomes(s.done)
            && (forall q :: q in s.world.shape.live <==> q in start.shape.live || OwnedBySome(s, q))
  {
    InitialCalls(l, start, n);
    RunKeepsCalls(l, start, Initial(n, start), schedule);
    RunThreads(l, Initial(n, start), schedule);
    LiveIsOwned(start, Run(l, Initial(n, start), schedule));
  }

  lemma InitialCalls(l: Layout, start: World, n: nat)
    requires WorldOk(l, start)
    ensures CallsOk(l, start, Initial(n, start))
  {
    RunOk(l, start, n, []);
    assert Run(l, Initial(n, start), []) == Initial(n, start);
  }

  lemma LiveIsOwned(start: World, s: State)
    requires Separate(s) && Kept(start, s)
    ensures forall q :: q in s.world.shape.live <==> q in start.shape.live || OwnedBySome(s, q)
  {
    forall q | OwnedBySome(s, q) ensures q in s.world.shape.live {
      var t :| 0 <= t < |s.threads| && q in Owned(s, t);
      assert Owned(s, t) <= s.world.shape.live;
    }
  }

  /** Steps a call has still to take once the lock is free. */
  function Rank(pc: Pc): nat {
    match pc
    case Idle => 0
    case WantTake => 7
    case WantGive(_) => 5
    case TakeStart => 6
    case TakePop(_) => 3
    case TakeBump(_) => 3
    case TakeLink(_, _) => 5
    case TakeSwitch(_, _) => 4
    case TakeFirst(_, _) => 3
    case TakeCount(_, _, _) => 2
    case TakeUnlock(_, _, _) => 1
    case GiveStart(_) => 4
    case GiveHead(_) => 3
    case GiveCount(_) => 2
    case GiveUnlock(_) => 1
  }

  /** Every step of a call leads nearer to its end, unless the lock is taken. */
  lemma StepAdvances(l: Layout, s: State, t: nat, r: Address, c: Memory)
    requires Enabled(l, s, t, Continue(r, c))
    ensures Rank(Step(l, s, t, Continue(r, c)).threads[t]) < Rank(s.threads[t])
            || (s.lock != 0 && (s.threads[t].WantTake? || s.threads[t].WantGive?))
  {
  }

  // ---------- Calls on their own ----------

  /** Thread `t` goes on for up to `k` steps, undisturbed. */
  ghost function Finish(l: Layout, s: State, t: nat, r: Address, c: Memory, k: nat): State
    decreases k
  {
    if k == 0 || !Enabled(l, s, t, Continue(r, c)) then s
    else Finish(l, Step(l, s, t, Continue(r, c)), t, r, c, k - 1)
  }

  /** The lock is free, and `t` is in no call. */
  ghost predicate Ready(l: Layout, start: World, s: State, t: nat) {
    SysOk(l, start, s) && t < |s.threads| && s.threads[t].Idle? && s.lock == 0
  }

  /** The region a thread uses is the one at hand, if it needs one. */
  predicate Uses(l: Layout, p: Pool, pc: Pc, r: Address, c: Memory) {
    match pc
    case TakeLink(r0, c0) => r0 == r && c0 == c
    case TakeSwitch(r0, c0) => r0 == r && c0 == c
    case TakeFirst(r0, c0) => r0 == r && c0 == c
    case TakeCount(_, r0, c0) => NeedsRegion(l, p) ==> r0 == r && c0 == c
    case TakeUnlock(_, r0, c0) => NeedsRegion(l, p) ==> r0 == r && c0 == c
    case _ => true
  }

  lemma InnerUses(l: Layout, w: World, p: Pool, pc: Pc, r: Address, c: Memory)
    requires IsInner(pc) && p == Midway(l, w.pool, pc) && OnPath(l, w, pc) && Uses(l, w.pool, pc, r, c)
    ensures var pc' := Inner(l, p, pc, r, c).0;
            Uses(l, w.pool, pc', r, c) && Open(pc') == Open(pc) && Critical(pc') && Rank(pc') < Rank(pc)
  {
  }

  lemma InnerStep(l: Layout, start: World, s: State, t: nat, r: Address, c: Memory)
    requires SysOk(l, start, s) && Enabled(l, s, t, Continue(r, c)) && IsInner(s.threads[t])
    requires Uses(l, s.world.pool, s.threads[t], r, c)
    ensures var s', pc := Step(l, s, t, Continue(r, c)), s.threads[t];
            && SysOk(l, start, s') && t < |s'.threads| == |s.threads| && Critical(s'.threads[t])
            && Uses(l, s.world.pool, s'.threads[t], r, c) && Open(s'.threads[t]) == Open(pc)
            && Rank(s'.threads[t]) < Rank(pc) && !s'.threads[t].TakeStart?
            && s'.threads[t := Idle] == s.threads[t := Idle]
            && s'.lock == s.lock && s'.world == s.world && s'.held == s.held && s'.called == s.called && s'.done == s.done
  {
    StepKeepsSys(l, start, s, t, Continue(r, c));
    InnerUses(l, s.world, s.pool, s.threads[t], r, c);
  }

  /** A call that has got the lock, on its own: the pool, the slots of the thread and the call ended. */
  ghost predicate Finished(l: Layout, s: State, s': State, t: nat, call: Call, p: Pool, q: Address, held: set<Address>)
    requires t < |s.threads| && t < |s.held|
  {
    && s'.pool == p && s'.lock == s.lock - 1 && s'.threads == s.threads[t := Idle] && s'.held == s.held[t := held]
    && s'.called == s.called && s'.done == s.done + [Done(t, call, q)]
  }

  lemma FinishedFrom(l: Layout, s: State, s1: State, s': State, t: nat, call: Call, p: Pool, q: Address, held: set<Address>)
    requires t < |s.threads| == |s1.threads| && t < |s.held| && s1.threads[t := Idle] == s.threads[t := Idle]
    requires s1.lock == s.lock && s1.held == s.held && s1.called == s.called && s1.done == s.done
    requires Finished(l, s1, s', t, call, p, q, held)
    ensures Finished(l, s, s', t, call, p, q, held)
  {
  }

  lemma TakeEnds(l: Layout, start: World, s: State, t: nat, r: Address, c: Memory)
    requires SysOk(l, start, s) && t < |s.threads| && s.threads[t].TakeUnlock? && Uses(l, s.world.pool, s.threads[t], r, c)
    ensures var (p, q) := Allocate(l, s.world.pool, r, c);
            Finished(l, s, Step(l, s, t, Continue(r, c)), t, Taking, p, q, s.held[t] + {q})
  {
  }

  lemma GiveEnds(l: Layout, start: World, s: State, t: nat, r: Address, c: Memory)
    requires SysOk(l, start, s) && t < |s.threads| && s.threads[t].GiveUnlock?
    ensures var q := s.threads[t].q;
            Finished(l, s, Step(l, s, t, Continue(r, c)), t, Giving(q), Free(s.world.pool, q), q, s.held[t])
  {
    assert s.held[t := s.held[t]] == s.held;
  }

  /** A thread in no call does not go on by itself. */
  lemma IdleStays(l: Layout, s: State, t: nat, r: Address, c: Memory, k: nat)
    requires t < |s.threads| && s.threads[t].Idle?
    ensures Finish(l, s, t, r, c, k) == s
  {
  }

  lemma {:induction false} TakeFinishes(l: Layout, start: World, s: State, t: nat, r: Address, c: Memory, k: nat, p: Pool, q: Address)
    requires SysOk(l, start, s) && t < |s.threads| && Critical(s.threads[t]) && Open(s.threads[t]) == [Taking]
    requires Uses(l, s.world.pool, s.threads[t], r, c) && Rank(s.threads[t]) <= k
    requires Enabled(l, s, t, Continue(r, c)) && Allocate(l, s.world.pool, r, c) == (p, q)
    ensures Finished(l, s, Finish(l, s, t, r, c, k), t, Taking, p, q, s.held[t] + {q})
    decreases k
  {
    var s1 := Step(l, s, t, Continue(r, c));
    if s.threads[t].TakeUnlock? {
      TakeEnds(l, start, s, t, r, c);
      IdleStays(l, s1, t, r, c, k - 1);
    } else {
      InnerStep(l, start, s, t, r, c);
      TakeFinishes(l, start, s1, t, r, c, k - 1, p, q);
      FinishedFrom(l, s, s1, Finish(l, s1, t, r, c, k - 1), t, Taking, p, q, s.held[t] + {q});
    }
  }

  lemma {:induction false} GiveFinishes(l: Layout, start: World, s: State, t: nat, q: Address, r: Address, c: Memory, k: nat)
    requires SysOk(l, start, s) && t < |s.threads| && Critical(s.threads[t]) && Open(s.threads[t]) == [Giving(q)]
    requires Rank(s.threads[t]) <= k
    ensures Finished(l, s, Finish(l, s, t, r, c, k), t, Giving(q), Free(s.world.pool, q), q, s.held[t])
    decreases k
  {
    var s1 := Step(l, s, t, Continue(r, c));
    assert Finish(l, s, t, r, c, k) == Finish(l, s1, t, r, c, k - 1);
    if s.threads[t].GiveUnlock? {
      GiveEnds(l, start, s, t, r, c);
      IdleStays(l, s1, t, r, c, k - 1);
    } else {
      InnerStep(l, start, s, t, r, c);
      GiveFinishes(l, start, s1, t, q, r, c, k - 1);
      FinishedFrom(l, s, s1, Finish(l, s1, t, r, c, k - 1), t, Giving(q), Free(s.world.pool, q), q, s.held[t]);
    }
  }

  /** A thread that wants the free lock takes it. */
  lemma GetsLock(l: Layout, start: World, s1: State, t: nat, r: Address, c: Memory) returns (s2: State)
    requires SysOk(l, start, s1) && t < |s1.threads| && s1.lock == 0 && (s1.threads[t].WantTake? || s1.threads[t].WantGive?)
    ensures SysOk(l, start, s2) && Finish(l, s1, t, r, c, 7) == Finish(l, s2, t, r, c, 6)
    ensures var pc := s1.threads[t];
            s2 == s1.(lock := 1, threads := s1.threads[t := if pc.WantTake? then TakeStart else GiveStart(pc.q)])
  {
    s2 := Step(l, s1, t, Continue(r, c));
    StepKeepsSys(l, start, s1, t, Continue(r, c));
  }

  /** The state with a call of `t` begun and the lock taken. */
  ghost function Begun(s: State, t: nat, call: Call, pc: Pc, held: set<Address>): State
    requires t < |s.threads| && t < |s.held|
  {
    s.(lock := 1, threads := s.threads[t := pc], held := s.held[t := held], called := s.called + [Request(t, call)])
  }

  lemma TakeBegins(l: Layout, start: World, s: State, t: nat, r: Address, c: Memory)
    requires Ready(l, start, s, t)
    ensures var s2 := Begun(s, t, Taking, TakeStart, s.held[t]);
            && SysOk(l, start, s2) && s2.world.pool == s.pool
            && Finish(l, Step(l, s, t, BeginTake), t, r, c, 7) == Finish(l, s2, t, r, c, 6)
  {
    StepKeepsSys(l, start, s, t, BeginTake);
    var s2 := GetsLock(l, start, Step(l, s, t, BeginTake), t, r, c);
    assert s.held[t := s.held[t]] == s.held;
    assert s2.threads == s.threads[t := TakeStart];
  }

  lemma GiveBegins(l: Layout, start: World, s: State, t: nat, q: Address, r: Address, c: Memory)
    requires Ready(l, start, s, t) && (q == 0 || q in s.held[t])
    ensures var s2 := Begun(s, t, Giving(q), GiveStart(q), s.held[t] - {q});
            && SysOk(l, start, s2) && s2.world.pool == s.pool
            && Finish(l, Step(l, s, t, BeginGive(q)), t, r, c, 7) == Finish(l, s2, t, r, c, 6)
  {
    StepKeepsSys(l, start, s, t, BeginGive(q));
    var s2 := GetsLock(l, start, Step(l, s, t, BeginGive(q)), t, r, c);
    assert s2.threads == s.threads[t := GiveStart(q)];
  }

  /** What a call of `t` that nobody disturbs leaves: the pool, its slots, and the call begun and ended. */
  ghost predicate Completed(s: State, s': State, t: nat, call: Call, p: Pool, q: Address, held: set<Address>)
    requires t < |s.threads| && t < |s.held|
  {
    && s'.pool == p && s'.lock == 0 && s'.threads == s.threads && s'.held == s.held[t := held]
    && s'.called == s.called + [Request(t, call)] && s'.done == s.done + [Done(t, call, q)]
  }

  lemma BegunFinished(l: Layout, s: State, s': State, t: nat, call: Call, pc: Pc, h: set<Address>, p: Pool, q: Address,
                      held: set<Address>)
    requires t < |s.threads| && t < |s.held| && s.threads[t].Idle?
    requires Finished(l, Begun(s, t, call, pc, h), s', t, call, p, q, held)
    ensures Completed(s, s', t, call, p, q, held)
  {
    assert s.threads[t := pc][t := Idle] == s.threads;
  }

  /** A call of allocate that nobody disturbs does to the pool what the plain pool does, and the thread has the
      slot. */
  lemma TakeAlone(l: Layout, start: World, s: State, t: nat, r: Address, c: Memory)
    requires Ready(l, start, s, t) && (NeedsRegion(l, s.pool) ==> FreshRegion(l, s.world.shape, r, c))
    ensures var (p, q) := Allocate(l, s.pool, r, c);
            Completed(s, Finish(l, Step(l, s, t, BeginTake), t, r, c, 7), t, Taking, p, q, s.held[t] + {q})
  {
    var s2 := Begun(s, t, Taking, TakeStart, s.held[t]);
    var (p, q) := Allocate(l, s.pool, r, c);
    TakeBegins(l, start, s, t, r, c);
    TakeFinishes(l, start, s2, t, r, c, 6, p, q);
    BegunFinished(l, s, Finish(l, s2, t, r, c, 6), t, Taking, TakeStart, s.held[t], p, q, s.held[t] + {q});
  }

  /** So does a call of free, and the thread no longer has the slot. */
  lemma GiveAlone(l: Layout, start: World, s: State, t: nat, q: Address, r: Address, c: Memory)
    requires Ready(l, start, s, t) && (q == 0 || q in s.held[t])
    ensures Completed(s, Finish(l, Step(l, s, t, BeginGive(q)), t, r, c, 7), t, Giving(q), Free(s.pool, q), q, s.held[t] - {q})
  {
    var held := s.held[t] - {q};
    var s2 := Begun(s, t, Giving(q), GiveStart(q), held);
    GiveBegins(l, start, s, t, q, r, c);
    GiveFinishes(l, start, s2, t, q, r, c, 6);
    BegunFinished(l, s, Finish(l, s2, t, r, c, 6), t, Giving(q), GiveStart(q), held, Free(s.pool, q), q, held);
  }
}
