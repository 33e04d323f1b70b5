/** `Condition` on Windows: a flag under a critical section, and waits that sleep on a condition variable
    and test the flag again whenever they wake.

    A sleeping thread may wake at any time: because it was signalled, because its time is up, or for no
    reason.  Entering and leaving the critical section are steps of their own. */
module ConditionVariable {

  /** The timeout of a wait. */
  datatype Limit = Forever | For(ms: nat)

  datatype Call = Set | Pulse | Reset | Wait(limit: Limit)

  /** What a call came to; `slept` is the time a wait has slept in all. */
  datatype Outcome = SetDone | PulseDone | ResetDone | WaitDone(limit: Limit, slept: nat, success: bool)

  /** A wait under way: what is left of its timeout, and the time slept so far. */
  datatype Timer = Timer(limit: Limit, left: nat, slept: nat)

  datatype Pc =
    | Idle
    | Enter(call: Call)        // before EnterCriticalSection
    | Inside(call: Call)       // inside, before the body
    | Sleeping(timer: Timer)   // in SleepConditionVariableCS, outside
    | Waking(timer: Timer)     // woken, about to re-enter
    | Check(timer: Timer)      // inside again, before the loop test
    | Leaving(outcome: Outcome) // before LeaveCriticalSection

  /** A call begun by a thread, and a call decided or ended. */
  datatype Request = Request(thread: nat, call: Call)
  datatype Entry = Entry(thread: nat, outcome: Outcome)

  /** `called`, `log` and `returned` are history: calls begun, calls that have done their work on the flag,
      and calls that have returned, each in order. */
  datatype State = State(
    isSet: bool, inside: set<nat>, threads: seq<Pc>,
    called: seq<Request>, log: seq<Entry>, returned: seq<Entry>)

  datatype Action = Begin(call: Call) | Wake(elapsed: nat) | Continue

  predicate Holds(pc: Pc) { pc.Inside? || pc.Check? || pc.Leaving? }

  /** `inside` is the owner of the critical section, if any. */
  predicate Enabled(s: State, t: nat, a: Action) {
    && t < |s.threads|
    && match a
       case Begin(_) => s.threads[t].Idle?
       case Wake(_) => s.threads[t].Sleeping?
       case Continue => Holds(s.threads[t]) || ((s.threads[t].Enter? || s.threads[t].Waking?) && s.inside == {})
  }

  function Min(a: nat, b: nat): nat { if a < b then a else b }

  function Started(limit: Limit): Timer { Timer(limit, if limit.For? then limit.ms else 0, 0) }

  /** After a sleep: `timeout -= std::min(elapsed, timeout)`. */
  function Slept(timer: Timer, elapsed: nat): Timer {
    Timer(timer.limit, timer.left - Min(elapsed, timer.left), timer.slept + elapsed)
  }

  /** What a step does: it begins a call; moves on within it; does its work on the flag, with an outcome and
      the flag it leaves; or returns from it. */
  datatype Effect = Begins(call: Call) | Moves(pc: Pc) | Decides(outcome: Outcome, flag: bool) | Returns(outcome: Outcome)

  /** The body of a call, up to its decision or its first sleep. */
  function Body(broadcast: bool, isSet: bool, call: Call): Effect {
    match call
    case Set => Decides(SetDone, true)
    case Pulse => Decides(PulseDone, false)
    case Reset => Decides(ResetDone, false)
    case Wait(limit) =>
      if isSet then Decides(WaitDone(limit, 0, true), broadcast) else Moves(Sleeping(Started(limit)))
  }

  /** The test after a sleep. */
  function Test(broadcast: bool, isSet: bool, timer: Timer): Effect {
    if !isSet && (timer.limit.Forever? || timer.left > 0) then Moves(Sleeping(timer))
    else Decides(WaitDone(timer.limit, timer.slept, isSet), isSet && broadcast)
  }

  function EffectOf(broadcast: bool, s: State, t: nat, a: Action): Effect
    requires Enabled(s, t, a)
  {
    match a
    case Begin(call) => Begins(call)
    case Wake(elapsed) => Moves(Waking(Slept(s.threads[t].timer, elapsed)))
    case Continue =>
      match s.threads[t]
      case Enter(call) => Moves(Inside(call))
      case Waking(timer) => Moves(Check(timer))
      case Inside(call) => Body(broadcast, s.isSet, call)
      case Check(timer) => Test(broadcast, s.isSet, timer)
      case Leaving(outcome) => Returns(outcome)
  }

  /** The state after an effect of thread `t`; it holds the critical section exactly while it is inside. */
  function Apply(s: State, t: nat, e: Effect): State
    requires t < |s.threads|
  {
    match e
    case Begins(call) => s.(threads := s.threads[t := Enter(call)], called := s.called + [Request(t, call)])
    case Moves(pc) => s.(threads := s.threads[t := pc], inside := if Holds(pc) then {t} else s.inside - {t})
    case Decides(outcome, flag) =>
      s.(isSet := flag, threads := s.threads[t := Leaving(outcome)], log := s.log + [Entry(t, outcome)])
    case Returns(outcome) =>
      s.(inside := s.inside - {t}, threads := s.threads[t := Idle], returned := s.returned + [Entry(t, outcome)])
  }

  function Step(broadcast: bool, s: State, t: nat, a: Action): State
    requires Enabled(s, t, a)
  {
    Apply(s, t, EffectOf(broadcast, s, t, a))
  }

  function Initial(n: nat): State { State(false, {}, seq(n, _ => Idle), [], [], []) }

  function Run(broadcast: bool, s: State, schedule: seq<(nat, Action)>): State
    decreases |schedule|
  {
    if schedule == [] then s
    else
      var (t, a) := schedule[0];
      Run(broadcast, if Enabled(s, t, a) then Step(broadcast, s, t, a) else s, schedule[1..])
  }

  // ---------- The condition as a sequential object ----------

  /** The flag a call leaves: a set sets it, pulse and reset clear it, and so does a wait unless the condition
      is broadcast. */
  function FlagAfter(broadcast: bool, flag: bool, outcome: Outcome): bool {
    match outcome
    case SetDone => true
    case PulseDone => false
    case ResetDone => false
    case WaitDone(_, _, _) => broadcast && flag
  }

  /** The flag after calls made one after the other. */
  function Flag(broadcast: bool, log: seq<Entry>): bool {
    var n := |log|;
    n > 0 && FlagAfter(broadcast, Flag(broadcast, log[..n - 1]), log[n - 1].outcome)
  }

  /** What is promised of the outcome of a call that finds the flag so: a wait succeeds exactly on a set
      flag, and fails only after it has slept its whole timeout. */
  predicate Proper(flag: bool, outcome: Outcome) {
    outcome.WaitDone? ==>
      && (outcome.success <==> flag)
      && (!outcome.success ==> outcome.limit.For? && outcome.slept >= outcome.limit.ms)
  }

  ghost predicate Legal(broadcast: bool, log: seq<Entry>) {
    var n := |log|;
    n == 0 || (Legal(broadcast, log[..n - 1]) && Proper(Flag(broadcast, log[..n - 1]), log[n - 1].outcome))
  }

  lemma FlagGrows(broadcast: bool, log: seq<Entry>, e: Entry)
    ensures Flag(broadcast, log + [e]) == FlagAfter(broadcast, Flag(broadcast, log), e.outcome)
    ensures Legal(broadcast, log) && Proper(Flag(broadcast, log), e.outcome) ==> Legal(broadcast, log + [e])
  {
    assert (log + [e])[..|log|] == log;
  }

  /** The call at `i` is a set, and nothing has cancelled it since. */
  ghost predicate Pending(broadcast: bool, log: seq<Entry>, i: nat) {
    && i < |log| && log[i].outcome.SetDone?
    && forall k :: i < k < |log| ==> log[k].outcome.SetDone? || (broadcast && log[k].outcome.WaitDone?)
  }

  /** The flag says whether there is a set that no pulse, no reset and, unless broadcast, no wait came after. */
  lemma {:induction false} FlagIsPending(broadcast: bool, log: seq<Entry>)
    ensures Flag(broadcast, log) <==> exists i :: Pending(broadcast, log, i)
    decreases |log|
  {
    var n := |log|;
    if n > 0 {
      var before := log[..n - 1];
      FlagIsPending(broadcast, before);
      if log[n - 1].outcome.SetDone? {
        assert Pending(broadcast, log, n - 1);
      } else {
        forall i ensures Pending(broadcast, log, i) <==> broadcast && log[n - 1].outcome.WaitDone? && Pending(broadcast, before, i) {
          PendingBefore(broadcast, log, i);
        }
      }
    }
  }

  lemma PendingBefore(broadcast: bool, log: seq<Entry>, i: nat)
    requires log != [] && !log[|log| - 1].outcome.SetDone?
    ensures Pending(broadcast, log, i) <==>
            broadcast && log[|log| - 1].outcome.WaitDone? && Pending(broadcast, log[..|log| - 1], i)
  {
    var before := log[..|log| - 1];
    assert forall k :: 0 <= k < |before| ==> before[k] == log[k];
  }

  // ---------- Sets and waits balance ----------

  function One(b: bool): nat { if b then 1 else 0 }

  function Sets(log: seq<Entry>): nat {
    var n := |log|;
    if n == 0 then 0 else Sets(log[..n - 1]) + One(log[n - 1].outcome.SetDone?)
  }

  function Successes(log: seq<Entry>): nat {
    var n := |log|;
    if n == 0 then 0 else Successes(log[..n - 1]) + One(log[n - 1].outcome.WaitDone? && log[n - 1].outcome.success)
  }

  /** Sets that found the flag set already. */
  function Merged(log: seq<Entry>): nat {
    var n := |log|;
    if n == 0 then 0 else Merged(log[..n - 1]) + One(log[n - 1].outcome.SetDone? && Flag(false, log[..n - 1]))
  }

  /** Flags cleared by pulse or reset. */
  function Cancelled(log: seq<Entry>): nat {
    var n := |log|;
    if n == 0 then 0
    else
      Cancelled(log[..n - 1]) + One((log[n - 1].outcome.PulseDone? || log[n - 1].outcome.ResetDone?) && Flag(false, log[..n - 1]))
  }

  /** No set is lost or counted twice: it made one wait succeed, was merged or cancelled, or is pending. */
  lemma {:induction false} Conserved(log: seq<Entry>)
    requires Legal(false, log)
    ensures Sets(log) == Successes(log) + Merged(log) + Cancelled(log) + One(Flag(false, log))
    decreases |log|
  {
    if log != [] {
      Conserved(log[..|log| - 1]);
    }
  }

  // ---------- Threads and their calls ----------

  function Of(t: nat, log: seq<Entry>): seq<Outcome> {
    var n := |log|;
    if n == 0 then [] else Of(t, log[..n - 1]) + (if log[n - 1].thread == t then [log[n - 1].outcome] else [])
  }

  function Asked(t: nat, called: seq<Request>): seq<Call> {
    var n := |called|;
    if n == 0 then [] else Asked(t, called[..n - 1]) + (if called[n - 1].thread == t then [called[n - 1].call] else [])
  }

  lemma OfGrows(t: nat, log: seq<Entry>, e: Entry)
    ensures Of(t, log + [e]) == Of(t, log) + (if e.thread == t then [e.outcome] else [])
  {
    assert (log + [e])[..|log|] == log;
  }

  lemma AskedGrows(t: nat, called: seq<Request>, r: Request)
    ensures Asked(t, called + [r]) == Asked(t, called) + (if r.thread == t then [r.call] else [])
  {
    assert (called + [r])[..|called|] == called;
  }

  function CallOf(outcome: Outcome): Call {
    match outcome
    case SetDone => Set
    case PulseDone => Pulse
    case ResetDone => Reset
    case WaitDone(limit, _, _) => Wait(limit)
  }

  function Calls(outcomes: seq<Outcome>): seq<Call> { seq(|outcomes|, i requires 0 <= i < |outcomes| => CallOf(outcomes[i])) }

  /** The call a thread has begun and not decided. */
  function Open(pc: Pc): seq<Call> {
    match pc
    case Idle => []
    case Enter(call) => [call]
    case Inside(call) => [call]
    case Sleeping(timer) => [Wait(timer.limit)]
    case Waking(timer) => [Wait(timer.limit)]
    case Check(timer) => [Wait(timer.limit)]
    case Leaving(_) => []
  }

  function Decided(pc: Pc): seq<Outcome> { if pc.Leaving? then [pc.outcome] else [] }

  /** Each call of a thread is decided once, in order, and returns with its own outcome: `asked`, `mine` and
      `back` are its calls, decisions and returns. */
  ghost predicate Balanced(pc: Pc, asked: seq<Call>, mine: seq<Outcome>, back: seq<Outcome>) {
    asked == Calls(mine) + Open(pc) && mine == back + Decided(pc)
  }

  ghost predicate OneToOne(t: nat, pc: Pc, called: seq<Request>, log: seq<Entry>, returned: seq<Entry>) {
    Balanced(pc, Asked(t, called), Of(t, log), Of(t, returned))
  }

  lemma BeginBalances(call: Call, asked: seq<Call>, mine: seq<Outcome>, back: seq<Outcome>)
    requires Balanced(Idle, asked, mine, back)
    ensures Balanced(Enter(call), asked + [call], mine, back)
  {
  }

  lemma MoveBalances(pc: Pc, pc': Pc, asked: seq<Call>, mine: seq<Outcome>, back: seq<Outcome>)
    requires Balanced(pc, asked, mine, back) && Open(pc') == Open(pc) && Decided(pc') == Decided(pc)
    ensures Balanced(pc', asked, mine, back)
  {
  }

  lemma DecideBalances(pc: Pc, o: Outcome, asked: seq<Call>, mine: seq<Outcome>, back: seq<Outcome>)
    requires Balanced(pc, asked, mine, back) && Open(pc) == [CallOf(o)]
    ensures Balanced(Leaving(o), asked, mine + [o], back)
  {
    assert Decided(pc) == [];
    assert Calls(mine + [o]) == Calls(mine) + [CallOf(o)];
  }

  lemma ReturnBalances(o: Outcome, asked: seq<Call>, mine: seq<Outcome>, back: seq<Outcome>)
    requires Balanced(Leaving(o), asked, mine, back)
    ensures Balanced(Idle, asked, mine, back + [o])
  {
  }

  // ---------- The invariant ----------

  /** Exactly the thread in `inside` is inside, and there is at most one. */
  ghost predicate Exclusive(s: State) {
    && (forall t :: 0 <= t < |s.threads| ==> (Holds(s.threads[t]) <==> t in s.inside))
    && (forall t, u :: t in s.inside && u in s.inside ==> t == u)
    && (forall t :: t in s.inside ==> t < |s.threads|)
  }

  /** What is left of a timeout is what has not been slept. */
  predicate Measured(timer: Timer) {
    timer.limit.For? ==> timer.left == if timer.slept < timer.limit.ms then timer.limit.ms - timer.slept else 0
  }

  ghost predicate InTime(s: State) {
    forall t :: 0 <= t < |s.threads| && (s.threads[t].Sleeping? || s.threads[t].Waking? || s.threads[t].Check?) ==>
      Measured(s.threads[t].timer)
  }

  ghost predicate Accounted(s: State) {
    forall t :: 0 <= t < |s.threads| ==> OneToOne(t, s.threads[t], s.called, s.log, s.returned)
  }

  /** The calls decided so far are those of the sequential object, and leave the same flag. */
  ghost predicate Sequential(broadcast: bool, s: State) { Legal(broadcast, s.log) && s.isSet == Flag(broadcast, s.log) }

  ghost predicate Inv(broadcast: bool, s: State) { Exclusive(s) && InTime(s) && Sequential(broadcast, s) && Accounted(s) }

  lemma StepKeepsExclusive(broadcast: bool, s: State, t: nat, a: Action)
    requires Exclusive(s) && Enabled(s, t, a)
    ensures Exclusive(Step(broadcast, s, t, a))
  {
    var s' := Step(broadcast, s, t, a);
    assert forall u :: 0 <= u < |s.threads| && u != t ==> s'.threads[u] == s.threads[u];
  }

  lemma StepKeepsInTime(broadcast: bool, s: State, t: nat, a: Action)
    requires InTime(s) && Enabled(s, t, a)
    ensures InTime(Step(broadcast, s, t, a))
  {
    var s' := Step(broadcast, s, t, a);
    assert forall u :: 0 <= u < |s.threads| && u != t ==> s'.threads[u] == s.threads[u];
  }

  /** What a call decides is what the sequential object promises. */
  lemma EffectIsProper(broadcast: bool, s: State, t: nat, a: Action)
    requires InTime(s) && Enabled(s, t, a)
    ensures var e := EffectOf(broadcast, s, t, a);
            e.Decides? ==> Proper(s.isSet, e.outcome) && e.flag == FlagAfter(broadcast, s.isSet, e.outcome)
  {
  }

  /** A call is decided as the call it is. */
  lemma EffectIsOwn(broadcast: bool, s: State, t: nat, a: Action)
    requires Enabled(s, t, a)
    ensures var e, pc := EffectOf(broadcast, s, t, a), s.threads[t];
            && (e.Begins? ==> pc.Idle? && a == Begin(e.call))
            && (e.Moves? ==> Open(e.pc) == Open(pc) && Decided(e.pc) == Decided(pc) == [])
            && (e.Decides? ==> Open(pc) == [CallOf(e.outcome)])
            && (e.Returns? ==> pc == Leaving(e.outcome))
  {
  }

  lemma StepKeepsSequential(broadcast: bool, s: State, t: nat, a: Action)
    requires InTime(s) && Sequential(broadcast, s) && Enabled(s, t, a)
    ensures Sequential(broadcast, Step(broadcast, s, t, a))
  {
    var e := EffectOf(broadcast, s, t, a);
    EffectIsProper(broadcast, s, t, a);
    if e.Decides? {
      FlagGrows(broadcast, s.log, Entry(t, e.outcome));
    }
  }

  lemma ApplyKeepsOthers(s: State, t: nat, e: Effect, u: nat)
    requires t < |s.threads| && u != t && u < |s.threads| && OneToOne(u, s.threads[u], s.called, s.log, s.returned)
    ensures var s' := Apply(s, t, e); OneToOne(u, s'.threads[u], s'.called, s'.log, s'.returned)
  {
    assert Apply(s, t, e).threads[u] == s.threads[u];
    if e.Begins? {
      AskedGrows(u, s.called, Request(t, e.call));
    } else if e.Decides? {
      OfGrows(u, s.log, Entry(t, e.outcome));
    } else if e.Returns? {
      OfGrows(u, s.returned, Entry(t, e.outcome));
    }
  }

  lemma ApplyKeepsOwn(s: State, t: nat, e: Effect)
    requires t < |s.threads| && OneToOne(t, s.threads[t], s.called, s.log, s.returned)
    requires e.Begins? ==> s.threads[t].Idle?
    requires e.Moves? ==> Open(e.pc) == Open(s.threads[t]) && Decided(e.pc) == Decided(s.threads[t])
    requires e.Decides? ==> Open(s.threads[t]) == [CallOf(e.outcome)]
    requires e.Returns? ==> s.threads[t] == Leaving(e.outcome)
    ensures var s' := Apply(s, t, e); OneToOne(t, s'.threads[t], s'.called, s'.log, s'.returned)
  {
    var pc, asked, mine, back := s.threads[t], Asked(t, s.called), Of(t, s.log), Of(t, s.returned);
    match e
    case Begins(call) =>
      AskedGrows(t, s.called, Request(t, call));
      BeginBalances(call, asked, mine, back);
    case Moves(pc') =>
      MoveBalances(pc, pc', asked, mine, back);
    case Decides(o, _) =>
      OfGrows(t, s.log, Entry(t, o));
      DecideBalances(pc, o, asked, mine, back);
    case Returns(o) =>
      OfGrows(t, s.returned, Entry(t, o));
      ReturnBalances(o, asked, mine, back);
  }

  lemma StepKeepsAccounted(broadcast: bool, s: State, t: nat, a: Action)
    requires Accounted(s) && Enabled(s, t, a)
    ensures Accounted(Step(broadcast, s, t, a))
  {
    var e, s' := EffectOf(broadcast, s, t, a), Step(broadcast, s, t, a);
    EffectIsOwn(broadcast, s, t, a);
    forall u | 0 <= u < |s'.threads| ensures OneToOne(u, s'.threads[u], s'.called, s'.log, s'.returned) {
      assert OneToOne(u, s.threads[u], s.called, s.log, s.returned);
      if u == t {
        ApplyKeepsOwn(s, t, e);
      } else {
        ApplyKeepsOthers(s, t, e, u);
      }
    }
  }

  lemma StepKeepsInv(broadcast: bool, s: State, t: nat, a: Action)
    requires Inv(broadcast, s) && Enabled(s, t, a)
    ensures Inv(broadcast, Step(broadcast, s, t, a))
  {
    StepKeepsExclusive(broadcast, s, t, a);
    StepKeepsInTime(broadcast, s, t, a);
    StepKeepsSequential(broadcast, s, t, a);
    StepKeepsAccounted(broadcast, s, t, a);
  }

  lemma {:induction false} RunKeepsInv(broadcast: bool, s: State, schedule: seq<(nat, Action)>)
    requires Inv(broadcast, s)
    ensures Inv(broadcast, Run(broadcast, s, schedule))
    decreases |schedule|
  {
    if schedule != [] {
      var (t, a) := schedule[0];
      if Enabled(s, t, a) {
        StepKeepsInv(broadcast, s, t, a);
        RunKeepsInv(broadcast, Step(broadcast, s, t, a), schedule[1..]);
      } else {
        RunKeepsInv(broadcast, s, schedule[1..]);
      }
    }
  }

  lemma {:induction false} RunThreads(broadcast: bool, s: State, schedule: seq<(nat, Action)>)
    ensures |Run(broadcast, s, schedule).threads| == |s.threads|
    decreases |schedule|
  {
    if schedule != [] {
      var (t, a) := schedule[0];
      RunThreads(broadcast, if Enabled(s, t, a) then Step(broadcast, s, t, a) else s, schedule[1..]);
    }
  }

  // ---------- What callers get ----------

  /** In every interleaving the calls decided so far form a legal run of the sequential condition that leaves
      the flag as it is; each thread's calls are decided once, in order, with their own outcomes; and at most
      one thread is inside. */
  lemma RefinesSequential(broadcast: bool, n: nat, schedule: seq<(nat, Action)>)
    ensures var s := Run(broadcast, Initial(n), schedule);
            && Legal(broadcast, s.log) && s.isSet == Flag(broadcast, s.log)
            && |s.threads| == n
            && (forall t :: 0 <= t < n ==> OneToOne(t, s.threads[t], s.called, s.log, s.returned))
            && (forall t, u :: 0 <= t < n && 0 <= u < n && Holds(s.threads[t]) && Holds(s.threads[u]) ==> t == u)
  {
    RunKeepsInv(broadcast, Initial(n), schedule);
    RunThreads(broadcast, Initial(n), schedule);
  }

  /** In every interleaving the successful waits on a condition that is not broadcast are exactly the sets
      that were neither merged, nor cancelled, nor are still pending; so they never exceed the sets. */
  lemma WaitsNeverExceedSets(n: nat, schedule: seq<(nat, Action)>)
    ensures var log := Run(false, Initial(n), schedule).log;
            && Sets(log) == Successes(log) + Merged(log) + Cancelled(log) + One(Flag(false, log))
            && Successes(log) <= Sets(log)
  {
    RunKeepsInv(false, Initial(n), schedule);
    Conserved(Run(false, Initial(n), schedule).log);
  }

  predicate AboutToTest(pc: Pc) { pc.Check? || (pc.Inside? && pc.call.Wait?) }

  /** What a test of the flag comes to, given whether a set is pending. */
  predicate TestedFor(pending: bool, pc: Pc, pc': Pc) {
    && (pc'.Leaving? && pc'.outcome.WaitDone? && pc'.outcome.success <==> pending)
    && (pc'.Leaving? && pc'.outcome.WaitDone? && !pc'.outcome.success <==>
          !pending && pc.Check? && pc.timer.limit.For? && pc.timer.slept >= pc.timer.limit.ms)
    && (pc'.Leaving? || pc'.Sleeping?)
  }

  lemma FlagIsTested(broadcast: bool, s: State, t: nat)
    requires InTime(s) && t < |s.threads| && AboutToTest(s.threads[t])
    ensures TestedFor(s.isSet, s.threads[t], Step(broadcast, s, t, Continue).threads[t])
  {
  }

  /** A thread that tests the flag succeeds exactly when a set is pending, one that no pulse, reset or, unless
      broadcast, other wait has cancelled since; it fails exactly when there is none, it has slept at least
      once and altogether at least the timeout it was called with; otherwise it sleeps. */
  lemma WaitSucceedsIffSet(broadcast: bool, n: nat, schedule: seq<(nat, Action)>, t: nat)
    requires var s := Run(broadcast, Initial(n), schedule); t < |s.threads| && AboutToTest(s.threads[t])
    ensures var s := Run(broadcast, Initial(n), schedule);
            TestedFor(exists i :: Pending(broadcast, s.log, i), s.threads[t], Step(broadcast, s, t, Continue).threads[t])
  {
    RunKeepsInv(broadcast, Initial(n), schedule);
    FlagIsPending(broadcast, Run(broadcast, Initial(n), schedule).log);
    FlagIsTested(broadcast, Run(broadcast, Initial(n), schedule), t);
  }

  /** Steps a call has still to take if it does not go to sleep again. */
  function Rank(pc: Pc): nat {
    match pc
    case Idle => 0
    case Enter(_) => 3
    case Inside(_) => 2
    case Sleeping(_) => 4
    case Waking(_) => 3
    case Check(_) => 2
    case Leaving(_) => 1
  }

  /** Every step of a call leads nearer to its return, except that a wait that finds no set goes to sleep. */
  lemma StepAdvances(broadcast: bool, s: State, t: nat, a: Action)
    requires Enabled(s, t, a) && !a.Begin?
    ensures var pc, pc' := s.threads[t], Step(broadcast, s, t, a).threads[t];
            Rank(pc') < Rank(pc) || (pc'.Sleeping? && AboutToTest(pc) && !s.isSet)
  {
  }

  /** A call on its own, from its start to its return. */
  function Alone(broadcast: bool, s: State, t: nat, call: Call): State
    requires t < |s.threads| && s.threads[t].Idle? && s.inside == {}
  {
    var s1 := Step(broadcast, s, t, Begin(call));
    var s2 := Step(broadcast, s1, t, Continue);
    var s3 := if Enabled(s2, t, Continue) then Step(broadcast, s2, t, Continue) else s2;
    if Enabled(s3, t, Continue) then Step(broadcast, s3, t, Continue) else s3
  }

  /** The outcome of a call that does not have to sleep. */
  function AtOnce(call: Call): Outcome {
    match call
    case Set => SetDone
    case Pulse => PulseDone
    case Reset => ResetDone
    case Wait(limit) => WaitDone(limit, 0, true)
  }

  /** A set leaves the flag set, pulse and reset leave it clear, and a wait that finds it set succeeds and
      leaves it set only if the condition is broadcast. */
  lemma CallAlone(broadcast: bool, s: State, t: nat, call: Call)
    requires t < |s.threads| && s.threads[t].Idle? && s.inside == {} && (call.Wait? ==> s.isSet)
    ensures var e := Entry(t, AtOnce(call));
            Alone(broadcast, s, t, call) ==
            s.(isSet := call.Set? || (call.Wait? && broadcast), called := s.called + [Request(t, call)],
               log := s.log + [e], returned := s.returned + [e])
  {
    var s' := Alone(broadcast, s, t, call);
    assert s'.threads == s.threads && s'.inside == {};
  }

  /** A sleeping thread that wakes, undisturbed. */
  function Woken(broadcast: bool, s: State, t: nat, elapsed: nat): State
    requires t < |s.threads| && s.threads[t].Sleeping? && s.inside == {}
  {
    var s1 := Step(broadcast, s, t, Wake(elapsed));
    var s2 := Step(broadcast, s1, t, Continue);
    var s3 := Step(broadcast, s2, t, Continue);
    if Enabled(s3, t, Continue) then Step(broadcast, s3, t, Continue) else s3
  }

  /** It returns success if the flag is set; otherwise it returns failure if it has slept its timeout, and
      goes back to sleep if not, with that much less left. */
  lemma WokenAlone(broadcast: bool, s: State, t: nat, elapsed: nat)
    requires t < |s.threads| && s.threads[t].Sleeping? && s.inside == {} && Measured(s.threads[t].timer)
    ensures var timer, s' := s.threads[t].timer, Woken(broadcast, s, t, elapsed);
            var slept := timer.slept + elapsed;
            var e := Entry(t, WaitDone(timer.limit, slept, s.isSet));
            if s.isSet || (timer.limit.For? && slept >= timer.limit.ms) then
              s' == s.(isSet := s.isSet && broadcast, threads := s.threads[t := Idle], log := s.log + [e], returned := s.returned + [e])
            else s' == s.(threads := s.threads[t := Sleeping(Slept(timer, elapsed))])
  {
    var timer, s' := s.threads[t].timer, Woken(broadcast, s, t, elapsed);
    assert s'.inside == {};
    assert s'.threads == s.threads[t := s'.threads[t]];
  }
}
