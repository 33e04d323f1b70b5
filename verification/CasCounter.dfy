/** 64-bit atomic add built from a plain read and compare-and-exchange, as used where the platform has no
    native one.  Increment and decrement are additions of 1 and -1.

    The plain read may return anything at all: on a 32-bit machine it is not atomic. */
module CasCounter {

  const MODULUS := 0x1_0000_0000_0000_0000
  const HALF := 0x8000_0000_0000_0000

  /** Two's complement wrap-around to 64 bits. */
  function Wrap(x: int): (r: int)
    ensures -HALF <= r < HALF && (x - r) % MODULUS == 0
  {
    (x + HALF) % MODULUS - HALF
  }

  lemma WrapAdds(x: int, a: int)
    ensures Wrap(Wrap(x) + a) == Wrap(x + a)
  {
  }

  /** A completed exchange: who, what was added, what the counter became. */
  datatype Commit = Commit(thread: nat, addend: int, result: int)

  datatype Pc =
    | Idle
    | Read(a: int)               // about to read the counter
    | Exchange(a: int, seen: int) // about to compare and exchange
    | Return(a: int, result: int)

  /** A call of the add: who, and what to add. */
  datatype Request = Request(thread: nat, addend: int)

  /** `called`, `log` and `returned` are history: calls begun, exchanges committed, and values returned to
      callers, each in order. */
  datatype State = State(value: int, threads: seq<Pc>, called: seq<Request>, log: seq<Commit>, returned: seq<Commit>)

  datatype Action =
    | Call(a: int)
    | Load(seen: int)   // the read yields `seen`, whatever the counter holds
    | TryExchange
    | Finish

  predicate Enabled(s: State, t: nat, act: Action) {
    && t < |s.threads|
    && match act
       case Call(_) => s.threads[t].Idle?
       case Load(_) => s.threads[t].Read?
       case TryExchange => s.threads[t].Exchange?
       case Finish => s.threads[t].Return?
  }

  function Step(s: State, t: nat, act: Action): State
    requires Enabled(s, t, act)
  {
    var pc := s.threads[t];
    match act
    case Call(a) => s.(threads := s.threads[t := Read(a)], called := s.called + [Request(t, a)])
    case Load(seen) => s.(threads := s.threads[t := Exchange(pc.a, seen)])
    case TryExchange =>
      if s.value == pc.seen then
        var v := Wrap(pc.seen + pc.a);
        s.(value := v, threads := s.threads[t := Return(pc.a, v)], log := s.log + [Commit(t, pc.a, v)])
      else s.(threads := s.threads[t := Read(pc.a)])
    case Finish => s.(threads := s.threads[t := Idle], returned := s.returned + [Commit(t, pc.a, pc.result)])
  }

  function Initial(n: nat, start: int): State { State(start, seq(n, _ => Idle), [], [], []) }

  function Run(s: State, schedule: seq<(nat, Action)>): State
    decreases |schedule|
  {
    if schedule == [] then s
    else
      var (t, act) := schedule[0];
      Run(if Enabled(s, t, act) then Step(s, t, act) else s, schedule[1..])
  }

  /** An exchange commits exactly when the value read is the value of the counter at that moment; the counter
      then becomes the wrapped sum, and in no other step does it change. */
  lemma CommitsIffSeen(s: State, t: nat, act: Action)
    requires Enabled(s, t, act)
    ensures var s', pc := Step(s, t, act), s.threads[t];
            && (s'.log != s.log <==> act.TryExchange? && pc.seen == s.value)
            && (s'.log != s.log ==> s'.value == Wrap(s.value + pc.a) && s'.threads[t] == Return(pc.a, s'.value))
            && (s'.log == s.log ==> s'.value == s.value)
  {
  }

  /** Steps a call has still to take if its exchange succeeds. */
  function Rank(pc: Pc): nat {
    match pc
    case Idle => 0
    case Read(_) => 3
    case Exchange(_, _) => 2
    case Return(_, _) => 1
  }

  /** Every step of a call leads nearer to its end, unless the counter is not what it read. */
  lemma StepAdvances(s: State, t: nat, act: Action)
    requires Enabled(s, t, act) && !act.Call?
    ensures Rank(Step(s, t, act).threads[t]) < Rank(s.threads[t]) || (act.TryExchange? && s.threads[t].seen != s.value)
  {
  }

  /** A call on its own: read, exchange, return. */
  function Alone(s: State, t: nat, a: int): State
    requires t < |s.threads| && s.threads[t].Idle?
  {
    var s1 := Step(s, t, Call(a));
    var s2 := Step(s1, t, Load(s1.value));
    var s3 := Step(s2, t, TryExchange);
    if s3.threads[t].Return? then Step(s3, t, Finish) else s3
  }

  /** It adds its addend and returns the new value. */
  lemma AddAlone(s: State, t: nat, a: int)
    requires t < |s.threads| && s.threads[t].Idle?
    ensures var v := Wrap(s.value + a);
            Alone(s, t, a) == s.(value := v, called := s.called + [Request(t, a)],
                                 log := s.log + [Commit(t, a, v)], returned := s.returned + [Commit(t, a, v)])
  {
    assert Alone(s, t, a).threads == s.threads;
  }

  /** Increment of the largest and decrement of the smallest 64-bit number. */
  lemma WrapsAt64Bits()
    ensures Wrap(0x7FFF_FFFF_FFFF_FFFF + 1) == -0x8000_0000_0000_0000
    ensures Wrap(-0x8000_0000_0000_0000 - 1) == 0x7FFF_FFFF_FFFF_FFFF
  {
  }

  // ---------- The atomic counter it refines ----------

  function Sum(log: seq<Commit>): int {
    if log == [] then 0 else Sum(log[..|log| - 1]) + log[|log| - 1].addend
  }

  /** The log is a history of an atomic add: each result is the start plus all addends so far. */
  ghost predicate AtomicHistory(start: int, log: seq<Commit>) {
    var n := |log|;
    n == 0 || (AtomicHistory(start, log[..n - 1]) && log[n - 1].result == Wrap(start + Sum(log)))
  }

  lemma {:induction false} HistoryAt(start: int, log: seq<Commit>, i: nat)
    requires AtomicHistory(start, log) && i < |log|
    ensures log[i].result == Wrap(start + Sum(log[..i + 1]))
    decreases |log|
  {
    var n := |log|;
    if i == n - 1 {
      assert log[..n] == log;
    } else {
      HistoryAt(start, log[..n - 1], i);
      assert log[..n - 1][..i + 1] == log[..i + 1];
    }
  }

  // ---------- Threads and their calls ----------

  /** The part of a history that concerns one thread. */
  function Of(t: nat, log: seq<Commit>): seq<Commit> {
    var n := |log|;
    if n == 0 then [] else Of(t, log[..n - 1]) + (if log[n - 1].thread == t then [log[n - 1]] else [])
  }

  /** What one thread asked to add, call by call. */
  function Asked(t: nat, called: seq<Request>): seq<int> {
    var n := |called|;
    if n == 0 then [] else Asked(t, called[..n - 1]) + (if called[n - 1].thread == t then [called[n - 1].addend] else [])
  }

  function Addends(log: seq<Commit>): seq<int> { seq(|log|, i requires 0 <= i < |log| => log[i].addend) }

  /** The exchange whose result the thread is about to return. */
  function Committed(t: nat, pc: Pc): seq<Commit> { if pc.Return? then [Commit(t, pc.a, pc.result)] else [] }

  /** The addend the thread has yet to commit. */
  function Open(pc: Pc): seq<int> { if pc.Read? || pc.Exchange? then [pc.a] else [] }

  lemma OfGrows(t: nat, log: seq<Commit>, c: Commit)
    ensures Of(t, log + [c]) == Of(t, log) + (if c.thread == t then [c] else [])
  {
    assert (log + [c])[..|log|] == log;
  }

  lemma AskedGrows(t: nat, called: seq<Request>, r: Request)
    ensures Asked(t, called + [r]) == Asked(t, called) + (if r.thread == t then [r.addend] else [])
  {
    assert (called + [r])[..|called|] == called;
  }

  /** Every call of a thread commits its own addend once, in order, and returns that commit's result:
      `asked`, `mine` and `back` are the thread's calls, commits and returns. */
  ghost predicate Balanced(t: nat, pc: Pc, asked: seq<int>, mine: seq<Commit>, back: seq<Commit>) {
    asked == Addends(mine) + Open(pc) && mine == back + Committed(t, pc)
  }

  ghost predicate OneToOne(t: nat, pc: Pc, called: seq<Request>, log: seq<Commit>, returned: seq<Commit>) {
    Balanced(t, pc, Asked(t, called), Of(t, log), Of(t, returned))
  }

  lemma CallBalances(t: nat, a: int, asked: seq<int>, mine: seq<Commit>, back: seq<Commit>)
    requires Balanced(t, Idle, asked, mine, back)
    ensures Balanced(t, Read(a), asked + [a], mine, back)
  {
  }

  lemma CommitBalances(t: nat, pc: Pc, v: int, asked: seq<int>, mine: seq<Commit>, back: seq<Commit>)
    requires pc.Exchange? && Balanced(t, pc, asked, mine, back)
    ensures Balanced(t, Return(pc.a, v), asked, mine + [Commit(t, pc.a, v)], back)
  {
    assert Addends(mine + [Commit(t, pc.a, v)]) == Addends(mine) + [pc.a];
  }

  lemma FinishBalances(t: nat, pc: Pc, asked: seq<int>, mine: seq<Commit>, back: seq<Commit>)
    requires pc.Return? && Balanced(t, pc, asked, mine, back)
    ensures Balanced(t, Idle, asked, mine, back + [Commit(t, pc.a, pc.result)])
  {
  }

  /** The counter is its start plus everything committed. */
  ghost predicate Counts(start: int, value: int, log: seq<Commit>) {
    value == Wrap(start + Sum(log)) && AtomicHistory(start, log)
  }

  ghost predicate Accounted(s: State) {
    forall t :: 0 <= t < |s.threads| ==> OneToOne(t, s.threads[t], s.called, s.log, s.returned)
  }

  ghost predicate Inv(start: int, s: State) { Counts(start, s.value, s.log) && Accounted(s) }

  /** A commit on top of an atomic history whose last value it saw. */
  lemma CommitExtendsHistory(start: int, value: int, log: seq<Commit>, c: Commit)
    requires Counts(start, value, log) && c.result == Wrap(value + c.addend)
    ensures Counts(start, c.result, log + [c])
  {
    assert (log + [c])[..|log|] == log;
    assert Sum(log + [c]) == Sum(log) + c.addend;
    WrapAdds(start + Sum(log), c.addend);
  }

  lemma CallKeepsOwn(s: State, t: nat, a: int)
    requires Enabled(s, t, Call(a)) && OneToOne(t, s.threads[t], s.called, s.log, s.returned)
    ensures OneToOne(t, Read(a), s.called + [Request(t, a)], s.log, s.returned)
  {
    AskedGrows(t, s.called, Request(t, a));
    CallBalances(t, a, Asked(t, s.called), Of(t, s.log), Of(t, s.returned));
  }

  lemma CommitKeepsOwn(s: State, t: nat, v: int)
    requires Enabled(s, t, TryExchange) && OneToOne(t, s.threads[t], s.called, s.log, s.returned)
    ensures var pc := s.threads[t]; OneToOne(t, Return(pc.a, v), s.called, s.log + [Commit(t, pc.a, v)], s.returned)
  {
    OfGrows(t, s.log, Commit(t, s.threads[t].a, v));
    CommitBalances(t, s.threads[t], v, Asked(t, s.called), Of(t, s.log), Of(t, s.returned));
  }

  lemma FinishKeepsOwn(s: State, t: nat)
    requires Enabled(s, t, Finish) && OneToOne(t, s.threads[t], s.called, s.log, s.returned)
    ensures var pc := s.threads[t]; OneToOne(t, Idle, s.called, s.log, s.returned + [Commit(t, pc.a, pc.result)])
  {
    OfGrows(t, s.returned, Commit(t, s.threads[t].a, s.threads[t].result));
    FinishBalances(t, s.threads[t], Asked(t, s.called), Of(t, s.log), Of(t, s.returned));
  }

  /** Before its commit a thread may go back and forth between reading and trying. */
  lemma RetryKeepsOwn(s: State, t: nat, pc: Pc)
    requires t < |s.threads| && OneToOne(t, s.threads[t], s.called, s.log, s.returned)
    requires (s.threads[t].Read? || s.threads[t].Exchange?) && (pc.Read? || pc.Exchange?) && pc.a == s.threads[t].a
    ensures OneToOne(t, pc, s.called, s.log, s.returned)
  {
    assert Open(pc) == Open(s.threads[t]) && Committed(t, pc) == Committed(t, s.threads[t]);
  }

  lemma ExchangeKeepsOwn(s: State, t: nat)
    requires Enabled(s, t, TryExchange) && OneToOne(t, s.threads[t], s.called, s.log, s.returned)
    ensures var s' := Step(s, t, TryExchange); OneToOne(t, s'.threads[t], s'.called, s'.log, s'.returned)
  {
    var pc, s' := s.threads[t], Step(s, t, TryExchange);
    if s.value == pc.seen {
      var v := s'.value;
      CommitKeepsOwn(s, t, v);
      assert s'.threads[t] == Return(pc.a, v) && s'.log == s.log + [Commit(t, pc.a, v)];
      assert s'.called == s.called && s'.returned == s.returned;
    } else {
      RetryKeepsOwn(s, t, Read(pc.a));
      assert s'.threads[t] == Read(pc.a) && s'.log == s.log && s'.called == s.called && s'.returned == s.returned;
    }
  }

  lemma StepKeepsOwn(s: State, t: nat, act: Action)
    requires Enabled(s, t, act) && OneToOne(t, s.threads[t], s.called, s.log, s.returned)
    ensures var s' := Step(s, t, act); OneToOne(t, s'.threads[t], s'.called, s'.log, s'.returned)
  {
    if act.Call? {
      CallKeepsOwn(s, t, act.a);
    } else if act.Load? {
      RetryKeepsOwn(s, t, Exchange(s.threads[t].a, act.seen));
    } else if act.TryExchange? {
      ExchangeKeepsOwn(s, t);
    } else {
      FinishKeepsOwn(s, t);
    }
  }

  /** A step adds nothing to the histories of other threads. */
  lemma StepKeepsOthers(s: State, t: nat, act: Action, u: nat)
    requires Enabled(s, t, act) && u != t
    ensures var s' := Step(s, t, act);
            && Asked(u, s'.called) == Asked(u, s.called)
            && Of(u, s'.log) == Of(u, s.log) && Of(u, s'.returned) == Of(u, s.returned)
  {
    var pc := s.threads[t];
    match act
    case Call(a) => AskedGrows(u, s.called, Request(t, a));
    case Load(_) =>
    case TryExchange => OfGrows(u, s.log, Commit(t, pc.a, Wrap(pc.seen + pc.a)));
    case Finish => OfGrows(u, s.returned, Commit(t, pc.a, pc.result));
  }

  lemma StepKeepsAccounted(s: State, t: nat, act: Action)
    requires Accounted(s) && Enabled(s, t, act)
    ensures Accounted(Step(s, t, act))
  {
    var s' := Step(s, t, act);
    forall u | 0 <= u < |s'.threads| ensures OneToOne(u, s'.threads[u], s'.called, s'.log, s'.returned) {
      assert OneToOne(u, s.threads[u], s.called, s.log, s.returned);
      if u == t {
        StepKeepsOwn(s, t, act);
      } else {
        StepKeepsOthers(s, t, act, u);
      }
    }
  }

  lemma StepKeepsCounts(start: int, s: State, t: nat, act: Action)
    requires Counts(start, s.value, s.log) && Enabled(s, t, act)
    ensures Counts(start, Step(s, t, act).value, Step(s, t, act).log)
  {
    var pc := s.threads[t];
    if act.TryExchange? && s.value == pc.seen {
      CommitExtendsHistory(start, s.value, s.log, Commit(t, pc.a, Wrap(pc.seen + pc.a)));
    }
  }

  lemma StepKeepsInv(start: int, s: State, t: nat, act: Action)
    requires Inv(start, s) && Enabled(s, t, act)
    ensures Inv(start, Step(s, t, act))
  {
    StepKeepsCounts(start, s, t, act);
    StepKeepsAccounted(s, t, act);
  }

  lemma {:induction false} RunKeepsInv(start: int, s: State, schedule: seq<(nat, Action)>)
    requires Inv(start, s)
    ensures Inv(start, Run(s, schedule))
    decreases |schedule|
  {
    if schedule != [] {
      var (t, act) := schedule[0];
      if Enabled(s, t, act) {
        StepKeepsInv(start, s, t, act);
        RunKeepsInv(start, Step(s, t, act), schedule[1..]);
      } else {
        RunKeepsInv(start, s, schedule[1..]);
      }
    }
  }

  lemma InitialInv(n: nat, start: int)
    requires -HALF <= start < HALF
    ensures Inv(start, Initial(n, start))
  {
  }

  /** In every interleaving, whatever the plain reads return: the counter equals its start plus all
      committed addends, and the commits are a history of an atomic add.  Each thread's calls commit their
      own addends, once each and in order, and return the results of their own commits in order: all of
      them but the call under way, if there is one. */
  lemma RefinesAtomicAdd(n: nat, start: int, schedule: seq<(nat, Action)>)
    requires -HALF <= start < HALF
    ensures var s := Run(Initial(n, start), schedule);
            && Counts(start, s.value, s.log)
            && |s.threads| == n
            && (forall t :: 0 <= t < n ==> OneToOne(t, s.threads[t], s.called, s.log, s.returned))
  {
    InitialInv(n, start);
    RunKeepsInv(start, Initial(n, start), schedule);
    RunThreads(Initial(n, start), schedule);
  }

  lemma {:induction false} RunThreads(s: State, schedule: seq<(nat, Action)>)
    ensures |Run(s, schedule).threads| == |s.threads|
    decreases |schedule|
  {
    if schedule != [] {
      var (t, act) := schedule[0];
      RunThreads(if Enabled(s, t, act) then Step(s, t, act) else s, schedule[1..]);
    }
  }
}
