/** `GaugeData`: current value, extremes since the last reset, and the moving average. */
module Gauge {
  import opened MovingAverage

  datatype Op = Update(value: int) | Reset

  datatype State = State(current: int, min: int, max: int, average: int, isNull: bool)

  function Initial(): State { State(0, 0, 0, 0, true) }

  function Apply(s: State, exp: int, op: Op): State {
    match op
    case Update(v) =>
      if s.isNull then State(v, v, v, v * ONE, false)
      else State(v, if s.min > v then v else s.min, if s.max < v then v else s.max, Updated(s.average, exp, v), false)
    case Reset => State(s.current, s.current, s.current, s.average, s.isNull)
  }

  function Run(exp: int, ops: seq<Op>): State {
    if ops == [] then Initial() else Apply(Run(exp, ops[..|ops| - 1]), exp, ops[|ops| - 1])
  }

  // ---------- What the fields mean ----------

  /** All values ever fed in. */
  function Inputs(ops: seq<Op>): seq<int> {
    if ops == [] then []
    else
      var before := Inputs(ops[..|ops| - 1]);
      match ops[|ops| - 1]
      case Update(v) => before + [v]
      case Reset => before
  }

  /** The values the extremes range over: those since the last reset, and the one current at that reset. */
  function Window(ops: seq<Op>): seq<int> {
    if ops == [] then []
    else
      var before := ops[..|ops| - 1];
      match ops[|ops| - 1]
      case Update(v) => Window(before) + [v]
      case Reset =>
        var inputs := Inputs(before);
        if inputs == [] then [] else [inputs[|inputs| - 1]]
  }

  predicate IsMin(m: int, s: seq<int>) { m in s && forall x :: x in s ==> m <= x }
  predicate IsMax(m: int, s: seq<int>) { m in s && forall x :: x in s ==> x <= m }

  /** After any history the gauge is null exactly when nothing was fed in; otherwise its current value is
      the last input. */
  lemma {:induction false} CurrentIsLast(exp: int, ops: seq<Op>)
    ensures Run(exp, ops).isNull <==> Inputs(ops) == []
    ensures Inputs(ops) != [] ==> Run(exp, ops).current == Inputs(ops)[|Inputs(ops)| - 1]
  {
    if ops != [] { CurrentIsLast(exp, ops[..|ops| - 1]); }
  }

  /** The average is the moving average of all inputs; resets do not touch it. */
  lemma {:induction false} AverageIsOfInputs(exp: int, ops: seq<Op>)
    requires Inputs(ops) != []
    ensures Run(exp, ops).average == Average(Inputs(ops)[0] * ONE, exp, Inputs(ops)[1..])
  {
    var before := ops[..|ops| - 1];
    var inputs := Inputs(before);
    CurrentIsLast(exp, before);
    if inputs != [] {
      AverageIsOfInputs(exp, before);
      if ops[|ops| - 1].Update? {
        var v := ops[|ops| - 1].value;
        assert (inputs + [v])[1..] == inputs[1..] + [v];
        assert (inputs[1..] + [v])[..|inputs| - 1] == inputs[1..];
      }
    }
  }

  /** The extremes are those of the values since the last reset, counting the value current at that reset. */
  lemma {:induction false} ExtremesAreOfWindow(exp: int, ops: seq<Op>)
    ensures Inputs(ops) == [] ==> Window(ops) == []
    ensures Inputs(ops) != [] ==> IsMin(Run(exp, ops).min, Window(ops)) && IsMax(Run(exp, ops).max, Window(ops))
  {
    if ops != [] {
      var before := ops[..|ops| - 1];
      ExtremesAreOfWindow(exp, before);
      CurrentIsLast(exp, before);
    }
  }

  /** What the fields say about the calls made: whether a value was ever fed in; if so the last one, the
      extremes since the last reset, and the moving average of all of them. */
  ghost predicate Means(s: State, exp: int, ops: seq<Op>) {
    var inputs := Inputs(ops);
    && (s.isNull <==> inputs == [])
    && (inputs != [] ==>
          && s.current == inputs[|inputs| - 1]
          && IsMin(s.min, Window(ops)) && IsMax(s.max, Window(ops))
          && s.average == Average(inputs[0] * ONE, exp, inputs[1..]))
  }

  lemma RunMeans(exp: int, ops: seq<Op>)
    ensures Means(Run(exp, ops), exp, ops)
  {
    CurrentIsLast(exp, ops);
    ExtremesAreOfWindow(exp, ops);
    if Inputs(ops) != [] {
      AverageIsOfInputs(exp, ops);
    }
  }

  /** The stored average stays within the range of the inputs and trails the exact average by less than
      `2048 / (2048 - exp)` units, resets or not. */
  lemma GaugeAverageIsClose(exp: int, ops: seq<Op>, lo: int, hi: int)
    requires Weight(exp) && Inputs(ops) != [] && InRange(Inputs(ops), lo, hi)
    ensures var inputs, a := Inputs(ops), Run(exp, ops).average;
            && lo * ONE <= a <= hi * ONE
            && 0.0 <= Exact(inputs[0] * ONE, exp, inputs[1..]) - a as real < 2048.0 / (ONE - exp) as real
  {
    var inputs := Inputs(ops);
    AverageIsOfInputs(exp, ops);
    AverageInRange(inputs[0] * ONE, exp, inputs[1..], lo, hi);
    DriftIsBounded(inputs[0] * ONE, exp, inputs[1..]);
  }

  // ---------- The object ----------

  /** `history` records the calls made so far. */
  class GaugeData {
    var current: int
    var min: int
    var max: int
    var average: int
    var isNull: bool
    const exp: int
    ghost var history: seq<Op>

    constructor (exp: int)
      ensures this.exp == exp && Valid() && history == [] && isNull
    {
      this.exp := exp;
      current, min, max, average, isNull := 0, 0, 0, 0, true;
      history := [];
    }

    ghost function View(): State
      reads this
    {
      State(current, min, max, average, isNull)
    }

    ghost predicate Valid()
      reads this
    {
      View() == Run(exp, history)
    }

    /** Afterwards the fields are what the calls so far, this one included, say they should be. */
    method Update(curr: int)
      requires Valid()
      modifies this
      ensures Valid() && history == old(history) + [Op.Update(curr)]
      ensures Means(View(), exp, history) && !isNull && current == curr
    {
      current := curr;
      if isNull {
        isNull := false;
        min := curr;
        max := curr;
        average := curr * ONE;
      } else {
        if min > curr {
          min := curr;
        }
        if max < curr {
          max := curr;
        }
        average := UpdateExpMovingAverage(average, exp, curr);
      }
      history := history + [Op.Update(curr)];
      RunMeans(exp, history);
    }

    method Reset()
      requires Valid()
      modifies this
      ensures Valid() && history == old(history) + [Op.Reset]
      ensures Means(View(), exp, history)
      ensures current == old(current) && average == old(average) && isNull == old(isNull)
    {
      min := current;
      max := current;
      history := history + [Op.Reset];
      RunMeans(exp, history);
    }
  }

  /** Feeding a gauge any history of updates and resets. */
  method Replay(exp: int, ops: seq<Op>) returns (g: GaugeData)
    ensures fresh(g) && g.exp == exp && g.Valid() && g.history == ops && Means(g.View(), exp, ops)
  {
    g := new GaugeData(exp);
    for i := 0 to |ops|
      invariant fresh(g) && g.exp == exp && g.Valid() && g.history == ops[..i]
    {
      match ops[i] {
        case Update(v) => g.Update(v);
        case Reset => g.Reset();
      }
    }
    RunMeans(exp, ops);
  }
}
