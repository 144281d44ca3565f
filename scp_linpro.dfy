/** The SCPSolver back end (SCPLinpro.kt): a counter that names the
    constraints `c1`, `c2`, ... and the builder object that records the
    calls of `AbstractLinpro.solve` before the linear program is handed to
    the solver. The solver itself is not part of this model:
    `SolveLPProblem` returns the linear program it would solve. */
module ScpLinpro {
  import opened Wrappers
  import opened AbstractLinpro
  import opened Decimal

  /** `ConstrainNameFactory`: `next()` returns the prefix followed by the
      counter, then increments the counter. */
  class ConstrainNameFactory {
    const prefix: string
    var idx: nat

    constructor(prefix: string)
      ensures this.prefix == prefix && idx == 1
    {
      this.prefix := prefix;
      idx := 1;
    }

    method Next() returns (name: string)
      modifies this
      ensures name == prefix + NatToString(old(idx))
      ensures idx == old(idx) + 1
    {
      name := prefix + NatToString(idx);
      idx := idx + 1;
    }
  }

  /** The three constraint classes of SCPSolver. */
  datatype Relation = SmallerThanEquals | BiggerThanEquals | Equals

  datatype LinearConstraint = LinearConstraint(relation: Relation, coefficients: seq<real>, value: real, name: string)

  /** The `LinearProgram` handed to the solver; `lowerbound` is set only for
      a non-negative problem. */
  datatype LinearProgram = LinearProgram(coefficients: seq<real>, isMinProblem: bool,
                                         constraints: seq<LinearConstraint>, lowerbound: Option<seq<real>>)

  /** The fields of the recording builder. */
  datatype Settings = Settings(objectiveFunctionCoefficients: seq<real>, objective: Goal,
                               constraints: seq<LinearConstraint>, nonNegative: bool)

  /** The builder's fields before any call. */
  function InitialSettings(): Settings
  {
    Settings([], Minimize, [], false)
  }

  /** Whether a builder call adds a constraint. */
  predicate IsConstraintCall(call: BuilderCall)
  {
    call.AddSmallerThanEqualsConstraint? || call.AddBiggerThanEqualsConstraint? || call.AddEqualsConstraint?
  }

  /** The constraint a constraint call records as the `number`-th one. */
  function ToConstraint(call: BuilderCall, number: nat): (c: LinearConstraint)
    requires IsConstraintCall(call)
    ensures c.coefficients == call.coefficients && c.value == call.value
    ensures c.name == "c" + NatToString(number)
  {
    match call
    case AddSmallerThanEqualsConstraint(coefficients, value) =>
      LinearConstraint(SmallerThanEquals, coefficients, value, "c" + NatToString(number))
    case AddBiggerThanEqualsConstraint(coefficients, value) =>
      LinearConstraint(BiggerThanEquals, coefficients, value, "c" + NatToString(number))
    case AddEqualsConstraint(coefficients, value) =>
      LinearConstraint(Equals, coefficients, value, "c" + NatToString(number))
  }

  /** The effect of one builder call on the fields. */
  function Step(st: Settings, call: BuilderCall): Settings
  {
    match call
    case SetObjectiveFunction(coefficients, goal) =>
      st.(objectiveFunctionCoefficients := coefficients, objective := goal)
    case AddNonNegativityConstraint => st.(nonNegative := true)
    case _ => st.(constraints := st.constraints + [ToConstraint(call, |st.constraints| + 1)])
  }

  /** The fields after the calls, starting from `st`. */
  function ReplayFrom(st: Settings, calls: seq<BuilderCall>): Settings
  {
    if |calls| == 0 then st else Step(ReplayFrom(st, calls[..|calls| - 1]), calls[|calls| - 1])
  }

  /** The problem `solveLPProblem` builds from the recorded fields. */
  function ProblemOf(st: Settings): LinearProgram
  {
    LinearProgram(st.objectiveFunctionCoefficients, st.objective == Minimize, st.constraints,
                  if st.nonNegative then Some(seq(|st.objectiveFunctionCoefficients|, _ => 0.0)) else None)
  }

  /** The anonymous `LPProblemBuilder` of `solveLPProblem`: it keeps the
      objective, appends every constraint under the next generated name,
      and remembers a non-negativity request. */
  class ProblemRecorder {
    var objectiveFunctionCoefficients: seq<real>
    var objective: Goal
    var constraints: seq<LinearConstraint>
    var nonNegative: bool
    const constraintNameFactory: ConstrainNameFactory

    /** The names handed out so far are `c1` .. `cn`, and the factory's
        next name follows them. */
    ghost predicate Valid()
      reads this, constraintNameFactory
    {
      constraintNameFactory.prefix == "c"
      && constraintNameFactory.idx == |constraints| + 1
      && forall i :: 0 <= i < |constraints| ==> constraints[i].name == "c" + NatToString(i + 1)
    }

    function State(): Settings
      reads this
    {
      Settings(objectiveFunctionCoefficients, objective, constraints, nonNegative)
    }

    constructor(constraintNameFactory: ConstrainNameFactory)
      requires constraintNameFactory.prefix == "c" && constraintNameFactory.idx == 1
      ensures this.constraintNameFactory == constraintNameFactory
      ensures State() == InitialSettings() && Valid()
    {
      this.constraintNameFactory := constraintNameFactory;
      objectiveFunctionCoefficients := [];
      objective := Minimize;
      constraints := [];
      nonNegative := false;
    }

    method SetObjectiveFunction(coefficients: seq<real>, goal: Goal)
      requires Valid()
      modifies this
      ensures Valid()
      ensures State() == old(State()).(objectiveFunctionCoefficients := coefficients, objective := goal)
    {
      objectiveFunctionCoefficients := coefficients;
      objective := goal;
    }

    /** The shared body of the three constraint methods. */
    method AddConstraint(relation: Relation, coefficients: seq<real>, value: real)
      requires Valid()
      modifies this, constraintNameFactory
      ensures Valid()
      ensures State() == old(State()).(constraints := old(constraints)
                  + [LinearConstraint(relation, coefficients, value, "c" + NatToString(|old(constraints)| + 1))])
    {
      var name := constraintNameFactory.Next();
      constraints := constraints + [LinearConstraint(relation, coefficients, value, name)];
    }

    method AddNonNegativityConstraint()
      requires Valid()
      modifies this
      ensures Valid()
      ensures State() == old(State()).(nonNegative := true)
    {
      nonNegative := true;
    }

    /** Performs one recorded builder call. */
    method Apply(call: BuilderCall)
      requires Valid()
      modifies this, constraintNameFactory
      ensures Valid()
      ensures State() == Step(old(State()), call)
    {
      match call {
        case SetObjectiveFunction(coefficients, goal) =>
          SetObjectiveFunction(coefficients, goal);
        case AddSmallerThanEqualsConstraint(coefficients, value) =>
          AddConstraint(SmallerThanEquals, coefficients, value);
        case AddBiggerThanEqualsConstraint(coefficients, value) =>
          AddConstraint(BiggerThanEquals, coefficients, value);
        case AddEqualsConstraint(coefficients, value) =>
          AddConstraint(Equals, coefficients, value);
        case AddNonNegativityConstraint =>
          AddNonNegativityConstraint();
      }
    }
  }

  /** `solveLPProblem(builder)` up to the solver call: a fresh name factory
      with prefix "c", a fresh recorder, the builder's calls applied in
      order, and the linear program built from the recorded fields. */
  method SolveLPProblem(builder: seq<BuilderCall>) returns (problem: LinearProgram)
    ensures problem == ProblemOf(ReplayFrom(InitialSettings(), builder))
  {
    var constraintNameFactory := new ConstrainNameFactory("c");
    var settings := new ProblemRecorder(constraintNameFactory);
    var i := 0;
    while i < |builder|
      invariant 0 <= i <= |builder|
      invariant settings.Valid()
      invariant settings.State() == ReplayFrom(InitialSettings(), builder[..i])
    {
      assert builder[..i + 1][..i] == builder[..i];
      settings.Apply(builder[i]);
      i := i + 1;
    }
    assert builder[..i] == builder;
    var lowerbound := if settings.nonNegative then Some(seq(|settings.objectiveFunctionCoefficients|, _ => 0.0)) else None;
    problem := LinearProgram(settings.objectiveFunctionCoefficients, settings.objective == Minimize,
                             settings.constraints, lowerbound);
  }

  // ---------------------------------------------------------------------
  // What the recorded program holds

  /** Replaying calls in two parts replays them in one. */
  lemma {:induction false} ReplayAppend(st: Settings, a: seq<BuilderCall>, b: seq<BuilderCall>)
    ensures ReplayFrom(st, a + b) == ReplayFrom(ReplayFrom(st, a), b)
    decreases |b|
  {
    if |b| == 0 {
      assert a + b == a;
    } else {
      assert (a + b)[..|a + b| - 1] == a + b[..|b| - 1];
      ReplayAppend(st, a, b[..|b| - 1]);
    }
  }

  /** Constraint calls append their constraints, in call order, numbered
      on from the ones already recorded, and change nothing else. */
  lemma {:induction false} ReplayConstraintCalls(st: Settings, calls: seq<BuilderCall>)
    requires forall i :: 0 <= i < |calls| ==> IsConstraintCall(calls[i])
    ensures ReplayFrom(st, calls).objectiveFunctionCoefficients == st.objectiveFunctionCoefficients
    ensures ReplayFrom(st, calls).objective == st.objective
    ensures ReplayFrom(st, calls).nonNegative == st.nonNegative
    ensures |ReplayFrom(st, calls).constraints| == |st.constraints| + |calls|
    ensures ReplayFrom(st, calls).constraints[..|st.constraints|] == st.constraints
    ensures forall i :: 0 <= i < |calls| ==>
              ReplayFrom(st, calls).constraints[|st.constraints| + i] == ToConstraint(calls[i], |st.constraints| + i + 1)
    decreases |calls|
  {
    if |calls| > 0 {
      var init := calls[..|calls| - 1];
      ReplayConstraintCalls(st, init);
      var prev := ReplayFrom(st, init);
      var cs := ReplayFrom(st, calls).constraints;
      assert cs == prev.constraints + [ToConstraint(calls[|calls| - 1], |prev.constraints| + 1)];
      assert cs[..|st.constraints|] == prev.constraints[..|st.constraints|];
      forall i | 0 <= i < |calls|
        ensures cs[|st.constraints| + i] == ToConstraint(calls[i], |st.constraints| + i + 1)
      {
        if i < |calls| - 1 {
          assert calls[i] == init[i];
        }
      }
    }
  }

  /** Every name in a replayed program is `c` followed by its position, so
      no two constraints share a name. */
  lemma {:induction false} ReplayNames(calls: seq<BuilderCall>)
    ensures forall i :: 0 <= i < |ReplayFrom(InitialSettings(), calls).constraints| ==>
              ReplayFrom(InitialSettings(), calls).constraints[i].name == "c" + NatToString(i + 1)
    ensures forall i, j :: 0 <= i < j < |ReplayFrom(InitialSettings(), calls).constraints| ==>
              ReplayFrom(InitialSettings(), calls).constraints[i].name
              != ReplayFrom(InitialSettings(), calls).constraints[j].name
    decreases |calls|
  {
    if |calls| > 0 {
      ReplayNames(calls[..|calls| - 1]);
    }
    var cs := ReplayFrom(InitialSettings(), calls).constraints;
    forall i, j | 0 <= i < j < |cs| ensures cs[i].name != cs[j].name {
      PrefixedNamesDistinct("c", i + 1, j + 1);
    }
  }

  /** The problem is non-negative exactly when the builder asked for it. */
  lemma {:induction false} ReplayNonNegative(st: Settings, calls: seq<BuilderCall>)
    ensures ReplayFrom(st, calls).nonNegative <==> st.nonNegative || AddNonNegativityConstraint in calls
    decreases |calls|
  {
    if |calls| > 0 {
      var init := calls[..|calls| - 1];
      ReplayNonNegative(st, init);
      assert calls == init + [calls[|calls| - 1]];
      assert AddNonNegativityConstraint in calls <==> AddNonNegativityConstraint in init || calls[|calls| - 1] == AddNonNegativityConstraint;
    }
  }

  /** The program `solve` builds becomes a minimisation over its objective
      with constraints `c1`, `c2`, ... in call order, and a zero lower
      bound on every variable. */
  lemma ProblemOfSolve(program: seq<BuilderCall>, objective: seq<real>, sourceCount: nat,
                       destinationCount: nat, t: nat, maxSourcesPerDestination: int)
    requires destinationCount > 0
    requires IsProgram(program, objective, sourceCount, destinationCount, t, maxSourcesPerDestination)
    ensures var p := ProblemOf(ReplayFrom(InitialSettings(), program));
            p.coefficients == objective && p.isMinProblem
            && |p.constraints| == sourceCount + 2 * destinationCount
            && (forall i :: 0 <= i < |p.constraints| ==>
                  IsConstraintCall(program[i + 1]) && p.constraints[i] == ToConstraint(program[i + 1], i + 1))
            && p.lowerbound == Some(seq(|objective|, _ => 0.0))
  {
    MiddleAreConstraints(program, objective, sourceCount, destinationCount, t, maxSourcesPerDestination);
    ReplayShape(program, objective);
  }

  /** A program that sets a minimisation objective, adds constraints and
      ends with non-negativity becomes that minimisation with constraints
      `c1`, `c2`, ... in call order and a zero lower bound. */
  lemma ReplayShape(program: seq<BuilderCall>, objective: seq<real>)
    requires |program| >= 2
    requires program[0] == SetObjectiveFunction(objective, Minimize)
    requires program[|program| - 1] == AddNonNegativityConstraint
    requires forall i :: 1 <= i < |program| - 1 ==> IsConstraintCall(program[i])
    ensures var p := ProblemOf(ReplayFrom(InitialSettings(), program));
            p.coefficients == objective && p.isMinProblem
            && |p.constraints| == |program| - 2
            && (forall i :: 0 <= i < |p.constraints| ==> p.constraints[i] == ToConstraint(program[i + 1], i + 1))
            && p.lowerbound == Some(seq(|objective|, _ => 0.0))
  {
    var prefix := program[..|program| - 1];
    ReplayPrefix(prefix, objective);
    assert forall i :: 1 <= i < |program| - 1 ==> prefix[i] == program[i];
  }

  /** The replay of the objective call followed by constraint calls only:
      a minimisation over the objective whose constraints are those calls
      in order, without a lower bound yet. */
  lemma ReplayPrefix(calls: seq<BuilderCall>, objective: seq<real>)
    requires |calls| >= 1
    requires calls[0] == SetObjectiveFunction(objective, Minimize)
    requires forall i :: 1 <= i < |calls| ==> IsConstraintCall(calls[i])
    ensures var st := ReplayFrom(InitialSettings(), calls);
            st.objectiveFunctionCoefficients == objective && st.objective == Minimize && !st.nonNegative
            && |st.constraints| == |calls| - 1
            && forall i :: 0 <= i < |calls| - 1 ==> st.constraints[i] == ToConstraint(calls[i + 1], i + 1)
  {
    var rest := calls[1..];
    var st0 := Settings(objective, Minimize, [], false);
    assert ReplayFrom(InitialSettings(), calls) == ReplayFrom(st0, rest) by {
      assert calls == [calls[0]] + rest;
      ReplayObjective(objective);
      ReplayAppend(InitialSettings(), [calls[0]], rest);
    }
    ReplayConstraintCalls(st0, rest);
  }

  /** Setting the objective first gives a minimisation with no constraints. */
  lemma ReplayObjective(objective: seq<real>)
    ensures ReplayFrom(InitialSettings(), [SetObjectiveFunction(objective, Minimize)])
            == Settings(objective, Minimize, [], false)
  {
    assert [SetObjectiveFunction(objective, Minimize)][..0] == [];
  }

  /** Between the objective and the non-negativity call, `solve` only adds
      constraints. */
  lemma MiddleAreConstraints(program: seq<BuilderCall>, objective: seq<real>, sourceCount: nat,
                             destinationCount: nat, t: nat, maxSourcesPerDestination: int)
    requires destinationCount > 0
    requires IsProgram(program, objective, sourceCount, destinationCount, t, maxSourcesPerDestination)
    ensures forall i :: 1 <= i < |program| - 1 ==> IsConstraintCall(program[i])
  {
    forall i | 1 <= i < |program| - 1 ensures IsConstraintCall(program[i]) {
      var j := i - 1;
      if j < sourceCount {
        assert program[1 + j] == AddEqualsConstraint(SourceRow(sourceCount, t, j), 1.0);
      } else {
        var d := (j - sourceCount) / 2;
        assert 0 <= d < destinationCount;
        if j == sourceCount + 2 * d {
          assert program[1 + sourceCount + 2 * d]
                 == AddSmallerThanEqualsConstraint(DestinationRow(sourceCount, t, d), maxSourcesPerDestination as real);
        } else {
          assert j == sourceCount + 2 * d + 1;
          assert program[2 + sourceCount + 2 * d]
                 == AddBiggerThanEqualsConstraint(DestinationRow(sourceCount, t, d),
                                                  MinPerDestination(sourceCount, destinationCount));
        }
      }
    }
  }
}
