/** The camera/target assignment encoded as a linear program
    (AbstractLinpro.kt): each source (a camera) is assigned to exactly one
    destination (a target) or to a fake destination that absorbs the
    sources the real ones cannot take, each real destination takes at most
    `maxSourcesPerDestination` sources, and the total cost is minimised.
    The variable of the pair (source `s`, destination `d`) sits at index
    `s * totalDestinations + d`. Solving the program is not part of this
    model: `Solve` returns the builder calls it makes and takes the
    solver's solution vector as an input. Kotlin `Double` is `real`. */
module AbstractLinpro {

  /** `LPProblemBuilder.GOAL`. */
  datatype Goal = Minimize | Maximize

  /** One call made on an `LPProblemBuilder`, recorded as data. */
  datatype BuilderCall =
    | SetObjectiveFunction(coefficients: seq<real>, goal: Goal)
    | AddSmallerThanEqualsConstraint(coefficients: seq<real>, value: real)
    | AddBiggerThanEqualsConstraint(coefficients: seq<real>, value: real)
    | AddEqualsConstraint(coefficients: seq<real>, value: real)
    | AddNonNegativityConstraint

  // ---------------------------------------------------------------------
  // Index arithmetic of the variable layout

  lemma MulLeftMono(a: nat, b: nat, t: nat)
    requires a <= b
    ensures a * t <= b * t
  {
  }

  /** The variable of (s, d) lies inside the vector. */
  lemma IndexBound(s: nat, d: nat, t: nat, n: nat)
    requires s < n && d < t
    ensures s * t + d < n * t
  {
    MulLeftMono(s + 1, n, t);
  }

  /** The `t` variables of source `s` lie inside the vector. */
  lemma RowBound(s: nat, t: nat, n: nat)
    requires s < n
    ensures s * t + t <= n * t
  {
    MulLeftMono(s + 1, n, t);
  }

  /** The variable of (s, d) is found again by division and remainder. */
  lemma DivMod(s: nat, d: nat, t: nat)
    requires d < t
    ensures (s * t + d) / t == s && (s * t + d) % t == d
  {
    var k := s * t + d;
    var q, r := k / t, k % t;
    assert t * q + r == t * s + d;
    if q > s {
      MulLeftMono(1, q - s, t);
    } else if q < s {
      MulLeftMono(1, s - q, t);
    }
  }

  /** A variable is determined by its source and its destination. */
  lemma SameSlot(k: nat, s: nat, d: nat, t: nat)
    requires t > 0 && k / t == s && k % t == d
    ensures k == s * t + d
  {
  }

  /** Every index of the vector belongs to one of the `n` sources. */
  lemma DivBound(k: nat, t: nat, n: nat)
    requires t > 0 && k < n * t
    ensures k / t < n
  {
    if k / t >= n {
      MulLeftMono(n, k / t, t);
    }
  }

  // ---------------------------------------------------------------------
  // The program `solve` builds

  /** `hasFakeDestination` as intended: the sources outnumber the total
      capacity of the real destinations. */
  predicate HasFakeDestination(sourceCount: nat, destinationCount: nat, maxSourcesPerDestination: int)
  {
    sourceCount > maxSourcesPerDestination * destinationCount
  }

  /** `totalDestinations`: the real destinations plus the fake one, if any. */
  function TotalDestinations(sourceCount: nat, destinationCount: nat, maxSourcesPerDestination: int): (t: nat)
    ensures t == destinationCount || t == destinationCount + 1
    ensures t == destinationCount + 1 <==> HasFakeDestination(sourceCount, destinationCount, maxSourcesPerDestination)
  {
    if HasFakeDestination(sourceCount, destinationCount, maxSourcesPerDestination) then destinationCount + 1
    else destinationCount
  }

  /** `max(m, c)` as the loop computes it: `c` replaces `m` only when larger. */
  function Raise(m: real, c: real): real
  {
    if c > m then c else m
  }

  /** The running maximum of the loop over (source, destination) pairs:
      0 raised by the cost of every pair before `(s, d)` in row-major order. */
  function CostsMaxBefore<S, D>(sources: seq<S>, destinations: seq<D>, cost: (S, D) -> real, s: nat, d: nat): real
    requires (s < |sources| && d <= |destinations|) || (s == |sources| && d == 0)
    decreases s, d
  {
    if d > 0 then Raise(CostsMaxBefore(sources, destinations, cost, s, d - 1), cost(sources[s], destinations[d - 1]))
    else if s > 0 then CostsMaxBefore(sources, destinations, cost, s - 1, |destinations|)
    else 0.0
  }

  /** `maxCost` once every pair has been visited. */
  function MaxCost<S, D>(sources: seq<S>, destinations: seq<D>, cost: (S, D) -> real): real
  {
    CostsMaxBefore(sources, destinations, cost, |sources|, 0)
  }

  /** The objective coefficient of variable `k`: the cost of its pair for a
      real destination, `fake` in the fake destination's column. */
  function ObjectiveEntry<S, D>(sources: seq<S>, destinations: seq<D>, cost: (S, D) -> real,
                                 t: nat, fake: real, k: nat): real
    requires |destinations| <= t && k < |sources| * t
  {
    DivBound(k, t, |sources|);
    if k % t < |destinations| then cost(sources[k / t], destinations[k % t]) else fake
  }

  /** The objective vector of `solve`. */
  function Objective<S, D>(sources: seq<S>, destinations: seq<D>, cost: (S, D) -> real, t: nat): (o: seq<real>)
    requires |destinations| <= t
    ensures |o| == |sources| * t
  {
    seq(|sources| * t, k requires 0 <= k < |sources| * t
      => ObjectiveEntry(sources, destinations, cost, t, 2.0 * MaxCost(sources, destinations, cost), k))
  }

  /** The coefficients of the equality constraint of source `s`. */
  function SourceRow(sourceCount: nat, t: nat, s: nat): (row: seq<real>)
    ensures |row| == sourceCount * t
  {
    seq(sourceCount * t, k requires 0 <= k < sourceCount * t => if s * t <= k < s * t + t then 1.0 else 0.0)
  }

  /** The coefficients of the two capacity constraints of destination `d`. */
  function DestinationRow(sourceCount: nat, t: nat, d: nat): (row: seq<real>)
    ensures |row| == sourceCount * t
  {
    seq(sourceCount * t, k requires 0 <= k < sourceCount * t => if t > 0 && k % t == d then 1.0 else 0.0)
  }

  /** `min(1.0, floor(|S| / |D|))`. */
  function MinPerDestination(sourceCount: nat, destinationCount: nat): (m: real)
    requires destinationCount > 0
    ensures m == (if sourceCount >= destinationCount then 1.0 else 0.0)
  {
    var q := (sourceCount / destinationCount) as real;
    if 1.0 < q then 1.0 else q
  }

  /** The builder calls of `solve`, in order: the objective, one equality
      per source, two capacity bounds per real destination, then
      non-negativity. */
  predicate IsProgram(program: seq<BuilderCall>, objective: seq<real>, sourceCount: nat,
                      destinationCount: nat, t: nat, maxSourcesPerDestination: int)
    requires destinationCount > 0
  {
    |program| == sourceCount + 2 * destinationCount + 2
    && program[0] == SetObjectiveFunction(objective, Minimize)
    && (forall s :: 0 <= s < sourceCount ==>
          program[1 + s] == AddEqualsConstraint(SourceRow(sourceCount, t, s), 1.0))
    && (forall d :: 0 <= d < destinationCount ==>
          program[1 + sourceCount + 2 * d]
          == AddSmallerThanEqualsConstraint(DestinationRow(sourceCount, t, d), maxSourcesPerDestination as real)
          && program[2 + sourceCount + 2 * d]
          == AddBiggerThanEqualsConstraint(DestinationRow(sourceCount, t, d),
                                           MinPerDestination(sourceCount, destinationCount)))
    && program[|program| - 1] == AddNonNegativityConstraint
  }

  /** The map decoded from the first `|solution|` entries: every positive
      entry in a real destination's column assigns its source to that
      destination, a later entry overwriting an earlier one. */
  function Decoded<S, D>(sources: seq<S>, destinations: seq<D>, t: nat, solution: seq<real>): (m: map<S, D>)
    requires |destinations| <= t && |solution| <= |sources| * t
    ensures forall x :: x in m ==> x in sources
    ensures forall x :: x in m ==> m[x] in destinations
  {
    if |solution| == 0 then map[]
    else
      var k := |solution| - 1;
      var m := Decoded(sources, destinations, t, solution[..k]);
      DivBound(k, t, |sources|);
      if solution[k] > 0.0 && k % t < |destinations| then m[sources[k / t] := destinations[k % t]] else m
  }

  // ---------------------------------------------------------------------
  // `solve`

  /** The first loop of the `also` block of `solve`: writes the cost of
      every pair at its variable, leaves the fake destination's column at
      0 and keeps the largest cost seen. */
  method FillCosts<S, D>(sources: seq<S>, destinations: seq<D>, cost: (S, D) -> real, t: nat)
    returns (coefficients: array<real>, maxCost: real)
    requires t == |destinations| || t == |destinations| + 1
    ensures fresh(coefficients) && coefficients.Length == |sources| * t
    ensures maxCost == MaxCost(sources, destinations, cost)
    ensures forall k :: 0 <= k < |sources| * t ==>
              coefficients[k] == ObjectiveEntry(sources, destinations, cost, t, 0.0, k)
  {
    var n, m := |sources|, |destinations|;
    maxCost := 0.0;
    coefficients := new real[n * t](_ => 0.0);
    var i := 0;
    var src := 0;
    while src < n
      invariant 0 <= src <= n && i == src * t
      invariant maxCost == CostsMaxBefore(sources, destinations, cost, src, 0)
      invariant CostsFilled(coefficients[..], sources, destinations, cost, t, i)
    {
      var dest := 0;
      while dest < m
        invariant 0 <= dest <= m && i == src * t + dest
        invariant maxCost == CostsMaxBefore(sources, destinations, cost, src, dest)
        invariant CostsFilled(coefficients[..], sources, destinations, cost, t, i)
      {
        var thisCost := cost(sources[src], destinations[dest]);
        if thisCost > maxCost {
          maxCost := thisCost;
        }
        ghost var before := coefficients[..];
        CostStep(before, sources, destinations, cost, t, src, dest);
        coefficients[i] := thisCost;
        assert coefficients[..] == before[i := thisCost];
        i := i + 1;
        dest := dest + 1;
      }
      if t > m {
        SkipFake(coefficients[..], sources, destinations, cost, t, src);
        i := i + 1;
      }
      MulSucc(src, t);
      src := src + 1;
    }
  }

  /** Entries from `i` on are still 0; those before `i` are their pair's
      cost, or 0 in the fake destination's column. */
  ghost predicate CostsFilled<S, D>(row: seq<real>, sources: seq<S>, destinations: seq<D>, cost: (S, D) -> real,
                                    t: nat, i: nat)
    requires |destinations| <= t
  {
    |row| == |sources| * t && i <= |row|
    && (forall k :: 0 <= k < i ==> row[k] == ObjectiveEntry(sources, destinations, cost, t, 0.0, k))
    && (forall k :: i <= k < |row| ==> row[k] == 0.0)
  }

  lemma CostStep<S, D>(row: seq<real>, sources: seq<S>, destinations: seq<D>, cost: (S, D) -> real,
                       t: nat, src: nat, dest: nat)
    requires |destinations| <= t && src < |sources| && dest < |destinations|
    requires CostsFilled(row, sources, destinations, cost, t, src * t + dest)
    ensures src * t + dest < |row|
    ensures CostsFilled(row[src * t + dest := cost(sources[src], destinations[dest])],
                        sources, destinations, cost, t, src * t + dest + 1)
  {
    IndexBound(src, dest, t, |sources|);
    DivMod(src, dest, t);
  }

  lemma SkipFake<S, D>(row: seq<real>, sources: seq<S>, destinations: seq<D>, cost: (S, D) -> real,
                       t: nat, src: nat)
    requires |destinations| < t && src < |sources|
    requires CostsFilled(row, sources, destinations, cost, t, src * t + |destinations|)
    ensures CostsFilled(row, sources, destinations, cost, t, src * t + |destinations| + 1)
  {
    IndexBound(src, |destinations|, t, |sources|);
    DivMod(src, |destinations|, t);
  }

  lemma MulSucc(a: nat, t: nat)
    ensures (a + 1) * t == a * t + t
  {
  }

  /** The second loop of the `also` block: twice the largest cost in the
      fake destination's column of every source. */
  method FillFakeColumn<S, D>(coefficients: array<real>, sources: seq<S>, destinations: seq<D>,
                              cost: (S, D) -> real, maxCost: real)
    requires coefficients.Length == |sources| * (|destinations| + 1)
    requires maxCost == MaxCost(sources, destinations, cost)
    requires forall k :: 0 <= k < coefficients.Length ==>
               coefficients[k] == ObjectiveEntry(sources, destinations, cost, |destinations| + 1, 0.0, k)
    modifies coefficients
    ensures coefficients[..] == Objective(sources, destinations, cost, |destinations| + 1)
  {
    var n, m, t := |sources|, |destinations|, |destinations| + 1;
    FakeFilledStart(coefficients[..], sources, destinations, cost, maxCost * 2.0);
    var src := 0;
    while src < n
      invariant 0 <= src <= n
      invariant FakeFilled(coefficients[..], sources, destinations, cost, maxCost * 2.0, src)
    {
      IndexBound(src, m, t, n);
      ghost var before := coefficients[..];
      coefficients[src * t + m] := maxCost * 2.0;
      assert coefficients[..] == before[src * t + m := maxCost * 2.0];
      FakeStep(before, sources, destinations, cost, maxCost * 2.0, src);
      src := src + 1;
    }
    FakeFilledObjective(coefficients[..], sources, destinations, cost);
  }

  /** The fake destination's column holds `fake` for the sources before
      `src` and 0 for the others; every other entry is its pair's cost. */
  ghost predicate FakeFilled<S, D>(row: seq<real>, sources: seq<S>, destinations: seq<D>, cost: (S, D) -> real,
                                   fake: real, src: nat)
  {
    |row| == |sources| * (|destinations| + 1)
    && forall k :: 0 <= k < |row| ==>
         row[k] == ObjectiveEntry(sources, destinations, cost, |destinations| + 1,
                                  if k / (|destinations| + 1) < src then fake else 0.0, k)
  }

  lemma FakeFilledStart<S, D>(row: seq<real>, sources: seq<S>, destinations: seq<D>, cost: (S, D) -> real,
                              fake: real)
    requires |row| == |sources| * (|destinations| + 1)
    requires forall k :: 0 <= k < |row| ==>
               row[k] == ObjectiveEntry(sources, destinations, cost, |destinations| + 1, 0.0, k)
    ensures FakeFilled(row, sources, destinations, cost, fake, 0)
  {
  }

  lemma FakeStep<S, D>(row: seq<real>, sources: seq<S>, destinations: seq<D>, cost: (S, D) -> real,
                       fake: real, src: nat)
    requires src < |sources|
    requires FakeFilled(row, sources, destinations, cost, fake, src)
    ensures src * (|destinations| + 1) + |destinations| < |row|
    ensures FakeFilled(row[src * (|destinations| + 1) + |destinations| := fake], sources, destinations, cost, fake, src + 1)
  {
    var m, t := |destinations|, |destinations| + 1;
    IndexBound(src, m, t, |sources|);
    DivMod(src, m, t);
    var slot := src * t + m;
    var next := row[slot := fake];
    forall k | 0 <= k < |next|
      ensures next[k] == ObjectiveEntry(sources, destinations, cost, t, if k / t < src + 1 then fake else 0.0, k)
    {
      if k != slot && k / t == src {
        if k % t == m {
          SameSlot(k, src, m, t);
        }
      }
    }
  }

  lemma FakeFilledObjective<S, D>(row: seq<real>, sources: seq<S>, destinations: seq<D>, cost: (S, D) -> real)
    requires FakeFilled(row, sources, destinations, cost, MaxCost(sources, destinations, cost) * 2.0, |sources|)
    ensures row == Objective(sources, destinations, cost, |destinations| + 1)
  {
    var t := |destinations| + 1;
    forall k | 0 <= k < |row| ensures row[k] == Objective(sources, destinations, cost, t)[k] {
      DivBound(k, t, |sources|);
    }
  }

  /** The `also` block of `solve`: the objective vector and the largest cost. */
  method ObjectiveCoefficients<S, D>(sources: seq<S>, destinations: seq<D>, cost: (S, D) -> real, hasFakeDestination: bool)
    returns (coefficients: array<real>, maxCost: real)
    ensures fresh(coefficients)
    ensures maxCost == MaxCost(sources, destinations, cost)
    ensures coefficients[..] == Objective(sources, destinations, cost,
                                          if hasFakeDestination then |destinations| + 1 else |destinations|)
  {
    var t := if hasFakeDestination then |destinations| + 1 else |destinations|;
    coefficients, maxCost := FillCosts(sources, destinations, cost, t);
    if hasFakeDestination {
      FillFakeColumn(coefficients, sources, destinations, cost, maxCost);
    } else {
      assert forall k :: 0 <= k < coefficients.Length ==>
               coefficients[k] == Objective(sources, destinations, cost, t)[k];
    }
  }

  /** The coefficients `solve` builds for the equality constraint of source
      `srcIdx`: ones over that source's `t` variables. */
  method SourceCoefficients(sourceCount: nat, t: nat, srcIdx: nat) returns (coefficients: array<real>)
    requires srcIdx < sourceCount
    ensures fresh(coefficients)
    ensures coefficients[..] == SourceRow(sourceCount, t, srcIdx)
  {
    var size, base := sourceCount * t, srcIdx * t;
    coefficients := new real[size](_ => 0.0);
    RowBound(srcIdx, t, sourceCount);
    var dstIdx := 0;
    while dstIdx < t
      invariant 0 <= dstIdx <= t
      invariant forall k :: 0 <= k < size ==> coefficients[k] == if base <= k < base + dstIdx then 1.0 else 0.0
    {
      coefficients[base + dstIdx] := 1.0;
      dstIdx := dstIdx + 1;
    }
    IsSourceRow(coefficients[..], sourceCount, t, srcIdx);
  }

  lemma IsSourceRow(row: seq<real>, sourceCount: nat, t: nat, s: nat)
    requires |row| == sourceCount * t
    requires forall k :: 0 <= k < |row| ==> row[k] == if s * t <= k < s * t + t then 1.0 else 0.0
    ensures row == SourceRow(sourceCount, t, s)
  {
  }

  /** The coefficients `solve` builds for the two capacity constraints of
      destination `dstIdx`: ones at that destination's variable of every
      source. */
  method DestinationCoefficients(sourceCount: nat, t: nat, dstIdx: nat) returns (coefficients: array<real>)
    requires dstIdx < t
    ensures fresh(coefficients)
    ensures coefficients[..] == DestinationRow(sourceCount, t, dstIdx)
  {
    coefficients := new real[sourceCount * t](_ => 0.0);
    var srcIdx := 0;
    while srcIdx < sourceCount
      invariant 0 <= srcIdx <= sourceCount
      invariant forall k :: 0 <= k < sourceCount * t ==>
                  coefficients[k] == if k % t == dstIdx && k / t < srcIdx then 1.0 else 0.0
    {
      IndexBound(srcIdx, dstIdx, t, sourceCount);
      DivMod(srcIdx, dstIdx, t);
      forall k | 0 <= k < sourceCount * t && k % t == dstIdx && k / t == srcIdx
        ensures k == srcIdx * t + dstIdx
      {
        SameSlot(k, srcIdx, dstIdx, t);
      }
      coefficients[srcIdx * t + dstIdx] := 1.0;
      srcIdx := srcIdx + 1;
    }
    forall k | 0 <= k < sourceCount * t
      ensures coefficients[k] == DestinationRow(sourceCount, t, dstIdx)[k]
    {
      DivBound(k, t, sourceCount);
    }
  }

  /** The builder block passed to `solveLPProblem`, as the calls it makes. */
  method DescribeProblem(objective: seq<real>, sourceCount: nat, destinationCount: nat, t: nat,
                         maxSourcesPerDestination: int) returns (calls: seq<BuilderCall>)
    requires 0 < destinationCount <= t
    ensures IsProgram(calls, objective, sourceCount, destinationCount, t, maxSourcesPerDestination)
  {
    calls := [SetObjectiveFunction(objective, Minimize)];
    var srcIdx := 0;
    while srcIdx < sourceCount
      invariant 0 <= srcIdx <= sourceCount && |calls| == 1 + srcIdx
      invariant calls[0] == SetObjectiveFunction(objective, Minimize)
      invariant forall s :: 0 <= s < srcIdx ==>
                  calls[1 + s] == AddEqualsConstraint(SourceRow(sourceCount, t, s), 1.0)
    {
      var coefficients := SourceCoefficients(sourceCount, t, srcIdx);
      calls := calls + [AddEqualsConstraint(coefficients[..], 1.0)];
      srcIdx := srcIdx + 1;
    }
    var minAm := MinPerDestination(sourceCount, destinationCount);
    var dstIdx := 0;
    while dstIdx < destinationCount
      invariant 0 <= dstIdx <= destinationCount && |calls| == 1 + sourceCount + 2 * dstIdx
      invariant calls[0] == SetObjectiveFunction(objective, Minimize)
      invariant forall s :: 0 <= s < sourceCount ==>
                  calls[1 + s] == AddEqualsConstraint(SourceRow(sourceCount, t, s), 1.0)
      invariant forall d :: 0 <= d < dstIdx ==>
                  calls[1 + sourceCount + 2 * d]
                  == AddSmallerThanEqualsConstraint(DestinationRow(sourceCount, t, d), maxSourcesPerDestination as real)
                  && calls[2 + sourceCount + 2 * d]
                  == AddBiggerThanEqualsConstraint(DestinationRow(sourceCount, t, d), minAm)
    {
      var coefficients := DestinationCoefficients(sourceCount, t, dstIdx);
      calls := calls + [AddSmallerThanEqualsConstraint(coefficients[..], maxSourcesPerDestination as real)];
      calls := calls + [AddBiggerThanEqualsConstraint(coefficients[..], minAm)];
      dstIdx := dstIdx + 1;
    }
    calls := calls + [AddNonNegativityConstraint];
  }

  /** The `forEachIndexed` loop at the end of `solve`: reads the solution
      vector back into a map from sources to destinations. */
  method DecodeSolution<S(==), D>(sources: seq<S>, destinations: seq<D>, totalDestinations: nat, solution: seq<real>)
    returns (sourceToDestination: map<S, D>)
    requires 0 < |destinations| <= totalDestinations && |solution| == |sources| * totalDestinations
    ensures sourceToDestination == Decoded(sources, destinations, totalDestinations, solution)
  {
    sourceToDestination := map[];
    var idx := 0;
    while idx < |solution|
      invariant 0 <= idx <= |solution|
      invariant sourceToDestination == Decoded(sources, destinations, totalDestinations, solution[..idx])
    {
      assert solution[..idx + 1][..idx] == solution[..idx];
      DivBound(idx, totalDestinations, |sources|);
      if solution[idx] > 0.0 && idx % totalDestinations < |destinations| {
        var source := sources[idx / totalDestinations];
        sourceToDestination := sourceToDestination[source := destinations[idx % totalDestinations]];
      }
      idx := idx + 1;
    }
    assert solution[..idx] == solution;
  }

  /** Whether `solve` gets past its guard: some source, some destination
      and a positive capacity. */
  predicate Solvable<S, D>(sources: seq<S>, destinations: seq<D>, maxSourcesPerDestination: int)
  {
    |sources| > 0 && |destinations| > 0 && maxSourcesPerDestination > 0
  }

  /** `solve(sources, destinations, maxSourcesPerDestination, cost)`, with
      the vector the solver returns for the program given as `solution`.
      Past the guard it returns the builder calls it made, which make up
      the program described by `IsProgram`, and the decoded assignment. */
  method Solve<S(==), D>(sources: seq<S>, destinations: seq<D>, maxSourcesPerDestination: int,
                         cost: (S, D) -> real, solution: seq<real>)
    returns (program: seq<BuilderCall>, sourceToDestination: map<S, D>)
    requires Solvable(sources, destinations, maxSourcesPerDestination) ==>
               |solution| == |sources| * TotalDestinations(|sources|, |destinations|, maxSourcesPerDestination)
    ensures !Solvable(sources, destinations, maxSourcesPerDestination) ==> program == [] && sourceToDestination == map[]
    ensures Solvable(sources, destinations, maxSourcesPerDestination) ==>
              var t := TotalDestinations(|sources|, |destinations|, maxSourcesPerDestination);
              IsProgram(program, Objective(sources, destinations, cost, t), |sources|, |destinations|, t,
                        maxSourcesPerDestination)
              && sourceToDestination == Decoded(sources, destinations, t, solution)
  {
    if |sources| == 0 || |destinations| == 0 || maxSourcesPerDestination <= 0 {
      return [], map[];
    }
    var hasFakeDestination := |sources| > maxSourcesPerDestination * |destinations|;
    var totalDestinations := if hasFakeDestination then |destinations| + 1 else |destinations|;
    assert totalDestinations == TotalDestinations(|sources|, |destinations|, maxSourcesPerDestination);
    assert |solution| == |sources| * totalDestinations;
    var objectiveFunctionCoefficients, maxCost := ObjectiveCoefficients(sources, destinations, cost, hasFakeDestination);
    program := DescribeProblem(objectiveFunctionCoefficients[..], |sources|, |destinations|, totalDestinations,
                               maxSourcesPerDestination);
    sourceToDestination := DecodeSolution(sources, destinations, totalDestinations, solution);
  }

  // ---------------------------------------------------------------------
  // What the program and the decoding mean

  lemma {:induction false} CostsMaxBeforeBounds<S, D>(sources: seq<S>, destinations: seq<D>, cost: (S, D) -> real, s: nat, d: nat)
    requires (s < |sources| && d <= |destinations|) || (s == |sources| && d == 0)
    ensures CostsMaxBefore(sources, destinations, cost, s, d) >= 0.0
    ensures forall i, j :: 0 <= i < s && 0 <= j < |destinations| ==>
              CostsMaxBefore(sources, destinations, cost, s, d) >= cost(sources[i], destinations[j])
    ensures forall j :: 0 <= j < d ==> CostsMaxBefore(sources, destinations, cost, s, d) >= cost(sources[s], destinations[j])
    ensures CostsMaxBefore(sources, destinations, cost, s, d) == 0.0
            || exists i, j :: 0 <= i < |sources| && 0 <= j < |destinations|
                              && CostsMaxBefore(sources, destinations, cost, s, d) == cost(sources[i], destinations[j])
    decreases s, d
  {
    if d > 0 {
      CostsMaxBeforeBounds(sources, destinations, cost, s, d - 1);
    } else if s > 0 {
      CostsMaxBeforeBounds(sources, destinations, cost, s - 1, |destinations|);
    }
  }

  /** `maxCost` is the largest of 0 and all costs. */
  lemma MaxCostIsMaximum<S, D>(sources: seq<S>, destinations: seq<D>, cost: (S, D) -> real)
    ensures MaxCost(sources, destinations, cost) >= 0.0
    ensures forall i, j :: 0 <= i < |sources| && 0 <= j < |destinations| ==>
              MaxCost(sources, destinations, cost) >= cost(sources[i], destinations[j])
    ensures MaxCost(sources, destinations, cost) == 0.0
            || exists i, j :: 0 <= i < |sources| && 0 <= j < |destinations|
                              && MaxCost(sources, destinations, cost) == cost(sources[i], destinations[j])
  {
    CostsMaxBeforeBounds(sources, destinations, cost, |sources|, 0);
  }

  /** The objective holds the cost of every (source, destination) pair at
      the pair's variable and, when there is a fake destination, twice the
      largest cost in its column, so it is never preferred to a real one. */
  lemma ObjectiveLayout<S, D>(sources: seq<S>, destinations: seq<D>, cost: (S, D) -> real, t: nat, s: nat, d: nat)
    requires t == |destinations| || t == |destinations| + 1
    requires s < |sources| && d < t
    ensures s * t + d < |Objective(sources, destinations, cost, t)|
    ensures d < |destinations| ==> Objective(sources, destinations, cost, t)[s * t + d] == cost(sources[s], destinations[d])
    ensures d == |destinations| ==> Objective(sources, destinations, cost, t)[s * t + d] == 2.0 * MaxCost(sources, destinations, cost)
    ensures d == |destinations| ==> forall j :: 0 <= j < |destinations| ==>
              Objective(sources, destinations, cost, t)[s * t + d] >= cost(sources[s], destinations[j])
  {
    IndexBound(s, d, t, |sources|);
    DivMod(s, d, t);
    MaxCostIsMaximum(sources, destinations, cost);
  }

  /** The equality constraint of source `s` covers exactly its own
      variables, one per destination. */
  lemma SourceRowSelectsSource(sourceCount: nat, t: nat, s: nat, k: nat)
    requires t > 0 && k < sourceCount * t
    ensures SourceRow(sourceCount, t, s)[k] == 1.0 <==> k / t == s
    ensures SourceRow(sourceCount, t, s)[k] == 0.0 <==> k / t != s
  {
    if k / t == s {
      DivMod(s, k % t, t);
      SameSlot(k, s, k % t, t);
    } else if s * t <= k < s * t + t {
      DivMod(s, k - s * t, t);
    }
  }

  /** The capacity constraints of destination `d` cover exactly that
      destination's variable of every source. */
  lemma DestinationRowSelectsDestination(sourceCount: nat, t: nat, d: nat, s: nat, e: nat)
    requires d < t && e < t && s < sourceCount
    ensures s * t + e < sourceCount * t
    ensures DestinationRow(sourceCount, t, d)[s * t + e] == 1.0 <==> e == d
    ensures DestinationRow(sourceCount, t, d)[s * t + e] == 0.0 <==> e != d
  {
    IndexBound(s, e, t, sourceCount);
    DivMod(s, e, t);
  }

  /** Entry `k` of the solution assigns its source `x` to a real destination. */
  ghost predicate AssignsSource<S>(sources: seq<S>, destinationCount: nat, t: nat, solution: seq<real>, k: int, x: S)
  {
    0 <= k < |solution| && t > 0 && k / t < |sources|
    && solution[k] > 0.0 && k % t < destinationCount && sources[k / t] == x
  }

  /** A prefix of the solution assigns a source where the whole solution does. */
  lemma PrefixAssigns<S>(sources: seq<S>, destinationCount: nat, t: nat, solution: seq<real>, n: nat, x: S)
    requires n <= |solution|
    ensures forall j :: AssignsSource(sources, destinationCount, t, solution[..n], j, x)
                        <==> j < n && AssignsSource(sources, destinationCount, t, solution, j, x)
  {
  }

  /** One step of `Decoded`: the entry `k` past the prefix updates the map
      only when it assigns its source. */
  lemma DecodedStep<S, D>(sources: seq<S>, destinations: seq<D>, t: nat, solution: seq<real>)
    requires 0 < |destinations| <= t && 0 < |solution| <= |sources| * t
    ensures var k := |solution| - 1;
            k / t < |sources|
            && Decoded(sources, destinations, t, solution)
               == if AssignsSource(sources, |destinations|, t, solution, k, sources[k / t])
                  then Decoded(sources, destinations, t, solution[..k])[sources[k / t] := destinations[k % t]]
                  else Decoded(sources, destinations, t, solution[..k])
  {
    DivBound(|solution| - 1, t, |sources|);
  }

  /** A source is in the decoded map exactly when some positive entry in a
      real destination's column belongs to it. */
  lemma {:induction false} DecodedKeys<S, D>(sources: seq<S>, destinations: seq<D>, t: nat, solution: seq<real>, x: S)
    requires 0 < |destinations| <= t && |solution| <= |sources| * t
    ensures x in Decoded(sources, destinations, t, solution)
            <==> exists k :: AssignsSource(sources, |destinations|, t, solution, k, x)
    decreases |solution|
  {
    if |solution| > 0 {
      var k := |solution| - 1;
      var init := solution[..k];
      DecodedKeys(sources, destinations, t, init, x);
      DecodedStep(sources, destinations, t, solution);
      PrefixAssigns(sources, |destinations|, t, solution, k, x);
      if x in Decoded(sources, destinations, t, solution) && !AssignsSource(sources, |destinations|, t, solution, k, x) {
        var j :| AssignsSource(sources, |destinations|, t, init, j, x);
        assert AssignsSource(sources, |destinations|, t, solution, j, x);
      }
      if j :| AssignsSource(sources, |destinations|, t, solution, j, x) {
        if j < k {
          assert AssignsSource(sources, |destinations|, t, init, j, x);
        }
      }
    }
  }

  /** The destination of a source comes from its last positive entry in a
      real destination's column: later entries overwrite earlier ones. */
  lemma {:induction false} DecodedLastWins<S, D>(sources: seq<S>, destinations: seq<D>, t: nat, solution: seq<real>, k: nat, x: S)
    requires 0 < |destinations| <= t && |solution| <= |sources| * t
    requires AssignsSource(sources, |destinations|, t, solution, k, x)
    requires forall j :: k < j ==> !AssignsSource(sources, |destinations|, t, solution, j, x)
    ensures x in Decoded(sources, destinations, t, solution)
    ensures Decoded(sources, destinations, t, solution)[x] == destinations[k % t]
    decreases |solution|
  {
    var last := |solution| - 1;
    DecodedStep(sources, destinations, t, solution);
    if k < last {
      var init := solution[..last];
      PrefixAssigns(sources, |destinations|, t, solution, last, x);
      DecodedLastWins(sources, destinations, t, init, k, x);
      assert !AssignsSource(sources, |destinations|, t, solution, last, x);
    }
  }

  /** The 0/1 vector that sends source `s` to column `choice[s]`: a solution
      meeting every source's equality constraint with whole numbers. */
  function Indicator(sourceCount: nat, t: nat, choice: seq<nat>): (v: seq<real>)
    requires |choice| == sourceCount && t > 0
    ensures |v| == sourceCount * t
  {
    seq(sourceCount * t, k requires 0 <= k < sourceCount * t =>
      DivBound(k, t, sourceCount);
      if choice[k / t] == k % t then 1.0 else 0.0)
  }

  /** In a 0/1 solution over distinct sources, the only entry that assigns
      source `s` is the one of its chosen column, if that column is real. */
  lemma IndicatorAssigns<S>(sources: seq<S>, destinationCount: nat, t: nat, choice: seq<nat>, s: nat, j: int)
    requires t > 0 && |choice| == |sources| && s < |sources|
    requires forall i, k :: 0 <= i < k < |sources| ==> sources[i] != sources[k]
    requires AssignsSource(sources, destinationCount, t, Indicator(|sources|, t, choice), j, sources[s])
    ensures j == s * t + choice[s] && choice[s] < destinationCount
  {
    assert sources[j / t] == sources[s];
    SameSlot(j, s, j % t, t);
  }

  /** Decoding a 0/1 solution over distinct sources gives back the choice:
      each source goes to its chosen real destination, and a source sent to
      the fake destination is left out. */
  lemma DecodeIndicator<S, D>(sources: seq<S>, destinations: seq<D>, t: nat, choice: seq<nat>, s: nat)
    requires 0 < |destinations| <= t && |choice| == |sources|
    requires forall i :: 0 <= i < |choice| ==> choice[i] < t
    requires forall i, j :: 0 <= i < j < |sources| ==> sources[i] != sources[j]
    requires s < |sources|
    ensures sources[s] in Decoded(sources, destinations, t, Indicator(|sources|, t, choice))
            <==> choice[s] < |destinations|
    ensures choice[s] < |destinations| ==>
              Decoded(sources, destinations, t, Indicator(|sources|, t, choice))[sources[s]] == destinations[choice[s]]
  {
    var v := Indicator(|sources|, t, choice);
    var x := sources[s];
    IndicatorOnlyChoice(sources, |destinations|, t, choice, s);
    DecodedKeys(sources, destinations, t, v, x);
    if choice[s] < |destinations| {
      IndicatorChoiceAssigns(sources, |destinations|, t, choice, s);
      assert AssignsSource(sources, |destinations|, t, v, s * t + choice[s], x);
      DecodedLastWins(sources, destinations, t, v, s * t + choice[s], x);
    }
  }

  lemma IndicatorOnlyChoice<S>(sources: seq<S>, destinationCount: nat, t: nat, choice: seq<nat>, s: nat)
    requires t > 0 && |choice| == |sources| && s < |sources|
    requires forall i, k :: 0 <= i < k < |sources| ==> sources[i] != sources[k]
    ensures forall j :: AssignsSource(sources, destinationCount, t, Indicator(|sources|, t, choice), j, sources[s])
                        ==> j == s * t + choice[s] && choice[s] < destinationCount
  {
    forall j | AssignsSource(sources, destinationCount, t, Indicator(|sources|, t, choice), j, sources[s])
      ensures j == s * t + choice[s] && choice[s] < destinationCount
    {
      IndicatorAssigns(sources, destinationCount, t, choice, s, j);
    }
  }

  lemma IndicatorChoiceAssigns<S>(sources: seq<S>, destinationCount: nat, t: nat, choice: seq<nat>, s: nat)
    requires t > 0 && |choice| == |sources| && s < |sources|
    requires forall i :: 0 <= i < |choice| ==> choice[i] < t
    requires choice[s] < destinationCount
    ensures AssignsSource(sources, destinationCount, t, Indicator(|sources|, t, choice), s * t + choice[s], sources[s])
    ensures (s * t + choice[s]) % t == choice[s]
  {
    IndexBound(s, choice[s], t, |sources|);
    DivMod(s, choice[s], t);
  }

  // ---------------------------------------------------------------------
  // `hasFakeDestination` as written: a 32-bit product

  /** Kotlin `Int` arithmetic: the result reduced to the signed 32-bit range. */
  function WrapInt(x: int): (r: int)
    ensures -0x8000_0000 <= r < 0x8000_0000
    ensures (x - r) % 0x1_0000_0000 == 0
    ensures -0x8000_0000 <= x < 0x8000_0000 ==> r == x
  {
    var m := x % 0x1_0000_0000;
    if m >= 0x8000_0000 then m - 0x1_0000_0000 else m
  }

  /** `sources.size > maxSourcesPerDestination * destinations.size` with
      the product computed in `Int`. */
  predicate HasFakeDestinationAsWritten(sourceCount: nat, destinationCount: nat, maxSourcesPerDestination: int)
  {
    sourceCount > WrapInt(maxSourcesPerDestination * destinationCount)
  }

  /** One source, two destinations taking 2^30 sources each: the product
      wraps to -2^31, so a fake destination is added although the real
      destinations can take every source. */
  lemma FakeDestinationOverflow()
    ensures HasFakeDestinationAsWritten(1, 2, 0x4000_0000)
    ensures !HasFakeDestination(1, 2, 0x4000_0000)
    ensures 1 <= 0x4000_0000 * 2
  {
  }

  /** Where the product fits in an `Int`, the code as written and the
      corrected test agree; the corrected test is the capacity comparison. */
  lemma FakeDestinationAgreesWithoutOverflow(sourceCount: nat, destinationCount: nat, maxSourcesPerDestination: int)
    requires -0x8000_0000 <= maxSourcesPerDestination * destinationCount < 0x8000_0000
    ensures HasFakeDestinationAsWritten(sourceCount, destinationCount, maxSourcesPerDestination)
            <==> HasFakeDestination(sourceCount, destinationCount, maxSourcesPerDestination)
  {
  }

  /** With the product widened to 64 bits, the test is exact for every pair
      of `Int` operands: it never wraps. */
  lemma WideProductExact(destinationCount: nat, maxSourcesPerDestination: int)
    requires destinationCount < 0x8000_0000
    requires -0x8000_0000 <= maxSourcesPerDestination < 0x8000_0000
    ensures -0x8000_0000_0000_0000 <= maxSourcesPerDestination * destinationCount < 0x8000_0000_0000_0000
  {
    if maxSourcesPerDestination >= 0 {
      MulLeftMono(maxSourcesPerDestination, 0x8000_0000, destinationCount);
      MulLeftMono(destinationCount, 0x8000_0000, 0x8000_0000);
    } else {
      MulLeftMono(-maxSourcesPerDestination, 0x8000_0000, destinationCount);
      MulLeftMono(destinationCount, 0x8000_0000, 0x8000_0000);
    }
  }
}
