/** The distance exporter (DistanceTraveled.kt): at every sample, the
    total distance the considered nodes moved since the previous sample,
    remembering each node's last position. The environment's nodes and
    positions are parameters of `ExtractData`. */
module DistanceTraveled {
  import opened Wrappers
  import opened Geometry

  /** The nodes `extractData` looks at: all of them, or those containing
      the filter molecule. */
  function Considered<N, M>(nodes: seq<N>, filterByMolecule: Option<M>, contains: (N, M) -> bool): (r: seq<N>)
    ensures filterByMolecule.None? ==> r == nodes
    ensures filterByMolecule.Some? ==> forall i :: 0 <= i < |r| ==> contains(r[i], filterByMolecule.value)
    ensures multiset(r) <= multiset(nodes)
    ensures filterByMolecule.Some? ==> forall i :: 0 <= i < |nodes| && contains(nodes[i], filterByMolecule.value) ==> nodes[i] in r
  {
    match filterByMolecule
    case None => nodes
    case Some(molecule) =>
      if |nodes| == 0 then []
      else
        var init := nodes[..|nodes| - 1];
        var last := nodes[|nodes| - 1];
        assert nodes == init + [last];
        var rest := Considered(init, filterByMolecule, contains);
        assert forall i :: 0 <= i < |nodes| - 1 ==> nodes[i] == init[i];
        if contains(last, molecule) then rest + [last] else rest
  }

  /** A node's share of the sample: the distance from its recorded
      position to its current one, or 0 without a recorded position. */
  function Contribution<N, P>(nodeToPosition: map<N, P>, node: N, current: P, distance: (P, P) -> real): (d: real)
    ensures node !in nodeToPosition ==> d == 0.0
    ensures node in nodeToPosition ==> d == distance(nodeToPosition[node], current)
  {
    if node in nodeToPosition then distance(nodeToPosition[node], current) else 0.0
  }

  /** The sample for `nodes`, visiting them in order and recording each
      node's position after its share has been taken. */
  function Traveled<N, P>(nodeToPosition: map<N, P>, nodes: seq<N>, positionOf: N -> P, distance: (P, P) -> real): real
    decreases |nodes|
  {
    if |nodes| == 0 then 0.0
    else
      Contribution(nodeToPosition, nodes[0], positionOf(nodes[0]), distance)
      + Traveled(nodeToPosition[nodes[0] := positionOf(nodes[0])], nodes[1..], positionOf, distance)
  }

  /** The positions recorded for `nodes`. */
  function Positions<N(==,!new), P>(nodes: seq<N>, positionOf: N -> P): (m: map<N, P>)
    ensures forall n :: n in m <==> n in nodes
    ensures forall n :: n in m ==> m[n] == positionOf(n)
  {
    map n | n in nodes :: positionOf(n)
  }

  /** The sum of the shares, each taken against the positions recorded
      before the sample. */
  function SumOfContributions<N, P>(nodeToPosition: map<N, P>, nodes: seq<N>, positionOf: N -> P,
                                    distance: (P, P) -> real): real
    decreases |nodes|
  {
    if |nodes| == 0 then 0.0
    else
      Contribution(nodeToPosition, nodes[0], positionOf(nodes[0]), distance)
      + SumOfContributions(nodeToPosition, nodes[1..], positionOf, distance)
  }

  /** `DistanceTraveled`: the export name, the optional filter and the
      last position of every node seen so far. */
  class Tracker<N(==,!new), M, P> {
    const exportName: string
    const filterByMolecule: Option<M>
    var nodeToPosition: map<N, P>

    constructor(exportName: string, filterByMolecule: Option<M>)
      ensures this.exportName == exportName && this.filterByMolecule == filterByMolecule
      ensures nodeToPosition == map[]
    {
      this.exportName := exportName;
      this.filterByMolecule := filterByMolecule;
      nodeToPosition := map[];
    }

    /** The constructor with its default arguments: export name
        `distance`, no filter. */
    constructor Default()
      ensures exportName == "distance" && filterByMolecule == None
      ensures nodeToPosition == map[]
    {
      exportName := "distance";
      filterByMolecule := None;
      nodeToPosition := map[];
    }

    /** `getNames()`: the one column of the export. */
    function GetNames(): (names: seq<string>)
      ensures |names| == 1 && names[0] == exportName
    {
      [exportName]
    }

    /** `extractData`: the one-element sample of the distance the
        considered nodes moved since their recorded positions; afterwards
        every considered node's current position is recorded and the
        entries of the other nodes are as they were. */
    method ExtractData(nodes: seq<N>, positionOf: N -> P, contains: (N, M) -> bool, distance: (P, P) -> real)
      returns (r: seq<real>)
      modifies this
      ensures r == [Traveled(old(nodeToPosition), Considered(nodes, filterByMolecule, contains), positionOf, distance)]
      ensures nodeToPosition == old(nodeToPosition) + Positions(Considered(nodes, filterByMolecule, contains), positionOf)
    {
      var considered := nodes;
      if filterByMolecule.Some? {
        considered := Considered(nodes, filterByMolecule, contains);
      }
      assert considered == Considered(nodes, filterByMolecule, contains);
      var sum := Visit(considered, positionOf, distance);
      r := [sum];
    }

    /** The `map { ... }.sum()` of `extractData`: each node's share, then
        its current position recorded. */
    method Visit(considered: seq<N>, positionOf: N -> P, distance: (P, P) -> real) returns (sum: real)
      modifies this
      ensures sum == Traveled(old(nodeToPosition), considered, positionOf, distance)
      ensures nodeToPosition == old(nodeToPosition) + Positions(considered, positionOf)
    {
      sum := 0.0;
      for i := 0 to |considered|
        invariant nodeToPosition == old(nodeToPosition) + Positions(considered[..i], positionOf)
        invariant sum + Traveled(nodeToPosition, considered[i..], positionOf, distance)
                  == Traveled(old(nodeToPosition), considered, positionOf, distance)
      {
        var node := considered[i];
        var currentPos := positionOf(node);
        var d := if node in nodeToPosition then distance(nodeToPosition[node], currentPos) else 0.0;
        assert considered[i..][1..] == considered[i + 1..];
        RecordStep(old(nodeToPosition), considered, i, positionOf);
        nodeToPosition := nodeToPosition[node := currentPos];
        sum := sum + d;
      }
      assert considered[..|considered|] == considered;
    }
  }

  /** Recording one more node extends the recorded positions by it. */
  lemma RecordStep<N(!new), P>(before: map<N, P>, nodes: seq<N>, i: nat, positionOf: N -> P)
    requires i < |nodes|
    ensures (before + Positions(nodes[..i], positionOf))[nodes[i] := positionOf(nodes[i])]
            == before + Positions(nodes[..i + 1], positionOf)
  {
    assert nodes[..i + 1] == nodes[..i] + [nodes[i]];
  }

  // ---------------------------------------------------------------------
  // Properties of a sample

  /** Distances being non-negative, so is every sample. */
  lemma {:induction false} TraveledNonNegative<N, P(!new)>(nodeToPosition: map<N, P>, nodes: seq<N>,
                                                    positionOf: N -> P, distance: (P, P) -> real)
    requires IsDistance(distance)
    ensures Traveled(nodeToPosition, nodes, positionOf, distance) >= 0.0
    decreases |nodes|
  {
    if |nodes| > 0 {
      TraveledNonNegative(nodeToPosition[nodes[0] := positionOf(nodes[0])], nodes[1..], positionOf, distance);
    }
  }

  /** Recording a node that does not come later changes nothing for the
      shares of the others. */
  lemma {:induction false} SumIgnoresOthers<N, P>(nodeToPosition: map<N, P>, node: N, pos: P, nodes: seq<N>,
                                                 positionOf: N -> P, distance: (P, P) -> real)
    requires node !in nodes
    ensures SumOfContributions(nodeToPosition[node := pos], nodes, positionOf, distance)
            == SumOfContributions(nodeToPosition, nodes, positionOf, distance)
    decreases |nodes|
  {
    if |nodes| > 0 {
      assert nodes[0] != node;
      SumIgnoresOthers(nodeToPosition, node, pos, nodes[1..], positionOf, distance);
    }
  }

  /** With every node listed once, as the environment lists them, the
      sample is the sum of each node's distance from its recorded
      position, the nodes without one adding nothing. */
  lemma {:induction false} TraveledOfDistinct<N, P>(nodeToPosition: map<N, P>, nodes: seq<N>,
                                                   positionOf: N -> P, distance: (P, P) -> real)
    requires forall i, j :: 0 <= i < j < |nodes| ==> nodes[i] != nodes[j]
    ensures Traveled(nodeToPosition, nodes, positionOf, distance)
            == SumOfContributions(nodeToPosition, nodes, positionOf, distance)
    decreases |nodes|
  {
    if |nodes| > 0 {
      var updated := nodeToPosition[nodes[0] := positionOf(nodes[0])];
      TraveledOfDistinct(updated, nodes[1..], positionOf, distance);
      assert nodes[0] !in nodes[1..];
      SumIgnoresOthers(nodeToPosition, nodes[0], positionOf(nodes[0]), nodes[1..], positionOf, distance);
    }
  }

  /** The first sample is 0: no node has a recorded position yet. */
  lemma {:induction false} FirstSampleIsZero<N, P>(nodes: seq<N>, positionOf: N -> P, distance: (P, P) -> real)
    requires forall i, j :: 0 <= i < j < |nodes| ==> nodes[i] != nodes[j]
    ensures Traveled(map[], nodes, positionOf, distance) == 0.0
  {
    TraveledOfDistinct(map[], nodes, positionOf, distance);
    NoneRecorded(nodes, positionOf, distance);
  }

  lemma {:induction false} NoneRecorded<N, P>(nodes: seq<N>, positionOf: N -> P, distance: (P, P) -> real)
    ensures SumOfContributions(map[], nodes, positionOf, distance) == 0.0
    decreases |nodes|
  {
    if |nodes| > 0 {
      NoneRecorded(nodes[1..], positionOf, distance);
    }
  }
}
