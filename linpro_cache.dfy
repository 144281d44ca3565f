/** The single-entry memo in front of the assignment solver
    (LinproCache.kt). A call whose input equals the previous one returns
    the previous answer, with every destination swapped for the equal
    element of the current destinations (destinations are equal when
    their identities are, so the fresh element carries its current
    position). Any other call computes a new answer. */
module LinproCache {
  import opened Wrappers
  import AbstractLinpro

  /** `Input`: what a call is compared on. Sources and destinations are
      compared as sets, destinations by identity, and the cost function
      is not part of it. */
  datatype Input<S, K> = Input(sources: set<S>, destinations: set<K>, maxSourcesPerDestination: int, fair: bool)

  /** The identities of the destinations. */
  function IdsOf<D, K(==)>(destinations: seq<D>, identity: D -> K): (ids: set<K>)
    ensures forall i :: 0 <= i < |destinations| ==> identity(destinations[i]) in ids
    ensures forall k :: k in ids ==> exists i :: 0 <= i < |destinations| && identity(destinations[i]) == k
  {
    set i | 0 <= i < |destinations| :: identity(destinations[i])
  }

  /** The key built from the arguments of `get`. */
  function InputOf<S(==,!new), D, K(==)>(sources: seq<S>, destinations: seq<D>, maxSourcesPerDestination: int,
                                   fair: bool, identity: D -> K): (input: Input<S, K>)
    ensures forall x :: x in input.sources <==> x in sources
    ensures input.destinations == IdsOf(destinations, identity)
    ensures input.maxSourcesPerDestination == maxSourcesPerDestination && input.fair == fair
  {
    Input((set x | x in sources), IdsOf(destinations, identity), maxSourcesPerDestination, fair)
  }

  /** Whether position `i` holds the first destination with identity `k`. */
  ghost predicate IsFirst<D, K>(destinations: seq<D>, identity: D -> K, k: K, i: int)
  {
    0 <= i < |destinations| && identity(destinations[i]) == k
    && forall j :: 0 <= j < i ==> identity(destinations[j]) != k
  }

  /** `indexOf`: the first position holding a destination with identity
      `k`, or -1 when there is none. */
  function IndexOf<D, K(==)>(destinations: seq<D>, identity: D -> K, k: K): (i: int)
    ensures -1 <= i < |destinations|
    ensures i == -1 <==> k !in IdsOf(destinations, identity)
    ensures i >= 0 ==> IsFirst(destinations, identity, k, i)
  {
    if |destinations| == 0 then -1
    else if identity(destinations[0]) == k then 0
    else
      var i := IndexOf(destinations[1..], identity, k);
      assert forall j :: 0 < j < |destinations| ==> destinations[j] == destinations[1..][j - 1];
      if i == -1 then -1 else i + 1
  }

  /** The answer of a hit: `lastResult.mapValues` with each destination
      replaced by the first current destination of the same identity.
      `None` stands for the out-of-bounds exception raised when a cached
      destination has no counterpart (`indexOf` yields -1). */
  function Remap<S, D, K(==)>(result: map<S, D>, destinations: seq<D>, identity: D -> K): (r: Option<map<S, D>>)
    ensures r.None? <==> exists s :: s in result && identity(result[s]) !in IdsOf(destinations, identity)
    ensures r.Some? ==> r.value.Keys == result.Keys
    ensures r.Some? ==> forall s :: s in result ==> identity(r.value[s]) == identity(result[s])
    ensures r.Some? ==> forall s :: s in result ==>
              exists i :: IsFirst(destinations, identity, identity(result[s]), i) && r.value[s] == destinations[i]
  {
    if forall s :: s in result ==> IndexOf(destinations, identity, identity(result[s])) >= 0 then
      Some(map s | s in result :: destinations[IndexOf(destinations, identity, identity(result[s]))])
    else
      None
  }

  /** `LinproCache`: the last input and the answer computed for it.
      `calculations` records, for the proofs only, every input for which
      `calculate` was invoked. */
  class Cache<S(==,!new), D, K(==)> {
    const identity: D -> K
    var lastInput: Input<S, K>
    var lastResult: map<S, D>
    ghost var calculations: seq<Input<S, K>>

    constructor(identity: D -> K)
      ensures this.identity == identity
      ensures lastInput == Input({}, {}, 0, false) && lastResult == map[]
      ensures calculations == []
    {
      this.identity := identity;
      lastInput := Input({}, {}, 0, false);
      lastResult := map[];
      calculations := [];
    }

    /** `get`: on a miss, invokes `calculate` once with the arguments and
        remembers input and answer; on a hit, leaves both fields alone and
        returns the remapped previous answer. */
    method Get(sources: seq<S>, destinations: seq<D>, maxSourcesPerDestination: int, fair: bool,
               cost: (S, D) -> real, calculate: (seq<S>, seq<D>, int, bool, (S, D) -> real) -> map<S, D>)
      returns (r: Option<map<S, D>>)
      modifies this
      ensures lastInput == InputOf(sources, destinations, maxSourcesPerDestination, fair, identity)
      ensures old(lastInput) != lastInput ==>
                lastResult == calculate(sources, destinations, maxSourcesPerDestination, fair, cost)
                && r == Some(lastResult)
                && calculations == old(calculations) + [lastInput]
      ensures old(lastInput) == lastInput ==>
                lastResult == old(lastResult)
                && calculations == old(calculations)
                && r == Remap(lastResult, destinations, identity)
    {
      var newInput := InputOf(sources, destinations, maxSourcesPerDestination, fair, identity);
      if lastInput != newInput {
        lastInput := newInput;
        lastResult := calculate(sources, destinations, maxSourcesPerDestination, fair, cost);
        calculations := calculations + [newInput];
        r := Some(lastResult);
      } else {
        r := Remap(lastResult, destinations, identity);
      }
    }
  }

  /** Whether every value of an answer has an identity among `ids`. */
  predicate ValuesAmong<S, D, K>(result: map<S, D>, ids: set<K>, identity: D -> K)
  {
    forall s :: s in result ==> identity(result[s]) in ids
  }

  /** A hit never fails when the cached answer only uses destinations of
      the cached call: the inputs being equal, every cached identity is
      among the current destinations; the answer maps the same sources to
      destinations of the same identities. */
  lemma {:induction false} HitSucceeds<S, D, K>(result: map<S, D>, cached: Input<S, K>,
                                                   destinations: seq<D>, identity: D -> K)
    requires ValuesAmong(result, cached.destinations, identity)
    requires cached.destinations == IdsOf(destinations, identity)
    ensures Remap(result, destinations, identity).Some?
    ensures ValuesAmong(Remap(result, destinations, identity).value, cached.destinations, identity)
    ensures forall s :: s in result ==>
              identity(Remap(result, destinations, identity).value[s]) == identity(result[s])
  {
  }

  /** A hit only looks at the identities of the cached destinations. */
  lemma RemapByIdentity<S, D, K>(a: map<S, D>, b: map<S, D>, destinations: seq<D>, identity: D -> K)
    requires a.Keys == b.Keys
    requires forall s :: s in a ==> identity(a[s]) == identity(b[s])
    ensures Remap(a, destinations, identity) == Remap(b, destinations, identity)
  {
    var ra, rb := Remap(a, destinations, identity), Remap(b, destinations, identity);
    assert ra.Some? <==> rb.Some?;
    if ra.Some? {
      forall s | s in a ensures ra.value[s] == rb.value[s] {
        assert ra.value[s] == destinations[IndexOf(destinations, identity, identity(a[s]))];
        assert rb.value[s] == destinations[IndexOf(destinations, identity, identity(b[s]))];
      }
      SameMaps(ra.value, rb.value);
    }
  }

  lemma SameMaps<S, D>(x: map<S, D>, y: map<S, D>)
    requires x.Keys == y.Keys
    requires forall s :: s in x ==> x[s] == y[s]
    ensures x == y
  {
  }

  /** Remapping is stable: a second hit with the same destinations returns
      the answer of the first one. */
  lemma RemapStable<S, D, K>(result: map<S, D>, destinations: seq<D>, identity: D -> K)
    requires Remap(result, destinations, identity).Some?
    ensures Remap(Remap(result, destinations, identity).value, destinations, identity)
            == Remap(result, destinations, identity)
  {
    RemapByIdentity(Remap(result, destinations, identity).value, result, destinations, identity);
  }

  /** The answers of the assignment solver only use the destinations it
      was given, so a cache in front of it never fails on a hit. */
  lemma DecodedValuesAmong<S, D, K>(sources: seq<S>, destinations: seq<D>, t: nat, solution: seq<real>,
                                       identity: D -> K)
    requires |destinations| <= t && |solution| <= |sources| * t
    ensures ValuesAmong(AbstractLinpro.Decoded(sources, destinations, t, solution),
                        IdsOf(destinations, identity), identity)
  {
    var m := AbstractLinpro.Decoded(sources, destinations, t, solution);
    forall s | s in m ensures identity(m[s]) in IdsOf(destinations, identity) {
      assert m[s] in destinations;
      var i :| 0 <= i < |destinations| && destinations[i] == m[s];
    }
  }
}
