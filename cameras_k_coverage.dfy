/** The k-coverage exporter (CamerasKCoverage.kt): for j from the maximum
    down to 1, the fraction of targets seen by at least j cameras. The
    simulator's nodes are not modelled: a call receives, per camera, the
    targets it sees (already restricted to nodes that are targets) and the
    number of targets in the environment. */
module CamerasKCoverage {
  import opened Decimal

  /** An exported sample: a number or the `Double.NaN` used when there is
      nothing to measure. */
  datatype Double = NaN | Finite(value: real)

  /** `flatMap`: the lists one after the other. */
  function Flatten<T>(lists: seq<seq<T>>): (flat: seq<T>)
    ensures |lists| == 0 ==> flat == []
    ensures forall c, i :: 0 <= c < |lists| && 0 <= i < |lists[c]| ==> lists[c][i] in flat
    ensures forall k :: 0 <= k < |flat| ==> exists c :: 0 <= c < |lists| && flat[k] in lists[c]
  {
    if |lists| == 0 then []
    else
      var init := lists[..|lists| - 1];
      assert forall c :: 0 <= c < |lists| - 1 ==> lists[c] == init[c];
      Flatten(init) + lists[|lists| - 1]
  }

  /** The number of cameras whose list holds `t`. */
  ghost function CamerasSeeing<T>(lists: seq<seq<T>>, t: T): nat
  {
    if |lists| == 0 then 0
    else CamerasSeeing(lists[..|lists| - 1], t) + (if t in lists[|lists| - 1] then 1 else 0)
  }

  /** Whether a list holds no target twice. */
  ghost predicate NoDuplicates<T>(s: seq<T>)
  {
    forall i, j :: 0 <= i < j < |s| ==> s[i] != s[j]
  }

  /** A list without duplicates holds each target at most once. */
  lemma {:induction false} OnceAtMost<T>(s: seq<T>, t: T)
    requires NoDuplicates(s)
    ensures multiset(s)[t] == if t in s then 1 else 0
  {
    if |s| > 0 {
      var init := s[..|s| - 1];
      assert s == init + [s[|s| - 1]];
      assert NoDuplicates(init);
      OnceAtMost(init, t);
      assert s[|s| - 1] !in init;
    }
  }

  /** Each camera listing a target once, the per-target count of the
      flattened lists (`groupingBy { it.node.id }.eachCount()`) is the
      number of cameras that see the target. */
  lemma {:induction false} FlattenCountsCameras<T>(lists: seq<seq<T>>, t: T)
    requires forall c :: 0 <= c < |lists| ==> NoDuplicates(lists[c])
    ensures multiset(Flatten(lists))[t] == CamerasSeeing(lists, t)
  {
    if |lists| > 0 {
      var init := lists[..|lists| - 1];
      assert forall c :: 0 <= c < |init| ==> init[c] == lists[c];
      FlattenCountsCameras(init, t);
      OnceAtMost(lists[|lists| - 1], t);
    }
  }

  /** How many targets are seen exactly `k` times. */
  function Exactly<T>(counts: multiset<T>, k: int): nat
  {
    |set t | t in counts && counts[t] == k|
  }

  /** How many targets are seen at least `j` times. */
  function AtLeast<T>(counts: multiset<T>, j: int): nat
  {
    |set t | t in counts && counts[t] >= j|
  }

  /** `groupingBy { it }.eachCount()` over the per-target counts: every
      count that occurs, with the number of targets that have it. */
  function Histogram<T>(counts: multiset<T>): (h: map<nat, nat>)
    ensures forall k: nat :: k in h <==> exists t :: t in counts && counts[t] == k
    ensures forall k :: k in h ==> h[k] == Exactly(counts, k)
  {
    map k | k in (set t | t in counts :: counts[t]) :: Exactly(counts, k)
  }

  /** `getOrDefault(key, 0)`. */
  function GetOrDefault(h: map<nat, nat>, key: int): (n: nat)
    ensures key >= 0 && key in h ==> n == h[key]
    ensures key < 0 || key !in h ==> n == 0
  {
    if key >= 0 && key in h then h[key] else 0
  }

  /** The length of the histogram row: the largest count, but never less
      than the configured maximum (`max(map.keys.max() ?: m, m)`). */
  method Width(h: map<nat, nat>, maxCamerasPerTarget: nat) returns (k: nat)
    ensures k >= maxCamerasPerTarget
    ensures forall c :: c in h ==> c <= k
    ensures k == maxCamerasPerTarget || k in h
  {
    k := maxCamerasPerTarget;
    var keys := h.Keys;
    while keys != {}
      invariant keys <= h.Keys
      invariant k >= maxCamerasPerTarget && (k == maxCamerasPerTarget || k in h)
      invariant forall c :: c in h && c !in keys ==> c <= k
      decreases keys
    {
      var c :| c in keys;
      if c > k {
        k := c;
      }
      keys := keys - {c};
    }
  }

  /** The sum of a sequence. */
  function Sum(s: seq<real>): real
  {
    if |s| == 0 then 0.0 else Sum(s[..|s| - 1]) + s[|s| - 1]
  }

  /** Entry `i` is the sum of the first `i + 1` entries. */
  function PrefixSums(s: seq<real>): (r: seq<real>)
    ensures |r| == |s|
  {
    seq(|s|, i requires 0 <= i < |s| => Sum(s[..i + 1]))
  }

  /** The `also` block: adds every entry to the next one, from the front,
      so that each entry becomes the sum of the entries up to it. */
  method Cumulate(values: array<real>)
    modifies values
    ensures values[..] == PrefixSums(old(values[..]))
  {
    ghost var original := values[..];
    var idx := 1;
    while idx < values.Length
      invariant 1 <= idx && (values.Length == 0 || idx <= values.Length)
      invariant forall i :: 0 <= i < idx && i < values.Length ==> values[i] == Sum(original[..i + 1])
      invariant forall i :: idx <= i < values.Length ==> values[i] == original[i]
    {
      assert original[..idx + 1][..idx] == original[..idx];
      values[idx] := values[idx] + values[idx - 1];
      idx := idx + 1;
    }
    if values.Length > 0 {
      assert original[..1][..0] == [];
    }
  }

  /** The cumulative counts: the number of targets seen at least `j` times
      is the number seen exactly `j` times plus the number seen more. */
  lemma AtLeastSplit<T>(counts: multiset<T>, j: int)
    ensures AtLeast(counts, j) == Exactly(counts, j) + AtLeast(counts, j + 1)
  {
    var a := set t | t in counts && counts[t] >= j;
    var e := set t | t in counts && counts[t] == j;
    var b := set t | t in counts && counts[t] >= j + 1;
    assert a == e + b;
    assert e * b == {};
  }

  /** Summing the histogram row from the largest count down to `k - i`
      counts the targets seen at least `k - i` times. */
  lemma {:induction false} RowSums<T>(counts: multiset<T>, row: seq<real>, k: int, i: nat)
    requires |row| == k && i < k
    requires forall t :: t in counts ==> counts[t] <= k
    requires forall n :: 0 <= n < k ==> row[n] == Exactly(counts, k - n) as real
    ensures Sum(row[..i + 1]) == AtLeast(counts, k - i) as real
  {
    AtLeastSplit(counts, k - i);
    assert row[..i + 1][..i] == row[..i];
    if i == 0 {
      assert (set t | t in counts && counts[t] >= k + 1) == {};
      assert row[..0] == [];
    } else {
      RowSums(counts, row, k, i - 1);
    }
  }

  /** The histogram lookups give the per-count target numbers. */
  lemma HistogramRow<T>(counts: multiset<T>, k: int)
    ensures GetOrDefault(Histogram(counts), k) == Exactly(counts, k)
  {
    if k < 0 || k !in Histogram(counts) {
      assert (set t | t in counts && counts[t] == k) == {};
    }
  }

  /** After the cumulation, the last `m` entries of the histogram row
      count the targets seen at least `m`, `m - 1`, ..., 1 times. */
  lemma LevelCounts<T>(counts: multiset<T>, m: nat, row: seq<real>, cumulated: seq<real>)
    requires forall c :: c in Histogram(counts) ==> c <= |row|
    requires forall n :: 0 <= n < |row| ==> row[n] == GetOrDefault(Histogram(counts), |row| - n) as real
    requires cumulated == PrefixSums(row)
    requires m <= |row|
    ensures forall j :: |row| - m <= j < |row| ==> cumulated[j] == AtLeast(counts, |row| - j) as real
  {
    var k := |row|;
    var histogram := Histogram(counts);
    forall n | 0 <= n < k ensures row[n] == Exactly(counts, k - n) as real {
      HistogramRow(counts, k - n);
    }
    assert forall t :: t in counts ==> counts[t] in histogram;
    forall j | k - m <= j < k ensures cumulated[j] == AtLeast(counts, k - j) as real {
      RowSums(counts, row, k, j);
    }
  }

  /** `CamerasKCoverage`: the exporter for coverages up to
      `maxCamerasPerTarget`. */
  class KCoverage {
    const maxCamerasPerTarget: nat
    const names: seq<string>
    const resultWithNoTargets: seq<Double>

    /** The constructor rejects a maximum below 1; the column names go
        from `maxCamerasPerTarget-coverage` down to `1-coverage`. */
    constructor(maxCamerasPerTarget: int)
      requires maxCamerasPerTarget > 0
      ensures this.maxCamerasPerTarget == maxCamerasPerTarget
      ensures names == CoverageNames(maxCamerasPerTarget)
      ensures resultWithNoTargets == seq(maxCamerasPerTarget, _ => NaN)
      ensures Valid()
    {
      this.maxCamerasPerTarget := maxCamerasPerTarget;
      names := CoverageNames(maxCamerasPerTarget);
      resultWithNoTargets := seq(maxCamerasPerTarget, _ => NaN);
    }

    /** The two precomputed constants. */
    ghost predicate Valid()
    {
      names == CoverageNames(maxCamerasPerTarget) && resultWithNoTargets == seq(maxCamerasPerTarget, _ => NaN)
    }

    /** `getNames()`. */
    function GetNames(): (r: seq<string>)
      ensures r == names
    {
      names
    }

    /** `extractData`: all NaN without targets; otherwise, for the
        coverage levels from `maxCamerasPerTarget` down to 1, the fraction
        of the targets seen by at least that many cameras (seeing a target
        more often than the maximum counts for every lower level). */
    method ExtractData<T(==)>(visibleTargets: seq<seq<T>>, numTargets: nat) returns (r: seq<Double>)
      requires Valid()
      ensures |r| == maxCamerasPerTarget
      ensures numTargets == 0 ==> r == resultWithNoTargets
      ensures numTargets > 0 ==> forall e :: 0 <= e < |r| ==>
                r[e] == Finite(Coverage(visibleTargets, maxCamerasPerTarget - e) / numTargets as real)
    {
      if numTargets <= 0 {
        return resultWithNoTargets;
      }
      var counts := multiset(Flatten(visibleTargets));
      var histogram := Histogram(counts);
      var k := Width(histogram, maxCamerasPerTarget);
      var values := new real[k](n => GetOrDefault(histogram, k - n) as real);
      ghost var row := values[..];
      Cumulate(values);
      LevelCounts(counts, maxCamerasPerTarget, row, values[..]);
      var kept := values[k - maxCamerasPerTarget..];
      r := seq(maxCamerasPerTarget, e requires 0 <= e < maxCamerasPerTarget => Finite(kept[e] / numTargets as real));
    }
  }

  /** The column names, highest coverage first. */
  function CoverageNames(maxCamerasPerTarget: nat): (names: seq<string>)
    ensures |names| == maxCamerasPerTarget
    ensures forall i :: 0 <= i < maxCamerasPerTarget ==>
              names[i] == NatToString(maxCamerasPerTarget - i) + "-coverage"
  {
    seq(maxCamerasPerTarget, i requires 0 <= i < maxCamerasPerTarget => NatToString(maxCamerasPerTarget - i) + "-coverage")
  }

  /** The targets some camera sees. */
  ghost function Seen<T>(visibleTargets: seq<seq<T>>): set<T>
  {
    set t | t in Flatten(visibleTargets)
  }

  /** The number of targets seen by at least `j` cameras. */
  ghost function Coverage<T>(visibleTargets: seq<seq<T>>, j: int): real
  {
    AtLeast(multiset(Flatten(visibleTargets)), j) as real
  }

  // ---------------------------------------------------------------------
  // Properties of the exported values

  /** The names are pairwise distinct, the first is the maximum's and the
      last is `1-coverage`. */
  lemma CoverageNamesDistinct(maxCamerasPerTarget: nat)
    requires maxCamerasPerTarget > 0
    ensures CoverageNames(maxCamerasPerTarget)[0] == NatToString(maxCamerasPerTarget) + "-coverage"
    ensures CoverageNames(maxCamerasPerTarget)[maxCamerasPerTarget - 1] == "1-coverage"
    ensures forall i, j :: 0 <= i < j < maxCamerasPerTarget ==>
              CoverageNames(maxCamerasPerTarget)[i] != CoverageNames(maxCamerasPerTarget)[j]
  {
    var names := CoverageNames(maxCamerasPerTarget);
    assert NatToString(1) == "1";
    forall i, j | 0 <= i < j < maxCamerasPerTarget ensures names[i] != names[j] {
      SuffixedNamesDistinct(maxCamerasPerTarget - i, maxCamerasPerTarget - j, "-coverage");
    }
  }

  /** Fewer targets are seen by more cameras: the exported fractions grow
      from the highest coverage level to 1-coverage. */
  lemma CoverageMonotone<T>(visibleTargets: seq<seq<T>>, i: int, j: int)
    requires i <= j
    ensures Coverage(visibleTargets, j) <= Coverage(visibleTargets, i)
  {
    var counts := multiset(Flatten(visibleTargets));
    var a := set t | t in counts && counts[t] >= j;
    var b := set t | t in counts && counts[t] >= i;
    assert b == a + (b - a);
    assert a * (b - a) == {};
  }

  /** 1-coverage counts every target seen at all, and no level counts
      more. */
  lemma OneCoverageCountsSeen<T>(visibleTargets: seq<seq<T>>, j: int)
    requires j >= 1
    ensures Coverage(visibleTargets, 1) == |Seen(visibleTargets)| as real
    ensures Coverage(visibleTargets, j) <= Coverage(visibleTargets, 1)
  {
    var counts := multiset(Flatten(visibleTargets));
    assert (set t | t in counts && counts[t] >= 1) == Seen(visibleTargets);
    CoverageMonotone(visibleTargets, 1, j);
  }

  /** When no camera sees a target every level is 0. */
  lemma NothingSeen<T>(visibleTargets: seq<seq<T>>, j: int)
    requires forall c :: 0 <= c < |visibleTargets| ==> visibleTargets[c] == []
    ensures Coverage(visibleTargets, j) == 0.0
  {
    FlattenEmpty(visibleTargets);
    assert (set t | t in multiset(Flatten(visibleTargets)) && multiset(Flatten(visibleTargets))[t] >= j) == {};
  }

  lemma {:induction false} FlattenEmpty<T>(lists: seq<seq<T>>)
    requires forall c :: 0 <= c < |lists| ==> lists[c] == []
    ensures Flatten(lists) == []
  {
    if |lists| > 0 {
      FlattenEmpty(lists[..|lists| - 1]);
    }
  }
}
