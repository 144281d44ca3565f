/** The resampler of the post-processor (process.py lines 5-26): for a
    query time, `getClosest` bisects a matrix sorted on its time column
    down to at most three rows, picks the row nearest to the query and
    overwrites its time with the query; `convert` does this for every
    sample time. A numpy matrix is a rectangular sequence of rows of
    reals. */
module Resampler {
  import opened Wrappers

  type Row = seq<real>

  /** `distance(val, ref) = abs(ref - val)`. */
  function Distance(val: real, ref: real): (d: real)
    ensures d >= 0.0
    ensures d == ref - val || d == val - ref
    ensures d == 0.0 <==> val == ref
  {
    if ref - val < 0.0 then val - ref else ref - val
  }

  /** A numpy matrix: every row has the same number of columns. */
  predicate Rectangular(m: seq<Row>)
  {
    forall i, j :: 0 <= i < |m| && 0 <= j < |m| ==> |m[i]| == |m[j]|
  }

  predicate HasColumn(m: seq<Row>, column: nat)
  {
    forall i :: 0 <= i < |m| ==> column < |m[i]|
  }

  /** The matrix is sorted (non-decreasing) on `column`. */
  predicate SortedOn(m: seq<Row>, column: nat)
    requires HasColumn(m, column)
  {
    forall i, j :: 0 <= i <= j < |m| ==> m[i][column] <= m[j][column]
  }

  /** One pass of the bisection loop: the last `half + 1` rows when the
      middle row is before `val`, the first `half + 1` rows otherwise. */
  function Halve(rows: seq<Row>, column: nat, val: real): (r: seq<Row>)
    requires |rows| > 3 && HasColumn(rows, column)
    ensures |r| == |rows| / 2 + 1 && 3 <= |r| < |rows|
    ensures rows[|rows| / 2][column] < val ==> r == rows[|rows| - |r|..]
    ensures val <= rows[|rows| / 2][column] ==> r == rows[..|r|]
    ensures HasColumn(r, column)
  {
    var half := |rows| / 2;
    var o := if rows[half][column] < val then |rows| - half - 1 else 0;
    var r := rows[o..o + half + 1];
    assert forall k :: 0 <= k < |r| ==> r[k] == rows[o + k];
    r
  }

  /** The slice the loop body of `getClosest` keeps is one pass of `Halve`. */
  lemma HalveStep(rows: seq<Row>, column: nat, val: real)
    requires |rows| > 3 && HasColumn(rows, column)
    ensures Halve(rows, column, val)
            == if rows[|rows| / 2][column] < val then rows[|rows| - |rows| / 2 - 1..] else rows[..|rows| / 2 + 1]
  {
  }

  /** The rows left when the bisection loop stops. */
  function Narrow(rows: seq<Row>, column: nat, val: real): (w: seq<Row>)
    requires HasColumn(rows, column)
    ensures |w| == if |rows| > 3 then 3 else |rows|
    ensures forall k :: 0 <= k < |w| ==> w[k] in rows
    decreases |rows|
  {
    if |rows| > 3 then
      var h := Halve(rows, column, val);
      assert forall k :: 0 <= k < |h| ==> h[k] in rows;
      Narrow(h, column, val)
    else rows
  }

  /** `np.argmin`: the index of the first smallest value. */
  function ArgMin(ds: seq<real>): (i: nat)
    requires |ds| > 0
    ensures i < |ds|
    ensures forall j :: 0 <= j < |ds| ==> ds[i] <= ds[j]
    ensures forall j :: 0 <= j < i ==> ds[i] < ds[j]
  {
    if |ds| == 1 then 0
    else
      var k := ArgMin(ds[1..]);
      if ds[0] <= ds[1..][k] then 0 else k + 1
  }

  /** `vectDistance(rows[:, column], val)`. */
  function Distances(rows: seq<Row>, column: nat, val: real): seq<real>
    requires HasColumn(rows, column)
  {
    seq(|rows|, k requires 0 <= k < |rows| => Distance(rows[k][column], val))
  }

  /** The choice among the rows left by the bisection: the only one, or
      the first one nearest to `val`. */
  function Pick(w: seq<Row>, column: nat, val: real): (row: Row)
    requires |w| > 0 && HasColumn(w, column)
    ensures row in w
  {
    if |w| == 1 then w[0] else w[ArgMin(Distances(w, column, val))]
  }

  /** The input row `getClosest` picks. */
  function ChosenRow(m: seq<Row>, column: nat, val: real): (row: Row)
    requires |m| > 0 && HasColumn(m, column)
    ensures row in m
  {
    Pick(Narrow(m, column, val), column, val)
  }

  /** The row `getClosest` returns, with the one-row branch retiming the
      row like the other branch (`GetClosestAsWritten` is the code as
      written). */
  function Closest(m: seq<Row>, column: nat, val: real): Row
    requires |m| > 0 && HasColumn(m, column)
  {
    ChosenRow(m, column, val)[column := val]
  }

  /** `getClosest(sortedMatrix, column, val)`, one-row branch corrected
      as in `Closest`. `None` stands for the
      exceptions the source raises: `np.argmin` of an empty matrix
      (`ValueError`) and a column outside the matrix (`IndexError`). */
  method GetClosest(sortedMatrix: seq<Row>, column: nat, val: real) returns (r: Option<Row>)
    requires Rectangular(sortedMatrix)
    ensures r.None? <==> |sortedMatrix| == 0 || column >= |sortedMatrix[0]|
    ensures r.Some? ==> HasColumn(sortedMatrix, column)
                        && r.value == Closest(sortedMatrix, column, val)
  {
    if |sortedMatrix| == 0 || column >= |sortedMatrix[0]| {
      return None;
    }
    assert HasColumn(sortedMatrix, column);
    var rows := sortedMatrix;
    while |rows| > 3
      invariant |rows| > 0 && HasColumn(rows, column)
      invariant Narrow(rows, column, val) == Narrow(sortedMatrix, column, val)
      decreases |rows|
    {
      var half := |rows| / 2;
      HalveStep(rows, column, val);
      rows := if rows[half][column] < val then rows[|rows| - half - 1..] else rows[..half + 1];
    }
    assert Narrow(rows, column, val) == rows;
    if |rows| == 1 {
      var result := rows[0][column := val];
      return Some(result);
    } else {
      var safecopy := Distances(rows, column, val);
      var minidx := ArgMin(safecopy);
      var result := rows[minidx][column := val];
      assert Pick(rows, column, val) == rows[minidx];
      return Some(result);
    }
  }

  /** `convert(column, samples, matrix)`: one resampled row per sample time,
      in order; `None` when a sample has to be looked up in a matrix without
      rows or without the column. */
  function Convert(column: nat, samples: seq<real>, matrix: seq<Row>): (r: Option<seq<Row>>)
    requires Rectangular(matrix)
    ensures r.None? <==> |samples| > 0 && (|matrix| == 0 || column >= |matrix[0]|)
    ensures r.Some? ==> |r.value| == |samples|
  {
    if |samples| == 0 then Some([])
    else if |matrix| == 0 || column >= |matrix[0]| then None
    else Some(seq(|samples|, i requires 0 <= i < |samples| => Closest(matrix, column, samples[i])))
  }

  /** The returned row is an input row whose time is replaced by the query:
      same width, `val` in the time column, every other column taken from
      one row of the matrix. */
  lemma ClosestIsRetimedRow(m: seq<Row>, column: nat, val: real)
    requires |m| > 0 && HasColumn(m, column)
    ensures |Closest(m, column, val)| == |ChosenRow(m, column, val)|
    ensures Closest(m, column, val)[column] == val
    ensures ChosenRow(m, column, val) in m
    ensures forall k :: 0 <= k < |Closest(m, column, val)| && k != column
                        ==> Closest(m, column, val)[k] == ChosenRow(m, column, val)[k]
  {
  }

  lemma SortedWindow(m: seq<Row>, column: nat, lo: nat, hi: nat)
    requires lo <= hi <= |m| && HasColumn(m, column) && SortedOn(m, column)
    ensures HasColumn(m[lo..hi], column) && SortedOn(m[lo..hi], column)
  {
    assert forall k :: 0 <= k < hi - lo ==> m[lo..hi][k] == m[lo + k];
  }

  /** Some row of `w` is at most `d` away from `val`. */
  predicate SomeWithin(w: seq<Row>, column: nat, val: real, d: real)
    requires HasColumn(w, column)
  {
    exists k :: 0 <= k < |w| && Distance(w[k][column], val) <= d
  }

  /** One pass of the bisection keeps the matrix sorted and, for every row
      it drops, a row at least as near to `val`: the middle row. */
  lemma HalveKeepsNearest(rows: seq<Row>, column: nat, val: real, j: nat)
    requires |rows| > 3 && HasColumn(rows, column) && SortedOn(rows, column) && j < |rows|
    ensures HasColumn(Halve(rows, column, val), column) && SortedOn(Halve(rows, column, val), column)
    ensures SomeWithin(Halve(rows, column, val), column, val, Distance(rows[j][column], val))
  {
    var half := |rows| / 2;
    var h := Halve(rows, column, val);
    var o := |rows| - |h|;
    if rows[half][column] < val {
      SortedWindow(rows, column, o, |rows|);
      if o <= j {
        assert h[j - o] == rows[j];
      } else {
        MiddleNearer(rows, column, val, j);
        assert h[half - o] == rows[half];
      }
    } else {
      SortedWindow(rows, column, 0, |h|);
      if j < |h| {
        assert h[j] == rows[j];
      } else {
        MiddleNearer(rows, column, val, j);
        assert h[half] == rows[half];
      }
    }
  }

  /** A row on the far side of the middle row from `val` is no nearer to
      it than the middle row. */
  lemma MiddleNearer(rows: seq<Row>, column: nat, val: real, j: nat)
    requires j < |rows| && HasColumn(rows, column) && SortedOn(rows, column)
    requires var half := |rows| / 2;
             (rows[half][column] < val && j < half) || (val <= rows[half][column] && half < j)
    ensures Distance(rows[|rows| / 2][column], val) <= Distance(rows[j][column], val)
  {
  }

  /** Bisection never loses the nearest time: for every row of a sorted
      matrix, some remaining row is at least as near to `val`. */
  lemma {:induction false} NarrowKeepsNearest(rows: seq<Row>, column: nat, val: real, d: real)
    requires HasColumn(rows, column) && SortedOn(rows, column) && SomeWithin(rows, column, val, d)
    ensures SomeWithin(Narrow(rows, column, val), column, val, d)
    decreases |rows|
  {
    if |rows| > 3 {
      var j :| 0 <= j < |rows| && Distance(rows[j][column], val) <= d;
      HalveKeepsNearest(rows, column, val, j);
      var h := Halve(rows, column, val);
      NarrowKeepsNearest(h, column, val, d);
    }
  }

  lemma PickWithin(w: seq<Row>, column: nat, val: real, d: real)
    requires |w| > 0 && HasColumn(w, column) && SomeWithin(w, column, val, d)
    ensures Distance(Pick(w, column, val)[column], val) <= d
  {
    var k :| 0 <= k < |w| && Distance(w[k][column], val) <= d;
    if |w| > 1 {
      var ds := Distances(w, column, val);
      assert ds[k] == Distance(w[k][column], val);
    }
  }

  lemma ChosenRowWithin(m: seq<Row>, column: nat, val: real, d: real)
    requires |m| > 0 && HasColumn(m, column) && SortedOn(m, column) && SomeWithin(m, column, val, d)
    ensures Distance(ChosenRow(m, column, val)[column], val) <= d
  {
    NarrowKeepsNearest(m, column, val, d);
    PickWithin(Narrow(m, column, val), column, val, d);
  }

  /** On a matrix sorted on its time column, `getClosest` picks a row whose
      time is nearest to the query among all rows. */
  lemma ChosenRowIsNearest(m: seq<Row>, column: nat, val: real)
    requires |m| > 0 && HasColumn(m, column) && SortedOn(m, column)
    ensures forall j :: 0 <= j < |m| ==>
              Distance(ChosenRow(m, column, val)[column], val) <= Distance(m[j][column], val)
  {
    forall j | 0 <= j < |m|
      ensures Distance(ChosenRow(m, column, val)[column], val) <= Distance(m[j][column], val)
    {
      ChosenRowWithin(m, column, val, Distance(m[j][column], val));
    }
  }

  /** Among the remaining rows, ties go to the earliest one (`np.argmin`). */
  lemma ChosenRowFirstNearest(m: seq<Row>, column: nat, val: real)
    requires |m| > 0 && HasColumn(m, column)
    ensures exists i :: 0 <= i < |Narrow(m, column, val)|
              && ChosenRow(m, column, val) == Narrow(m, column, val)[i]
              && forall k :: 0 <= k < i ==>
                   Distance(ChosenRow(m, column, val)[column], val)
                   < Distance(Narrow(m, column, val)[k][column], val)
  {
    var w := Narrow(m, column, val);
    if |w| == 1 {
      assert ChosenRow(m, column, val) == w[0];
    } else {
      var ds := Distances(w, column, val);
      var i := ArgMin(ds);
      assert ChosenRow(m, column, val) == w[i];
      assert forall k :: 0 <= k < i ==> ds[k] == Distance(w[k][column], val);
    }
  }

  /** Every converted row carries its sample time and, on a sorted matrix,
      the data of a row nearest to that time. */
  lemma ConvertResamples(column: nat, samples: seq<real>, matrix: seq<Row>, i: nat)
    requires Rectangular(matrix) && |matrix| > 0 && column < |matrix[0]|
    requires SortedOn(matrix, column) && i < |samples|
    ensures Convert(column, samples, matrix).Some?
    ensures Convert(column, samples, matrix).value[i][column] == samples[i]
    ensures forall j :: 0 <= j < |matrix| ==>
              Distance(ChosenRow(matrix, column, samples[i])[column], samples[i])
              <= Distance(matrix[j][column], samples[i])
  {
    ClosestIsRetimedRow(matrix, column, samples[i]);
    ChosenRowIsNearest(matrix, column, samples[i]);
  }

  /** Times 0, 5, 10, 15, 20 carrying 10 .. 50: the query 7 bisects to the
      first three rows and returns the row of time 5 with time 7. */
  lemma ResampleExample()
    ensures Closest([[0.0, 10.0], [5.0, 20.0], [10.0, 30.0], [15.0, 40.0], [20.0, 50.0]], 0, 7.0)
            == [7.0, 20.0]
  {
    var m := [[0.0, 10.0], [5.0, 20.0], [10.0, 30.0], [15.0, 40.0], [20.0, 50.0]];
    var w := [[0.0, 10.0], [5.0, 20.0], [10.0, 30.0]];
    ExampleNarrow();
    ExampleDistances();
    ExampleArgMin();
    assert Pick(w, 0, 7.0) == w[1];
  }

  lemma ExampleNarrow()
    ensures Narrow([[0.0, 10.0], [5.0, 20.0], [10.0, 30.0], [15.0, 40.0], [20.0, 50.0]], 0, 7.0)
            == [[0.0, 10.0], [5.0, 20.0], [10.0, 30.0]]
  {
    var m := [[0.0, 10.0], [5.0, 20.0], [10.0, 30.0], [15.0, 40.0], [20.0, 50.0]];
    assert m[2][0] == 10.0;
    HalveStep(m, 0, 7.0);
    assert m[..3] == [[0.0, 10.0], [5.0, 20.0], [10.0, 30.0]];
  }

  lemma ExampleDistances()
    ensures Distances([[0.0, 10.0], [5.0, 20.0], [10.0, 30.0]], 0, 7.0) == [7.0, 2.0, 3.0]
  {
  }

  lemma ExampleArgMin()
    ensures ArgMin([7.0, 2.0, 3.0]) == 1
  {
    assert [7.0, 2.0, 3.0][1..] == [2.0, 3.0];
    assert [2.0, 3.0][1..] == [3.0];
  }

  // The one-row branch as written (process.py lines 13-16). On a numpy
  // matrix, `sortedMatrix[0]` is itself a 1 x N matrix, not a row, so
  // `result[column] = val` indexes its rows: column 0 overwrites every
  // entry with `val`, and any other column raises `IndexError`. The 1 x N
  // result then makes `np.matrix` in `convert` raise `ValueError` (three
  // dimensions). `Closest`, `GetClosest` and `Convert` above are the
  // corrected definitions, in which the one-row branch retimes the row as
  // the other branch does.

  /** `getClosest` as written, one-row branch included. */
  function GetClosestAsWritten(m: seq<Row>, column: nat, val: real): (r: Option<Row>)
    requires Rectangular(m)
    ensures r.Some? ==> |m| > 0 && |r.value| == |m[0]|
    ensures r.Some? && column < |r.value| ==> r.value[column] == val
  {
    if |m| == 1 then
      if column == 0 then Some(seq(|m[0]|, _ => val)) else None
    else if |m| == 0 || column >= |m[0]| then None
    else Some(Closest(m, column, val))
  }

  /** `convert` as written: a one-row matrix fails for every non-empty
      list of samples, by `IndexError` or by `ValueError`. */
  function ConvertAsWritten(column: nat, samples: seq<real>, matrix: seq<Row>): (r: Option<seq<Row>>)
    requires Rectangular(matrix)
    ensures r.Some? ==> |r.value| == |samples|
    ensures |samples| > 0 && |matrix| == 1 ==> r.None?
  {
    if |samples| > 0 && |matrix| == 1 then None else Convert(column, samples, matrix)
  }

  /** On a matrix of any other number of rows than one, the code as
      written and the corrected definitions agree. */
  lemma AsWrittenAgreesOffOneRow(column: nat, samples: seq<real>, m: seq<Row>, val: real)
    requires Rectangular(m) && |m| != 1
    ensures GetClosestAsWritten(m, column, val).None? <==> |m| == 0 || column >= |m[0]|
    ensures GetClosestAsWritten(m, column, val).Some? ==>
              HasColumn(m, column) && GetClosestAsWritten(m, column, val).value == Closest(m, column, val)
    ensures ConvertAsWritten(column, samples, m) == Convert(column, samples, m)
  {
  }

  /** On a one-row matrix the code as written loses the row: another
      column always fails, and column 0 keeps the row only when every
      other entry already equals `val`. The corrected definition keeps
      the row and replaces its time. */
  lemma OneRowAsWrittenDiffers(row: Row, column: nat, val: real)
    requires column < |row|
    ensures column > 0 ==> GetClosestAsWritten([row], column, val).None?
    ensures column == 0 ==>
              (GetClosestAsWritten([row], column, val) == Some(Closest([row], column, val))
               <==> forall k :: 0 < k < |row| ==> row[k] == val)
    ensures Closest([row], column, val) == row[column := val]
  {
    assert Narrow([row], column, val) == [row];
    if column == 0 {
      if forall k :: 0 < k < |row| ==> row[k] == val {
        assert seq(|row|, _ => val) == row[column := val];
      } else {
        var k :| 0 < k < |row| && row[k] != val;
        assert seq(|row|, _ => val)[k] != row[column := val][k];
      }
    }
  }

  /** The row `[1, 2]` queried at 5: as written, column 1 raises and
      column 0 gives `[5, 5]`, and `convert` fails; the corrected
      definitions give `[1, 5]` and `[5, 2]`. */
  lemma OneRowExample()
    ensures GetClosestAsWritten([[1.0, 2.0]], 1, 5.0) == None
    ensures GetClosestAsWritten([[1.0, 2.0]], 0, 5.0) == Some([5.0, 5.0])
    ensures ConvertAsWritten(0, [5.0], [[1.0, 2.0]]) == None
    ensures Closest([[1.0, 2.0]], 1, 5.0) == [1.0, 5.0]
    ensures Convert(0, [5.0], [[1.0, 2.0]]) == Some([[5.0, 2.0]])
  {
    OneRowAsWrittenDiffers([1.0, 2.0], 1, 5.0);
    OneRowAsWrittenDiffers([1.0, 2.0], 0, 5.0);
    assert seq(2, _ => 5.0) == [5.0, 5.0];
    assert Closest([[1.0, 2.0]], 0, 5.0) == [5.0, 2.0];
    var c := Convert(0, [5.0], [[1.0, 2.0]]);
    assert c.Some? && |c.value| == 1 && c.value[0] == [5.0, 2.0];
    assert c.value == [[5.0, 2.0]];
  }
}
