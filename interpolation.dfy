/** Linear interpolation as `scipy.interpolate.interp1d(x, y, kind='linear')`
    computes it, and the builtin `min`/`max` over a list of numbers. */
module Interpolation {

  ghost predicate StrictlyIncreasing(s: seq<real>) {
    forall i, j :: 0 <= i < j < |s| ==> s[i] < s[j]
  }

  /** A table the interpolant can be built from: at least two strictly
      increasing abscissae and one ordinate per abscissa. */
  ghost predicate ValidTable(grid: seq<real>, ys: seq<real>) {
    |grid| >= 2 && |ys| == |grid| && StrictlyIncreasing(grid)
  }

  /** Python's builtin `min` on a non-empty list of numbers. */
  function SeqMin(s: seq<real>): (m: real)
    requires |s| > 0
    ensures m in s
    ensures forall i :: 0 <= i < |s| ==> m <= s[i]
  {
    if |s| == 1 then s[0]
    else
      var rest := SeqMin(s[1..]);
      if s[0] <= rest then s[0] else rest
  }

  /** Python's builtin `max` on a non-empty list of numbers. */
  function SeqMax(s: seq<real>): (m: real)
    requires |s| > 0
    ensures m in s
    ensures forall i :: 0 <= i < |s| ==> s[i] <= m
  {
    if |s| == 1 then s[0]
    else
      var rest := SeqMax(s[1..]);
      if s[0] >= rest then s[0] else rest
  }

  /** On a strictly increasing grid the extrema are the two end points. */
  lemma IncreasingExtrema(s: seq<real>)
    requires |s| > 0 && StrictlyIncreasing(s)
    ensures SeqMin(s) == s[0]
    ensures SeqMax(s) == s[|s| - 1]
  {
    var lo :| 0 <= lo < |s| && s[lo] == SeqMin(s);
    var hi :| 0 <= hi < |s| && s[hi] == SeqMax(s);
    assert lo == 0 || s[0] < s[lo];
    assert hi == |s| - 1 || s[hi] < s[|s| - 1];
  }

  /** `numpy.searchsorted(s, x, side='left')`: the first index whose
      element is at least `x` (the number of elements below `x` when `s` is
      sorted). */
  function SearchSortedLeft(s: seq<real>, x: real): (i: nat)
    ensures i <= |s|
    ensures forall j :: 0 <= j < i ==> s[j] < x
    ensures i < |s| ==> x <= s[i]
  {
    if |s| == 0 || x <= s[0] then 0
    else 1 + SearchSortedLeft(s[1..], x)
  }

  function Clip(i: int, lo: int, hi: int): int
    requires lo <= hi
  {
    if i < lo then lo else if i > hi then hi else i
  }

  /** The interpolant at one point, as interp1d's linear kernel computes
      it: the segment's upper index is the search position clipped into
      [1, |grid| - 1], and the value is slope * (x - x_lo) + y_lo. */
  function Interp(grid: seq<real>, ys: seq<real>, x: real): real
    requires ValidTable(grid, ys)
  {
    var hi := Clip(SearchSortedLeft(grid, x), 1, |grid| - 1);
    var lo := hi - 1;
    var slope := (ys[hi] - ys[lo]) / (grid[hi] - grid[lo]);
    slope * (x - grid[lo]) + ys[lo]
  }

  /** The straight line through the table points `j` and `j + 1`: the
      reference definition of piecewise-linear interpolation. */
  function Chord(grid: seq<real>, ys: seq<real>, j: nat, x: real): real
    requires ValidTable(grid, ys) && j + 1 < |grid|
  {
    (ys[j + 1] - ys[j]) / (grid[j + 1] - grid[j]) * (x - grid[j]) + ys[j]
  }

  /** interp1d, vectorised over the requested points. */
  function InterpolateRow(grid: seq<real>, ys: seq<real>, ks: seq<real>): seq<real>
    requires ValidTable(grid, ys)
  {
    seq(|ks|, j requires 0 <= j < |ks| => Interp(grid, ys, ks[j]))
  }

  /** The segment interp1d evaluates a point on: the search position
      clipped into [1, |grid| - 1], minus one. */
  function SegmentOf(grid: seq<real>, x: real): (j: nat)
    requires |grid| >= 2
    ensures j + 1 < |grid|
    ensures StrictlyIncreasing(grid) && grid[0] <= x <= grid[|grid| - 1] ==>
      grid[j] <= x <= grid[j + 1]
  {
    Clip(SearchSortedLeft(grid, x), 1, |grid| - 1) - 1
  }

  /** interp1d's value is the chord of the segment the search selects. */
  lemma InterpIsChordOfSegment(grid: seq<real>, ys: seq<real>, x: real)
    requires ValidTable(grid, ys)
    ensures Interp(grid, ys, x) == Chord(grid, ys, SegmentOf(grid, x), x)
  {
  }

  /** A chord passes through both of its table points. */
  lemma ChordAtEnds(grid: seq<real>, ys: seq<real>, j: nat)
    requires ValidTable(grid, ys) && j + 1 < |grid|
    ensures Chord(grid, ys, j, grid[j]) == ys[j]
    ensures Chord(grid, ys, j, grid[j + 1]) == ys[j + 1]
  {
    var d := grid[j + 1] - grid[j];
    assert d > 0.0;
    assert (ys[j + 1] - ys[j]) / d * d == ys[j + 1] - ys[j];
  }

  /** Inside the table, the interpolant is the chord of every segment
      containing the point: the segment the search picks and, at a shared
      node, its neighbour agree. */
  lemma InterpOnSegment(grid: seq<real>, ys: seq<real>, j: nat, x: real)
    requires ValidTable(grid, ys)
    requires j + 1 < |grid| && grid[j] <= x <= grid[j + 1]
    ensures Interp(grid, ys, x) == Chord(grid, ys, j, x)
  {
    var i := SearchSortedLeft(grid, x);
    // the search stops at j or j + 1
    assert j <= i <= j + 1;
    InterpIsChordOfSegment(grid, ys, x);
    var s := SegmentOf(grid, x);
    if s != j {
      // only when x is the node j, reached from the segment on its left
      assert s + 1 == j && x == grid[j];
      ChordAtEnds(grid, ys, s);
      ChordAtEnds(grid, ys, j);
    }
  }

  /** At a table node the interpolant returns the tabulated value. */
  lemma InterpAtNode(grid: seq<real>, ys: seq<real>, i: nat)
    requires ValidTable(grid, ys) && i < |grid|
    ensures Interp(grid, ys, grid[i]) == ys[i]
  {
    var j := if i + 1 < |grid| then i else i - 1;
    InterpOnSegment(grid, ys, j, grid[i]);
    ChordAtEnds(grid, ys, j);
  }

  /** Interpolating onto the table's own grid reproduces the table. */
  lemma InterpolateRowAtGrid(grid: seq<real>, ys: seq<real>)
    requires ValidTable(grid, ys)
    ensures InterpolateRow(grid, ys, grid) == ys
  {
    forall j | 0 <= j < |grid|
      ensures InterpolateRow(grid, ys, grid)[j] == ys[j]
    {
      InterpAtNode(grid, ys, j);
    }
  }

  /** On its own segment a chord lies between its two end values. */
  lemma ChordBetweenEnds(grid: seq<real>, ys: seq<real>, j: nat, x: real)
    requires ValidTable(grid, ys)
    requires j + 1 < |grid| && grid[j] <= x <= grid[j + 1]
    ensures ys[j] <= ys[j + 1] ==> ys[j] <= Chord(grid, ys, j, x) <= ys[j + 1]
    ensures ys[j + 1] <= ys[j] ==> ys[j + 1] <= Chord(grid, ys, j, x) <= ys[j]
  {
    var d := grid[j + 1] - grid[j];
    var t := x - grid[j];
    var dy := ys[j + 1] - ys[j];
    assert 0.0 <= t <= d && d > 0.0;
    var slope := dy / d;
    assert slope * d == dy;
    if dy >= 0.0 {
      assert slope >= 0.0;
      assert 0.0 <= slope * t <= slope * d;
    } else {
      assert slope < 0.0;
      assert slope * d <= slope * t <= 0.0;
    }
  }

  /** On a segment, the interpolant lies between the segment's two
      tabulated values. */
  lemma InterpBetweenNeighbours(grid: seq<real>, ys: seq<real>, j: nat, x: real)
    requires ValidTable(grid, ys)
    requires j + 1 < |grid| && grid[j] <= x <= grid[j + 1]
    ensures ys[j] <= ys[j + 1] ==> ys[j] <= Interp(grid, ys, x) <= ys[j + 1]
    ensures ys[j + 1] <= ys[j] ==> ys[j + 1] <= Interp(grid, ys, x) <= ys[j]
  {
    InterpOnSegment(grid, ys, j, x);
    ChordBetweenEnds(grid, ys, j, x);
  }

  /** Inside the grid the interpolant never leaves the range of the
      tabulated values: no overshoot. */
  lemma InterpWithinRange(grid: seq<real>, ys: seq<real>, x: real)
    requires ValidTable(grid, ys)
    requires grid[0] <= x <= grid[|grid| - 1]
    ensures SeqMin(ys) <= Interp(grid, ys, x) <= SeqMax(ys)
  {
    InterpBetweenNeighbours(grid, ys, SegmentOf(grid, x), x);
  }

  /** Comparing extrema is the same as asking whether some point lies
      outside the grid's end points. */
  lemma OutsideGridIff(ks: seq<real>, grid: seq<real>)
    requires |ks| > 0 && |grid| > 0 && StrictlyIncreasing(grid)
    ensures (SeqMax(ks) > SeqMax(grid) || SeqMin(ks) < SeqMin(grid)) <==>
      exists j :: 0 <= j < |ks| && (ks[j] < grid[0] || ks[j] > grid[|grid| - 1])
  {
    IncreasingExtrema(grid);
    if SeqMax(ks) > grid[|grid| - 1] {
      var j :| 0 <= j < |ks| && ks[j] == SeqMax(ks);
    } else if SeqMin(ks) < grid[0] {
      var j :| 0 <= j < |ks| && ks[j] == SeqMin(ks);
    }
  }
}
