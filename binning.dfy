/**
 * Spatial binning shared by the live reader and the offline replay: both
 * build the axis np.linspace(0, 1023, 1024), send a sample to the cell whose
 * axis values are nearest to its x and y (np.argmin, so the first index wins a
 * tie), and store 1024 - z there.
 */
module Binning {
  import opened Seqs

  /** numofpoints: grid points per axis. */
  const GridSize: nat := 1024
  /** The last axis value, np.linspace's stop. */
  const AxisEnd: real := 1023.0
  /** The sensor's full-scale count; a cell holds MaxHeight - z (the data is inverted). */
  const MaxHeight: real := 1024.0
  /** np.ones: the value of a cell no sample has reached. */
  const Unseen: real := 1.0

  /** One accepted reading: the X, Y, Z and timestamp columns of the log. */
  datatype Sample = Sample(x: real, y: real, z: real, timestamp: int)

  function Abs(r: real): real {
    if r < 0.0 then -r else r
  }

  /** The spacing np.linspace(0, AxisEnd, GridSize) leaves between neighbouring values. */
  const GridSpacing: real := AxisEnd / (GridSize - 1) as real

  /** What np.linspace(0, stop, num) promises: num values from 0 to stop in equal steps. */
  predicate IsLinspace(axis: seq<real>, stop: real, num: nat) {
    && |axis| == num
    && (num > 0 ==> axis[0] == 0.0 && axis[num - 1] == stop)
    && (num > 1 ==> forall i :: 0 <= i < num - 1 ==> axis[i + 1] - axis[i] == stop / (num - 1) as real)
  }

  /** np.linspace(0, 1023, 1024), the axis of the grid. */
  function GridAxis(): (axis: seq<real>)
    ensures IsLinspace(axis, AxisEnd, GridSize)
  {
    seq(GridSize, i => i as real)
  }

  /** Equal steps of GridSpacing from 0: value i of the axis is exactly i. */
  lemma {:induction false} LinspaceValues(axis: seq<real>, i: nat)
    requires IsLinspace(axis, AxisEnd, GridSize) && i < GridSize
    ensures axis[i] == i as real
  {
    if i > 0 {
      LinspaceValues(axis, i - 1);
      assert axis[i] - axis[i - 1] == GridSpacing == 1.0;
    }
  }

  /** i is the first index of an axis value at least distance from v. */
  predicate IsFirstNearest(axis: seq<real>, v: real, i: int) {
    && 0 <= i < |axis|
    && (forall j :: 0 <= j < |axis| ==> Abs(axis[i] - v) <= Abs(axis[j] - v))
    && (forall j :: 0 <= j < i ==> Abs(axis[i] - v) < Abs(axis[j] - v))
  }

  /** (np.abs(axis - v)).argmin(): scan the axis, keep an index only on a strictly smaller distance. */
  function ArgMinDistance(axis: seq<real>, v: real): (i: nat)
    requires |axis| > 0
    ensures IsFirstNearest(axis, v, i)
  {
    if |axis| == 1 then 0
    else
      var last := |axis| - 1;
      var i := ArgMinDistance(axis[..last], v);
      if Abs(axis[last] - v) < Abs(axis[i] - v) then last else i
  }

  /** There is only one first nearest index. */
  lemma FirstNearestUnique(axis: seq<real>, v: real, i: int, j: int)
    requires IsFirstNearest(axis, v, i) && IsFirstNearest(axis, v, j)
    ensures i == j
  {
    assert Abs(axis[i] - v) == Abs(axis[j] - v);
  }

  /** The grid cell index of v on the fixed axis, written out: clamp, then round with ties going down. */
  function NearestGridIndex(v: real): nat {
    if v <= 0.0 then 0
    else if v >= AxisEnd then GridSize - 1
    else if v - v.Floor as real <= 0.5 then v.Floor as nat
    else v.Floor as nat + 1
  }

  lemma NearestGridIndexIsFirstNearest(v: real)
    ensures IsFirstNearest(GridAxis(), v, NearestGridIndex(v))
  {
    var axis, i := GridAxis(), NearestGridIndex(v);
    assert 0 <= i < GridSize;
    LinspaceValues(axis, i);
    forall j | 0 <= j < GridSize
      ensures Abs(axis[i] - v) <= Abs(axis[j] - v)
      ensures j < i ==> Abs(axis[i] - v) < Abs(axis[j] - v)
    {
      LinspaceValues(axis, j);
      if 0.0 < v < AxisEnd {
        var f := v.Floor;
        assert f as real <= v < f as real + 1.0;
        if j <= f {
          assert Abs(axis[j] - v) == v - j as real;
        } else {
          assert Abs(axis[j] - v) == j as real - v;
        }
      }
    }
  }

  /**
   * idj = (np.abs(X[0, :] - pos_x)).argmin(), and the same for idk and Y:
   * the cell of a coordinate. Below the axis it is cell 0, above it the last
   * cell, and in between the cell within half a unit, the lower one on a tie.
   * No value is turned away.
   */
  function Bin(v: real): (i: nat)
    ensures i < GridSize && IsFirstNearest(GridAxis(), v, i)
    ensures v <= 0.0 ==> i == 0
    ensures v >= AxisEnd ==> i == GridSize - 1
    ensures 0.0 <= v <= AxisEnd ==> i as real - 0.5 < v <= i as real + 0.5
  {
    NearestGridIndexIsFirstNearest(v);
    FirstNearestUnique(GridAxis(), v, ArgMinDistance(GridAxis(), v), NearestGridIndex(v));
    ArgMinDistance(GridAxis(), v)
  }

  /** A coordinate exactly half-way between two axis values goes to the lower cell. */
  lemma BinTieGoesDown(n: nat)
    requires n < GridSize - 1
    ensures Bin(n as real + 0.5) == n
  {
  }

  /** The cell (idj, idk) a sample is written to. */
  function Cell(s: Sample): (int, int) {
    (Bin(s.x), Bin(s.y))
  }

  /** Z[idj, idk] = 1024 - pos_z. */
  function Height(s: Sample): real {
    MaxHeight - s.z
  }

  /**
   * The value of cell (c, r) after the rows are written in order over a cell
   * that held base: the last row to reach the cell decides it.
   */
  function Painted(rows: seq<Sample>, c: int, r: int, base: real): real {
    if rows == [] then base
    else
      var last := rows[|rows| - 1];
      if Cell(last) == (c, r) then Height(last) else Painted(rows[..|rows| - 1], c, r, base)
  }

  /** (idj, idk) after the rows are written, starting from start. */
  function CursorAfter(rows: seq<Sample>, start: (int, int)): (int, int) {
    if rows == [] then start else Cell(rows[|rows| - 1])
  }

  /**
   * idj = argmin(|x - pos_x|); idk = argmin(|y - pos_y|); Z[idj, idk] = 1024 - pos_z:
   * the sample's cell takes its height and every other cell keeps its value.
   */
  method WriteSample(z: array2<real>, s: Sample) returns (idj: int, idk: int)
    requires z.Length0 == GridSize && z.Length1 == GridSize
    modifies z
    ensures (idj, idk) == Cell(s)
    ensures forall c, r :: 0 <= c < GridSize && 0 <= r < GridSize ==>
      z[c, r] == if (c, r) == Cell(s) then Height(s) else old(z[c, r])
  {
    idj := Bin(s.x);
    idk := Bin(s.y);
    z[idj, idk] := MaxHeight - s.z;
  }

  /** Writing one more row: its own cell takes its height, every other cell is as before. */
  lemma PaintedSnoc(rows: seq<Sample>, s: Sample, c: int, r: int, base: real)
    ensures Painted(rows + [s], c, r, base) == if Cell(s) == (c, r) then Height(s) else Painted(rows, c, r, base)
  {
    assert (rows + [s])[..|rows|] == rows;
  }

  /** A cell no row reaches keeps what it held. */
  lemma {:induction false} PaintedUntouched(rows: seq<Sample>, c: int, r: int, base: real)
    requires forall i :: 0 <= i < |rows| ==> Cell(rows[i]) != (c, r)
    ensures Painted(rows, c, r, base) == base
  {
    if rows != [] {
      PaintedUntouched(rows[..|rows| - 1], c, r, base);
    }
  }

  /** Last write wins: a cell holds the height of the last row that reaches it. */
  lemma {:induction false} PaintedLastWrite(rows: seq<Sample>, i: int, c: int, r: int, base: real)
    requires 0 <= i < |rows| && Cell(rows[i]) == (c, r)
    requires forall j :: i < j < |rows| ==> Cell(rows[j]) != (c, r)
    ensures Painted(rows, c, r, base) == Height(rows[i])
  {
    if i < |rows| - 1 {
      PaintedLastWrite(rows[..|rows| - 1], i, c, r, base);
    }
  }

  /** Writing one batch and then another is writing their concatenation. */
  lemma {:induction false} PaintedAppend(a: seq<Sample>, b: seq<Sample>, c: int, r: int, base: real)
    ensures Painted(a + b, c, r, base) == Painted(b, c, r, Painted(a, c, r, base))
  {
    if b == [] {
      AppendEmpty(a);
    } else {
      var b', last := b[..|b| - 1], b[|b| - 1];
      PaintedAppend(a, b', c, r, base);
      SnocSplit(a, b);
      PaintedSnoc(a + b', last, c, r, base);
      PaintedSnoc(b', last, c, r, Painted(a, c, r, base));
      DropLast(b);
    }
  }

  /** The cursor after two batches is where the second leaves it, starting from where the first did. */
  lemma CursorAppend(a: seq<Sample>, b: seq<Sample>, start: (int, int))
    ensures CursorAfter(a + b, start) == CursorAfter(b, CursorAfter(a, start))
  {
    if b == [] {
      assert a + b == a;
    } else {
      assert (a + b)[|a + b| - 1] == b[|b| - 1];
    }
  }

  /** Writing the same sample twice leaves the grid as writing it once: no accumulation. */
  lemma RepeatedWriteIsIdempotent(rows: seq<Sample>, s: Sample, c: int, r: int, base: real)
    ensures Painted(rows + [s, s], c, r, base) == Painted(rows + [s], c, r, base)
  {
    var once := rows + [s];
    assert rows + [s, s] == once + [s];
    PaintedSnoc(once, s, c, r, base);
    PaintedSnoc(rows, s, c, r, base);
  }

  /** The worked example: (500.4, 10.0, 24.0) lands in cell (500, 10) with height 1000. */
  lemma BinExample(t: int)
    ensures Cell(Sample(500.4, 10.0, 24.0, t)) == (500, 10)
    ensures Height(Sample(500.4, 10.0, 24.0, t)) == 1000.0
  {
  }
}
