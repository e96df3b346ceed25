/**
 * The offline viewer (plotdata.py): a saved session file is read back and
 * every row whose timestamp lies between the first row's and the last row's
 * is binned onto a fresh 1024 x 1024 grid of ones, in file order, by the same
 * nearest-cell rule as the live reader.
 */
module Replay {
  import opened Seqs
  import opened Binning
  import opened Acquisition

  /** The rows whose timestamps lie in [lo, hi], in file order. */
  function Window(rows: seq<Sample>, lo: int, hi: int): (w: seq<Sample>)
    ensures |w| <= |rows|
  {
    if rows == [] then []
    else
      var last := rows[|rows| - 1];
      Window(rows[..|rows| - 1], lo, hi) + (if lo <= last.timestamp <= hi then [last] else [])
  }

  /** tdata_time[0] and tdata_time[-1]; never consulted for an empty file. */
  function FirstTime(rows: seq<Sample>): int {
    if rows == [] then 0 else rows[0].timestamp
  }

  function LastTime(rows: seq<Sample>): int {
    if rows == [] then 0 else rows[|rows| - 1].timestamp
  }

  /** The rows the replay loop bins: those between the first and the last timestamp. */
  function Plotted(rows: seq<Sample>): seq<Sample> {
    Window(rows, FirstTime(rows), LastTime(rows))
  }

  /** One more row is kept exactly when its timestamp is in the window. */
  lemma WindowSnoc(rows: seq<Sample>, front: seq<Sample>, last: Sample, lo: int, hi: int)
    requires rows == front + [last]
    ensures Window(rows, lo, hi) == Window(front, lo, hi) + (if lo <= last.timestamp <= hi then [last] else [])
  {
    assert rows[..|rows| - 1] == front && rows[|rows| - 1] == last;
  }

  /** A row is kept exactly when it is in the file and its timestamp is in the window. */
  lemma {:induction false} WindowMembers(rows: seq<Sample>, lo: int, hi: int, s: Sample)
    ensures s in Window(rows, lo, hi) <==> s in rows && lo <= s.timestamp <= hi
  {
    if rows != [] {
      var front, last := rows[..|rows| - 1], rows[|rows| - 1];
      WindowMembers(front, lo, hi, s);
      assert rows == front + [last];
    }
  }

  /** When every timestamp is in the window, nothing is filtered out. */
  lemma {:induction false} WindowAll(rows: seq<Sample>, lo: int, hi: int)
    requires forall i :: 0 <= i < |rows| ==> lo <= rows[i].timestamp <= hi
    ensures Window(rows, lo, hi) == rows
  {
    if rows != [] {
      var front, last := rows[..|rows| - 1], rows[|rows| - 1];
      WindowAll(front, lo, hi);
      assert rows == front + [last];
    }
  }

  /** The timestamps never go backwards along the file. */
  predicate InTimeOrder(rows: seq<Sample>) {
    forall i, j :: 0 <= i <= j < |rows| ==> rows[i].timestamp <= rows[j].timestamp
  }

  /** Every row's timestamp lies between the first row's and the last row's. */
  predicate WithinEnds(rows: seq<Sample>) {
    forall i :: 0 <= i < |rows| ==> FirstTime(rows) <= rows[i].timestamp <= LastTime(rows)
  }

  /** The replay uses the whole file exactly when every row lies between the two ends. */
  lemma WholeFileIffWithinEnds(rows: seq<Sample>)
    ensures Plotted(rows) == rows <==> WithinEnds(rows)
  {
    if WithinEnds(rows) {
      WindowAll(rows, FirstTime(rows), LastTime(rows));
    }
    if Plotted(rows) == rows {
      forall i | 0 <= i < |rows|
        ensures FirstTime(rows) <= rows[i].timestamp <= LastTime(rows)
      {
        WindowMembers(rows, FirstTime(rows), LastTime(rows), rows[i]);
      }
    }
  }

  /** A file written with a clock that never goes backwards is replayed in full. */
  lemma InTimeOrderPlotsAll(rows: seq<Sample>)
    requires InTimeOrder(rows)
    ensures Plotted(rows) == rows
  {
    if rows != [] {
      forall i | 0 <= i < |rows|
        ensures FirstTime(rows) <= rows[i].timestamp <= LastTime(rows)
      {
        assert rows[0].timestamp <= rows[i].timestamp <= rows[|rows| - 1].timestamp;
      }
    }
    WholeFileIffWithinEnds(rows);
  }

  /** If the last row is older than the first, the window is empty and the replay shows only ones. */
  lemma ClockWentBackPlotsNothing(rows: seq<Sample>, c: int, r: int)
    requires rows != [] && LastTime(rows) < FirstTime(rows)
    ensures Plotted(rows) == []
    ensures Painted(Plotted(rows), c, r, Unseen) == Unseen
  {
    var w := Plotted(rows);
    if w != [] {
      WindowMembers(rows, FirstTime(rows), LastTime(rows), w[0]);
    }
  }

  /**
   * Reading back a session file gives the samples the live reader binned,
   * and the replay bins all of them, so the replayed grid is the live grid,
   * exactly when no sample is older than the first or newer than the last.
   * A clock that never goes backwards guarantees this (InTimeOrderPlotsAll).
   */
  lemma ReplayMatchesLive(samples: seq<Sample>)
    ensures Plotted(LoggedSamples([Header] + AsRows(samples))) == samples <==> WithinEnds(samples)
  {
    SessionFileReadsBack(samples);
    WholeFileIffWithinEnds(samples);
  }

  /**
   * plotdata.py's loop over a grid z: each row whose timestamp lies in
   * [lo, hi] moves the cursor to its cell and writes 1024 - z there; the
   * other rows change nothing.
   */
  method PaintWindow(z: array2<real>, rows: seq<Sample>, lo: int, hi: int, start: (int, int)) returns (idj: int, idk: int)
    requires z.Length0 == GridSize && z.Length1 == GridSize
    modifies z
    ensures forall c, r :: 0 <= c < GridSize && 0 <= r < GridSize ==>
      z[c, r] == Painted(Window(rows, lo, hi), c, r, old(z[c, r]))
    ensures (idj, idk) == CursorAfter(Window(rows, lo, hi), start)
  {
    idj, idk := start.0, start.1;
    ghost var binned: seq<Sample> := [];
    var i := 0;
    while i < |rows|
      invariant 0 <= i <= |rows| && binned == Window(rows[..i], lo, hi)
      invariant (idj, idk) == CursorAfter(binned, start)
      invariant forall c, r :: 0 <= c < GridSize && 0 <= r < GridSize ==> z[c, r] == Painted(binned, c, r, old(z[c, r]))
    {
      var s := rows[i];
      TakeSnoc(rows, i);
      WindowSnoc(rows[..i + 1], rows[..i], s, lo, hi);
      if lo <= s.timestamp <= hi {
        idj, idk := WriteSample(z, s);
        forall c, r | 0 <= c < GridSize && 0 <= r < GridSize
          ensures z[c, r] == Painted(binned + [s], c, r, old(z[c, r]))
        {
          PaintedSnoc(binned, s, c, r, old(z[c, r]));
        }
        binned := binned + [s];
      }
      i := i + 1;
    }
    TakeAll(rows);
  }

  /**
   * plotdata.py: Z starts as ones and the cursor at (0, 0), and the rows
   * between the first and the last timestamp are binned in file order.
   */
  method ReplayFile(rows: seq<Sample>) returns (z: array2<real>, idj: int, idk: int)
    ensures fresh(z) && z.Length0 == GridSize && z.Length1 == GridSize
    ensures forall c, r :: 0 <= c < GridSize && 0 <= r < GridSize ==> z[c, r] == Painted(Plotted(rows), c, r, Unseen)
    ensures (idj, idk) == CursorAfter(Plotted(rows), (0, 0))
  {
    z := new real[GridSize, GridSize]((c, r) => Unseen);
    idj, idk := 0, 0;
    if rows != [] {
      idj, idk := PaintWindow(z, rows, rows[0].timestamp, rows[|rows| - 1].timestamp, (idj, idk));
    }
  }
}
