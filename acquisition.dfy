/**
 * The serial reader (read_AFM) and the capture set-up it writes into
 * (newimagefile): each line from the microcontroller is stripped, split on
 * commas and read as x, y, z; accepted samples are buffered, and once more
 * than buferlenght of them are waiting they are binned into the height map in
 * arrival order and appended to the session's CSV file.
 */
module Acquisition {
  import opened Optional
  import opened Text
  import opened Binning
  import opened Seqs

  /** buferlenght: the flush runs once the count of buffered samples exceeds it. */
  const BufferLength: nat := 3

  /** What one pass of the reading loop makes of a line. */
  datatype LineOutcome =
    | Blank                        // nothing but whitespace (or a read that timed out)
    | WrongFieldCount(count: nat)  // "Unexpected data format"
    | BadNumber(field: nat)        // float() raised ValueError on this field, the first such
    | Parsed(x: real, y: real, z: real)

  /** [x.strip() for x in data.split(',')]. */
  function Fields(data: string): (fields: seq<string>)
    ensures |fields| == multiset(data)[','] + 1
    ensures forall i :: 0 <= i < |fields| ==> Trimmed(fields[i])
  {
    SplitCount(data, ',');
    var pieces := Split(data, ',');
    seq(|pieces|, i requires 0 <= i < |pieces| => Strip(pieces[i]))
  }

  /**
   * The three stripped fields of a non-blank line, read in order: other than
   * three fields is a wrong field count, and otherwise the first field that
   * float() refuses is reported, or all three values are returned.
   */
  function ParseFields(fields: seq<string>): (o: LineOutcome)
    ensures !o.Blank?
    ensures o.WrongFieldCount? <==> |fields| != 3
    ensures o.WrongFieldCount? ==> o.count == |fields|
    ensures o.BadNumber? ==> (o.field < 3 == |fields| && ParseNumber(fields[o.field]).None?
      && (o.field > 0 ==> ParseNumber(fields[0]).Some?) && (o.field > 1 ==> ParseNumber(fields[1]).Some?))
    ensures o.Parsed? ==> (|fields| == 3
      && ParseNumber(fields[0]) == Some(o.x) && ParseNumber(fields[1]) == Some(o.y) && ParseNumber(fields[2]) == Some(o.z))
  {
    if |fields| != 3 then WrongFieldCount(|fields|)
    else
      var x, y, z := ParseNumber(fields[0]), ParseNumber(fields[1]), ParseNumber(fields[2]);
      if x.None? then BadNumber(0)
      else if y.None? then BadNumber(1)
      else if z.None? then BadNumber(2)
      else Parsed(x.value, y.value, z.value)
  }

  /**
   * One line as read_AFM treats it: a line of whitespace is skipped, and
   * otherwise the line is stripped and its comma-separated fields are read.
   */
  function ParseLine(line: string): (o: LineOutcome)
    ensures o.Blank? <==> AllSpace(line)
    ensures o.WrongFieldCount? ==> o.count != 3 && o.count == multiset(line)[','] + 1
    ensures o.BadNumber? || o.Parsed? ==> multiset(line)[','] == 2
    ensures !AllSpace(line) && multiset(line)[','] != 2 ==> o == WrongFieldCount(multiset(line)[','] + 1)
  {
    var data := Strip(line);
    StripKeepsOthers(line, ',');
    if data == [] then Blank else ParseFields(Fields(data))
  }

  /** The line the microcontroller prints for integer readings a, b, c, with any padding around it. */
  function SampleLine(pre: string, a: int, b: int, c: int, post: string): string {
    pre + FormatInt(a) + "," + FormatInt(b) + "," + FormatInt(c) + post
  }

  /** A line that splits into three already stripped pieces has those pieces as its fields. */
  lemma FieldsOfThree(line: string, fa: string, fb: string, fc: string)
    requires Split(line, ',') == [fa, fb, fc]
    requires Trimmed(fa) && Trimmed(fb) && Trimmed(fc)
    ensures Fields(line) == [fa, fb, fc]
  {
    StripTrimmed(fa);
    StripTrimmed(fb);
    StripTrimmed(fc);
  }

  /** The stripped text of a printed line is the three numerals and their commas. */
  lemma StripSampleLine(pre: string, a: int, b: int, c: int, post: string)
    requires AllSpace(pre) && AllSpace(post)
    ensures Strip(SampleLine(pre, a, b, c, post)) == FormatInt(a) + "," + FormatInt(b) + "," + FormatInt(c)
  {
    var fa, fb, fc := FormatInt(a), FormatInt(b), FormatInt(c);
    FormatIntChars(a);
    FormatIntChars(c);
    var core := fa + "," + fb + "," + fc;
    assert core[0] == fa[0] && core[|core| - 1] == fc[|fc| - 1];
    assert SampleLine(pre, a, b, c, post) == pre + core + post;
    StripPadded(pre, core, post);
  }

  /** Every line printed as three comma-separated integers is accepted with exactly those values. */
  lemma ParseSampleLine(pre: string, a: int, b: int, c: int, post: string)
    requires AllSpace(pre) && AllSpace(post)
    ensures ParseLine(SampleLine(pre, a, b, c, post)) == Parsed(a as real, b as real, c as real)
  {
    var fa, fb, fc := FormatInt(a), FormatInt(b), FormatInt(c);
    FormatIntChars(a);
    FormatIntChars(b);
    FormatIntChars(c);
    assert ',' !in fa && ',' !in fb && ',' !in fc by {
      assert !IsNumeralChar(',');
    }
    StripSampleLine(pre, a, b, c, post);
    SplitThree(fa, fb, fc, ',');
    FieldsOfThree(fa + "," + fb + "," + fc, fa, fb, fc);
    ParseFormatInt(a);
    ParseFormatInt(b);
    ParseFormatInt(c);
  }

  /** One line of the serial stream and the clock reading taken when it was accepted. */
  datatype SerialLine = SerialLine(text: string, now: int)

  /** The sample one line yields, if it is accepted. */
  function Yield(line: SerialLine): (samples: seq<Sample>)
    ensures |samples| <= 1
  {
    var o := ParseLine(line.text);
    if o.Parsed? then [Sample(o.x, o.y, o.z, line.now)] else []
  }

  /** How many of `count` samples pushed through the buffer are still waiting: the flush writes them in blocks of buferlenght + 1. */
  function Waiting(count: nat): nat
  {
    count % (BufferLength + 1)
  }

  /** One more sample through the buffer: the waiting count wraps to zero exactly when the flush test fires. */
  lemma WaitingStep(before: seq<Sample>, y: seq<Sample>, waiting: nat)
    requires waiting == Waiting(|before|) && |y| <= 1
    ensures Waiting(|before + y|) == if waiting + |y| > BufferLength then 0 else waiting + |y|
  {
  }

  /** The samples a sequence of lines yields, in arrival order. */
  function Accepted(lines: seq<SerialLine>): (samples: seq<Sample>)
    ensures |samples| <= |lines|
  {
    if lines == [] then [] else Accepted(lines[..|lines| - 1]) + Yield(lines[|lines| - 1])
  }

  /** One more line adds what that line yields, after everything before it. */
  lemma AcceptedSnoc(lines: seq<SerialLine>, front: seq<SerialLine>, last: SerialLine)
    requires lines == front + [last]
    ensures Accepted(lines) == Accepted(front) + Yield(last)
  {
    assert lines[..|lines| - 1] == front && lines[|lines| - 1] == last;
  }

  /** Lines that are blank or malformed add nothing, wherever they sit in the stream. */
  lemma {:induction false} AcceptedSkipsRejected(a: seq<SerialLine>, bad: SerialLine, b: seq<SerialLine>)
    requires !ParseLine(bad.text).Parsed?
    ensures Accepted(a + [bad] + b) == Accepted(a + b)
  {
    if b == [] {
      AppendEmpty(a + [bad]);
      AppendEmpty(a);
      AcceptedSnoc(a + [bad], a, bad);
      AppendEmpty(Accepted(a));
    } else {
      var b', last := b[..|b| - 1], b[|b| - 1];
      AcceptedSkipsRejected(a, bad, b');
      SnocSplit(a + [bad], b);
      SnocSplit(a, b);
      AcceptedSnoc(a + [bad] + b, a + [bad] + b', last);
      AcceptedSnoc(a + b, a + b', last);
    }
  }

  /** One line of the CSV session file. */
  datatype LogLine = Header | Row(sample: Sample)

  /** The data rows df1.to_csv(mode='a', header=False) appends for a batch. */
  function AsRows(samples: seq<Sample>): seq<LogLine> {
    seq(|samples|, i requires 0 <= i < |samples| => Row(samples[i]))
  }

  /** Rows for two batches written one after the other are the rows for both. */
  lemma AsRowsAppend(a: seq<Sample>, b: seq<Sample>)
    ensures AsRows(a) + AsRows(b) == AsRows(a + b)
  {
  }

  /**
   * The samples recorded in the rows of a log, read back in file order.
   * pd.read_csv takes the first line as the header; a header line anywhere
   * else is skipped here, which files written by the reader never contain
   * (SessionFileReadsBack).
   */
  function LoggedSamples(log: seq<LogLine>): (samples: seq<Sample>)
    ensures |samples| <= |log|
  {
    if log == [] then []
    else
      var rest := LoggedSamples(log[..|log| - 1]);
      match log[|log| - 1]
      case Row(s) => rest + [s]
      case Header => rest
  }

  /** A session file holds the header only in its first line, and reads back as exactly the samples written to it. */
  lemma {:induction false} SessionFileReadsBack(samples: seq<Sample>)
    ensures LoggedSamples([Header] + AsRows(samples)) == samples
    ensures Header !in AsRows(samples)
  {
    var log := [Header] + AsRows(samples);
    if samples != [] {
      var front, last := samples[..|samples| - 1], samples[|samples| - 1];
      SessionFileReadsBack(front);
      AsRowsAppend(front, [last]);
      assert samples == front + [last];
      AppendAssoc([Header], AsRows(front), AsRows([last]));
      assert log[..|log| - 1] == [Header] + AsRows(front);
    }
  }

  /**
   * The reader's state together with the capture it writes into: the height
   * map Z, the cursor (idj, idk), read_AFM's buffer df1 and counter k, and
   * the lines of the current CSV file.
   */
  class Capture {
    /** Z, indexed [idj, idk]. */
    var grid: array2<real>
    /** The cell written last. */
    var idj: int
    var idk: int
    /** df1: accepted samples not yet binned or written to the file. */
    var buffer: seq<Sample>
    /** k: samples accepted since the last flush. */
    var k: nat
    /** The lines of the current session's CSV file. */
    var log: seq<LogLine>
    /** The samples written to the current file so far, in order. */
    ghost var logged: seq<Sample>

    /** The height map is what binning the file's rows in order onto a fresh grid of ones gives. */
    ghost predicate Painting()
      reads this`grid, this`logged, grid
    {
      && grid.Length0 == GridSize && grid.Length1 == GridSize
      && forall c, r :: 0 <= c < GridSize && 0 <= r < GridSize ==> grid[c, r] == Painted(logged, c, r, Unseen)
    }

    /** Everything but the bound on the buffer, which holds between passes of the loop. */
    ghost predicate Consistent()
      reads this, grid
    {
      && Painting()
      && k == |buffer|
      && log == [Header] + AsRows(logged)
      && (idj, idk) == CursorAfter(logged, (0, 0))
    }

    /**
     * The state between passes of the reading loop: the grid and cursor are
     * exactly what binning the file's rows in order onto a fresh grid gives,
     * and at most buferlenght samples wait in the buffer.
     */
    ghost predicate Valid()
      reads this, grid
    {
      Consistent() && k <= BufferLength
    }

    /** Start-up: read_AFM's empty buffer and k = 0, and the first newimagefile. */
    constructor ()
      ensures Valid() && fresh(grid)
      ensures buffer == [] && logged == []
    {
      grid := new real[GridSize, GridSize]((c, r) => Unseen);
      idj, idk := 0, 0;
      buffer, k := [], 0;
      log := [Header];
      logged := [];
    }

    /**
     * newimagefile: a fresh grid of ones, the cursor at (0, 0) and a new file
     * holding only the header. The reader's buffer and counter are not its
     * globals and carry over into the new capture.
     */
    method NewImageFile()
      requires Valid()
      modifies this
      ensures Valid() && fresh(grid)
      ensures logged == [] && log == [Header] && idj == 0 && idk == 0
      ensures forall c, r :: 0 <= c < GridSize && 0 <= r < GridSize ==> grid[c, r] == Unseen
      ensures buffer == old(buffer) && k == old(k)
    {
      grid := new real[GridSize, GridSize]((c, r) => Unseen);
      idj, idk := 0, 0;
      log := [Header];
      logged := [];
    }

    /**
     * The binning loop of the flush: for each row in order, move the cursor
     * to its cell and write its height there.
     */
    method Paint(rows: seq<Sample>)
      requires grid.Length0 == GridSize && grid.Length1 == GridSize
      modifies this`idj, this`idk, grid
      ensures (idj, idk) == CursorAfter(rows, (old(idj), old(idk)))
      ensures forall c, r :: 0 <= c < GridSize && 0 <= r < GridSize ==>
        grid[c, r] == Painted(rows, c, r, old(grid[c, r]))
    {
      ghost var batch: seq<Sample> := [];
      var i := 0;
      while i < |rows|
        invariant 0 <= i <= |rows| && batch == rows[..i]
        invariant (idj, idk) == CursorAfter(batch, (old(idj), old(idk)))
        invariant forall c, r :: 0 <= c < GridSize && 0 <= r < GridSize ==>
          grid[c, r] == Painted(batch, c, r, old(grid[c, r]))
      {
        var s := rows[i];
        idj, idk := WriteSample(grid, s);
        forall c, r | 0 <= c < GridSize && 0 <= r < GridSize
          ensures grid[c, r] == Painted(batch + [s], c, r, old(grid[c, r]))
        {
          PaintedSnoc(batch, s, c, r, old(grid[c, r]));
        }
        TakeSnoc(rows, i);
        batch := batch + [s];
        i := i + 1;
      }
      TakeAll(rows);
    }

    /**
     * The flush: every buffered sample is binned in order, each writing its
     * height into its cell and moving the cursor there; the batch is appended
     * to the file and the buffer emptied.
     */
    method Flush()
      requires Consistent()
      modifies this, grid
      ensures Valid() && grid == old(grid)
      ensures buffer == [] && k == 0 && logged == old(logged) + old(buffer)
      ensures log == old(log) + AsRows(old(buffer))
      ensures (idj, idk) == CursorAfter(old(buffer), (old(idj), old(idk)))
      ensures forall c, r :: 0 <= c < GridSize && 0 <= r < GridSize ==>
        grid[c, r] == Painted(old(buffer), c, r, old(grid[c, r]))
    {
      var rows := buffer;
      Paint(rows);
      forall c, r | 0 <= c < GridSize && 0 <= r < GridSize
        ensures grid[c, r] == Painted(logged + rows, c, r, Unseen)
      {
        PaintedAppend(logged, rows, c, r, Unseen);
      }
      CursorAppend(logged, rows, (0, 0));
      AsRowsAppend(logged, rows);
      AppendAssoc([Header], AsRows(logged), AsRows(rows));
      log := log + AsRows(rows);
      logged := logged + rows;
      buffer, k := [], 0;
    }

    /**
     * An accepted sample: appended to the buffer and counted, and when the
     * count passes buferlenght the buffer is flushed.
     */
    method Accept(s: Sample)
      requires Valid()
      modifies this, grid
      ensures Valid() && grid == old(grid)
      ensures if old(k) + 1 > BufferLength then buffer == [] && logged == old(logged) + old(buffer) + [s]
        else buffer == old(buffer) + [s] && logged == old(logged)
    {
      buffer := buffer + [s];
      k := k + 1;
      if k > BufferLength {
        Flush();
        AppendAssoc(old(logged), old(buffer), [s]);
      }
    }

    /**
     * One pass of read_AFM's loop over a line read at time now. An accepted
     * line goes to Accept. Any other line changes nothing: a wrong field
     * count skips the rest of the pass (the loop's continue), and after a
     * blank line or a bad number the flush test fails because k is at most
     * buferlenght.
     */
    method ReadLine(line: string, now: int)
      requires Valid()
      modifies this, grid
      ensures Valid() && grid == old(grid)
      ensures logged + buffer == old(logged) + old(buffer) + Yield(SerialLine(line, now))
      ensures var y := Yield(SerialLine(line, now));
        if old(k) + |y| > BufferLength then buffer == [] && logged == old(logged) + old(buffer) + y
        else buffer == old(buffer) + y && logged == old(logged)
      ensures |logged| == |old(logged)| || |logged| == |old(logged)| + BufferLength + 1
      ensures !ParseLine(line).Parsed? ==> unchanged(this) && unchanged(grid)
    {
      var o := ParseLine(line);
      if o.Parsed? {
        var s := Sample(o.x, o.y, o.z, now);
        Accept(s);
        AppendAssoc(old(logged), old(buffer), [s]);
      } else {
        AppendEmpty(logged + buffer);
        AppendEmpty(buffer);
      }
    }

    /**
     * read_AFM's endless loop over a finite stretch of the stream: every
     * accepted sample ends up, in arrival order, either in the file or in
     * the buffer, which never holds more than buferlenght samples.
     */
    method Ingest(lines: seq<SerialLine>)
      requires Valid()
      modifies this, grid
      ensures Valid() && grid == old(grid)
      ensures logged + buffer == old(logged) + old(buffer) + Accepted(lines)
      ensures |buffer| <= BufferLength
      ensures |buffer| == Waiting(|old(buffer) + Accepted(lines)|)
    {
      var i := 0;
      assert old(buffer) + Accepted(lines[..0]) == buffer;
      while i < |lines|
        invariant 0 <= i <= |lines|
        invariant Valid() && grid == old(grid)
        invariant logged + buffer == old(logged) + old(buffer) + Accepted(lines[..i])
        invariant |buffer| == Waiting(|old(buffer) + Accepted(lines[..i])|)
      {
        WaitingStep(old(buffer) + Accepted(lines[..i]), Yield(lines[i]), |buffer|);
        ReadLine(lines[i].text, lines[i].now);
        TakeSnoc(lines, i);
        AcceptedSnoc(lines[..i + 1], lines[..i], lines[i]);
        AppendAssoc(old(logged) + old(buffer), Accepted(lines[..i]), Yield(lines[i]));
        AppendAssoc(old(buffer), Accepted(lines[..i]), Yield(lines[i]));
        i := i + 1;
      }
      TakeAll(lines);
    }
  }
}
