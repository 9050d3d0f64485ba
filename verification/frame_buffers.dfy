/** The loops of the frame server that fill a frame from a packet and a packet from a frame. */
module FrameBuffers {
  import opened Base
  import opened FrameLayout

  /** The rows of a three-dimensional array. */
  function CellsOf(a: array3<Byte>): (cells: Cells)
    reads a
    ensures GridOf(a).Shapes(cells)
    ensures forall i, j, k :: 0 <= i < a.Length0 && 0 <= j < a.Length1 && 0 <= k < a.Length2 ==> cells[i][j][k] == a[i, j, k]
  {
    seq(a.Length0, i requires 0 <= i < a.Length0 reads a =>
      seq(a.Length1, j requires 0 <= j < a.Length1 reads a =>
        seq(a.Length2, k requires 0 <= k < a.Length2 reads a => a[i, j, k])))
  }

  function GridOf(a: array3<Byte>): Grid { Grid(a.Length0, a.Length1, a.Length2) }

  /** The two ways in which an offset is written. */
  lemma OffsetsAgree(g: Grid, i: nat, j: nat, k: nat)
    ensures i * (g.channels * g.columns + 1) + j * g.channels + k == g.Offset(i, j, k)
  {
    assert g.channels * g.columns == g.Width();
  }

  /** One of the nested loops in listen. */
  method FillGrid(a: array3<Byte>, buf: seq<Byte>, base: nat)
    requires base + GridOf(a).Size() <= |buf|
    modifies a
    ensures CellsOf(a) == Read(GridOf(a), buf, base)
  {
    ghost var g := GridOf(a);
    hide CellAt, Read, Grid.Offset, Grid.Size, CellsOf;
    for i := 0 to a.Length0
      invariant Filled(a, buf, base, i, 0, 0)
    {
      for j := 0 to a.Length1
        invariant Filled(a, buf, base, i, j, 0)
      {
        for k := 0 to a.Length2
          invariant Filled(a, buf, base, i, j, k)
        {
          CellIs(g, buf, base, i, j, k);
          a[i, j, k] := buf[base + (i * (a.Length2 * a.Length1 + 1) + j * a.Length2 + k)];
        }
      }
    }
    ReadAt(g, buf, base);
    SameCells(g, CellsOf(a), Read(g, buf, base));
  }

  lemma CellIs(g: Grid, buf: seq<Byte>, base: nat, i: nat, j: nat, k: nat)
    requires base + g.Size() <= |buf| && g.Has(i, j, k)
    ensures
      var p := base + (i * (g.channels * g.columns + 1) + j * g.channels + k);
      0 <= p < |buf| && buf[p] == CellAt(g, buf, base, i, j, k)
  {
    OffsetsAgree(g, i, j, k);
    InBounds(g, i, j, k);
  }

  /** The cells before (i, j, k), row by row, hold what the packet has for them. */
  ghost predicate Filled(a: array3<Byte>, buf: seq<Byte>, base: nat, i: nat, j: nat, k: nat)
    requires base + GridOf(a).Size() <= |buf|
    reads a
  {
    forall x: nat, y: nat, z: nat :: GridOf(a).Has(x, y, z) && (x < i || (x == i && (y < j || (y == j && z < k)))) ==>
      a[x, y, z] == CellAt(GridOf(a), buf, base, x, y, z)
  }

  lemma SpliceOn(was: seq<Byte>, base: nat, s: seq<Byte>, t: seq<Byte>)
    requires base + |s| + |t| <= |was|
    ensures Splice(Splice(was, base, s), base + |s|, t) == Splice(was, base, s + t)
  {}

  lemma SpliceNothing(was: seq<Byte>, base: nat)
    requires base <= |was|
    ensures Splice(was, base, []) == was
  {}

  lemma ConcatSteps(chunks: seq<seq<Byte>>, i: nat)
    requires i <= |chunks|
    ensures Concat(chunks[..0]) == [] && chunks[..|chunks|] == chunks
    ensures i < |chunks| ==> Concat(chunks[..i + 1]) == Concat(chunks[..i]) + chunks[i]
  {
    if i < |chunks| { assert chunks[..i + 1][..i] == chunks[..i]; }
  }

  lemma RowFits(g: Grid, i: nat)
    ensures g.Offset(0, 0, 0) == 0
    ensures g.Offset(i, 0, 0) + g.Stride() == g.Offset(i + 1, 0, 0)
    ensures i < g.rows ==> g.Offset(i + 1, 0, 0) <= g.Size()
    ensures g.Offset(g.rows, 0, 0) == g.Size()
  {
    if i < g.rows { Below(i, g.rows, g.Stride()); }
  }

  lemma PixelFits(g: Grid, j: nat)
    ensures g.Offset(0, 0, 0) == 0 && g.Newline(0) + 1 == g.Stride()
    ensures g.Offset(0, j, 0) + g.channels == g.Offset(0, j + 1, 0)
    ensures j < g.columns ==> g.Offset(0, j + 1, 0) <= g.Newline(0)
    ensures g.Offset(0, g.columns, 0) == g.Newline(0)
  {
    if j < g.columns { Below(j, g.columns, g.channels); }
  }

  /** One of the nested loops in send. */
  method WriteGrid(a: array3<Byte>, data: array<Byte>, base: nat)
    requires base + GridOf(a).Size() <= data.Length
    modifies data
    ensures |DrawGrid(CellsOf(a))| == GridOf(a).Size()
    ensures data[..] == Splice(old(data[..]), base, DrawGrid(CellsOf(a)))
  {
    var g := GridOf(a);
    ghost var cells, was := CellsOf(a), data[..];
    ghost var rows := Rows(cells);
    RowsShaped(g, cells);
    hide CellsOf, Concat, Splice, Grid.Offset, Grid.Size, Grid.Stride;
    ConcatSteps(rows, 0);
    SpliceNothing(was, base);
    RowFits(g, 0);
    for i := 0 to a.Length0
      invariant |Concat(rows[..i])| == g.Offset(i, 0, 0) <= g.Size()
      invariant data[..] == Splice(was, base, Concat(rows[..i]))
    {
      RowFits(g, i);
      ConcatSteps(rows, i);
      SpliceOn(was, base, Concat(rows[..i]), rows[i]);
      WriteRow(a, i, data, base + g.Offset(i, 0, 0));
    }
  }

  method WriteRow(a: array3<Byte>, i: nat, data: array<Byte>, at: nat)
    requires i < a.Length0 && at + GridOf(a).Stride() <= data.Length
    modifies data
    ensures |Row(CellsOf(a)[i])| == GridOf(a).Stride()
    ensures data[..] == Splice(old(data[..]), at, Row(CellsOf(a)[i]))
  {
    var g := GridOf(a);
    ghost var pixels, was := Concat(CellsOf(a)[i]), data[..];
    PixelFits(g, 0);
    hide CellsOf, Concat, Splice, Grid.Newline, Grid.Stride;
    WritePixels(a, i, data, at);
    SpliceOn(was, at, pixels, [NEWLINE]);
    SpliceOne(data[..], at + g.Newline(0), NEWLINE);
    data[at + g.Newline(0)] := NEWLINE;
  }

  method WritePixels(a: array3<Byte>, i: nat, data: array<Byte>, at: nat)
    requires i < a.Length0 && at + GridOf(a).Newline(0) <= data.Length
    modifies data
    ensures |Concat(CellsOf(a)[i])| == GridOf(a).Newline(0)
    ensures data[..] == Splice(old(data[..]), at, Concat(CellsOf(a)[i]))
  {
    var g := GridOf(a);
    ghost var pixels, was := CellsOf(a)[i], data[..];
    ConcatLength(pixels, g.channels);
    PixelFits(g, 0);
    PixelFits(g, g.columns);
    assert |Concat(pixels)| == g.Newline(0);
    hide CellsOf, Concat, Splice, Grid.Offset, Grid.Newline;
    ConcatSteps(pixels, 0);
    SpliceNothing(was, at);
    for j := 0 to a.Length1
      invariant |Concat(pixels[..j])| == g.Offset(0, j, 0) <= g.Newline(0)
      invariant data[..] == Splice(was, at, Concat(pixels[..j]))
    {
      PixelFits(g, j);
      ConcatSteps(pixels, j);
      SpliceOn(was, at, Concat(pixels[..j]), pixels[j]);
      WritePixel(a, i, j, data, at + g.Offset(0, j, 0));
    }
  }

  lemma SpliceOne(was: seq<Byte>, p: nat, b: Byte)
    requires p < |was|
    ensures was[p := b] == Splice(was, p, [b])
  {}

  method WritePixel(a: array3<Byte>, i: nat, j: nat, data: array<Byte>, at: nat)
    requires i < a.Length0 && j < a.Length1 && at + a.Length2 <= data.Length
    modifies data
    ensures data[..] == Splice(old(data[..]), at, CellsOf(a)[i][j])
  {
    ghost var pixel, was := CellsOf(a)[i][j], data[..];
    for k := 0 to a.Length2
      invariant data[..] == Splice(was, at, pixel[..k])
    {
      data[at + k] := a[i, j, k];
    }
  }

  ghost predicate Fits(l: Layout, windows: array3<Byte>, segments: array3<Byte>) {
    GridOf(windows) == l.windows && GridOf(segments) == l.segments
  }

  /** The two nested loops of listen, on a packet that has the right hash. */
  method ParseBuffer(l: Layout, buf: seq<Byte>, windows: array3<Byte>, segments: array3<Byte>) returns (f: Frame)
    requires |buf| == l.Length() && Fits(l, windows, segments) && windows != segments
    modifies windows, segments
    ensures f == Grids(l, buf)
  {
    hide CellsOf, Read;
    FillGrid(windows, buf, HEADEROFFSET);
    FillGrid(segments, buf, HEADEROFFSET + l.windows.Size());
    f := Frame(buf[10], CellsOf(windows), CellsOf(segments));
  }

  /** The two nested loops of send: the header stays what it was. */
  method Serialise(l: Layout, z: Byte, windows: array3<Byte>, segments: array3<Byte>, data: array<Byte>)
    requires data.Length == l.Length() && Fits(l, windows, segments)
    modifies data
    ensures data[..] == old(data[..])[..HEADEROFFSET] + Body(Frame(z, CellsOf(windows), CellsOf(segments)))
  {
    ghost var was := data[..];
    hide CellsOf, DrawGrid;
    WriteGrid(windows, data, HEADEROFFSET);
    WriteGrid(segments, data, HEADEROFFSET + l.windows.Size());
    hide Splice;
    TwoSplices(was, HEADEROFFSET, DrawGrid(CellsOf(windows)), DrawGrid(CellsOf(segments)));
  }

  lemma TwoSplices(was: seq<Byte>, base: nat, s: seq<Byte>, t: seq<Byte>)
    requires base + |s| + |t| == |was|
    ensures Splice(Splice(was, base, s), base + |s|, t) == was[..base] + (s + t)
  {}

  /**
   * What send puts on the wire has the server's windows and segments in its body; but as the
   * header is never written and stays zero, no frame server accepts it as a packet.
   */
  lemma SentFrame(l: Layout, f: Frame)
    requires l.Shapes(f)
    ensures
      var sent := seq(HEADEROFFSET, _ => 0 as Byte) + Body(f);
      && |sent| == l.Length()
      && Grids(l, sent) == f.(z := 0)
      && Parse(l, sent) == None
  {
    var header := seq<Byte>(HEADEROFFSET, _ => 0);
    hide Body, Grids;
    BodyRoundTrip(l, f, header);
    assert (header + Body(f))[0] == 0;
    assert (header + Body(f))[..|HASH|][0] != HASH[0];
  }
}
