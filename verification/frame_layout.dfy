/**
 * The bytes of a frame on the wire: a header, then two grids of cells. A cell is a few channels,
 * and a newline follows each row.
 */
module FrameLayout {
  import opened Base

  const NEWLINE: Byte := 10
  const HASH: seq<Byte> := [115, 50, 108, 10, 60, 56, 60, 49, 56, 32]   // "s2l\n<8<18 "
  const HEADEROFFSET := 12

  type Cells = seq<seq<seq<Byte>>>

  datatype Grid = Grid(rows: nat, columns: nat, channels: nat)
  {
    function Width(): nat { columns * channels }

    function Stride(): nat { Width() + 1 }

    function Size(): nat { rows * Stride() }

    predicate Has(i: nat, j: nat, a: nat) { i < rows && j < columns && a < channels }

    function Offset(i: nat, j: nat, a: nat): nat { i * Stride() + j * channels + a }

    function Newline(i: nat): nat { i * Stride() + Width() }

    ghost predicate Shapes(cells: Cells) {
      && |cells| == rows
      && forall i :: 0 <= i < rows ==> |cells[i]| == columns && EachHas(cells[i], channels)
    }
  }

  ghost predicate EachHas(chunks: seq<seq<Byte>>, n: nat) {
    forall i :: 0 <= i < |chunks| ==> |chunks[i]| == n
  }

  // ----- Positions

  lemma {:induction false} Below(i: nat, n: nat, m: nat)
    requires i < n
    ensures i * m + m <= n * m
    decreases n
  {
    assert n * m == (n - 1) * m + m;
    if i < n - 1 { Below(i, n - 1, m); }
  }

  lemma SameDigits(m: nat, i: nat, x: nat, j: nat, y: nat)
    requires x < m && y < m && i * m + x == j * m + y
    ensures i == j && x == y
  {
    if i < j { Below(i, j, m); }
    if j < i { Below(j, i, m); }
  }

  lemma InRow(g: Grid, j: nat, a: nat)
    requires j < g.columns && a < g.channels
    ensures j * g.channels + a < g.Width()
  {
    Below(j, g.columns, g.channels);
  }

  lemma InBounds(g: Grid, i: nat, j: nat, a: nat)
    requires g.Has(i, j, a)
    ensures g.Offset(i, j, a) < g.Newline(i) < g.Size()
  {
    InRow(g, j, a);
    Below(i, g.rows, g.Stride());
  }

  /** Every channel has a byte of its own. */
  lemma OffsetsAreDistinct(g: Grid, i: nat, j: nat, a: nat, i': nat, j': nat, a': nat)
    requires g.Has(i, j, a) && g.Has(i', j', a') && g.Offset(i, j, a) == g.Offset(i', j', a')
    ensures i == i' && j == j' && a == a'
  {
    InRow(g, j, a);
    InRow(g, j', a');
    SameDigits(g.Stride(), i, j * g.channels + a, i', j' * g.channels + a');
    SameDigits(g.channels, j, a, j', a');
  }

  /** No channel sits on a newline. */
  lemma NewlinesAreApart(g: Grid, i: nat, j: nat, a: nat, row: nat)
    requires g.Has(i, j, a) && row < g.rows
    ensures g.Offset(i, j, a) != g.Newline(row)
  {
    InRow(g, j, a);
    if g.Offset(i, j, a) == g.Newline(row) {
      SameDigits(g.Stride(), i, j * g.channels + a, row, g.Width());
    }
  }

  /** Every byte of a grid is a channel or a newline. */
  lemma EveryByteIsUsed(g: Grid, p: nat) returns (i: nat, j: nat, a: nat)
    requires p < g.Size()
    ensures i < g.rows
    ensures p == g.Newline(i) || (g.Has(i, j, a) && p == g.Offset(i, j, a))
  {
    var m := g.Stride();
    i, j, a := p / m, 0, 0;
    var x := p % m;
    assert p == i * m + x;
    if i >= g.rows { Product(i, g.rows, m); }
    if x < g.Width() {
      var c := g.channels;
      if c == 0 { NoChannels(g); }
      j, a := x / c, x % c;
      assert x == j * c + a;
      if j >= g.columns { Product(j, g.columns, c); }
    }
  }

  lemma Product(i: nat, n: nat, m: nat)
    requires i >= n
    ensures i * m >= n * m
  {
    if i > n { Below(n, i, m); }
  }

  lemma NoChannels(g: Grid)
    requires g.channels == 0
    ensures g.Width() == 0
  {}

  // ----- Drawing, as the clients do it: by appending

  function Concat(chunks: seq<seq<Byte>>): seq<Byte>
    decreases |chunks|
  {
    if chunks == [] then [] else Concat(chunks[..|chunks| - 1]) + chunks[|chunks| - 1]
  }

  function Row(pixels: seq<seq<Byte>>): seq<Byte> { Concat(pixels) + [NEWLINE] }

  function Rows(cells: Cells): (rows: seq<seq<Byte>>)
    ensures |rows| == |cells| && forall i :: 0 <= i < |cells| ==> rows[i] == Row(cells[i])
  {
    seq(|cells|, i requires 0 <= i < |cells| => Row(cells[i]))
  }

  function DrawGrid(cells: Cells): seq<Byte> { Concat(Rows(cells)) }

  lemma {:induction false} ConcatLength(chunks: seq<seq<Byte>>, n: nat)
    requires EachHas(chunks, n)
    ensures |Concat(chunks)| == |chunks| * n
    decreases |chunks|
  {
    if chunks != [] {
      ConcatLength(chunks[..|chunks| - 1], n);
      assert |chunks| * n == (|chunks| - 1) * n + n;
    }
  }

  lemma {:induction false} ConcatAt(chunks: seq<seq<Byte>>, n: nat, i: nat, x: nat)
    requires EachHas(chunks, n) && i < |chunks| && x < n
    ensures i * n + x < |Concat(chunks)| && Concat(chunks)[i * n + x] == chunks[i][x]
    decreases |chunks|
  {
    var front := chunks[..|chunks| - 1];
    ConcatLength(chunks, n);
    ConcatLength(front, n);
    Below(i, |chunks|, n);
    if i < |front| {
      ConcatAt(front, n, i, x);
    }
  }

  lemma RowsShaped(g: Grid, cells: Cells)
    requires g.Shapes(cells)
    ensures EachHas(Rows(cells), g.Stride())
    ensures |DrawGrid(cells)| == g.Size()
  {
    forall i | 0 <= i < |cells| ensures |Rows(cells)[i]| == g.Stride() {
      ConcatLength(cells[i], g.channels);
    }
    ConcatLength(Rows(cells), g.Stride());
  }

  /** Appending puts every channel at its offset and a newline behind every row. */
  lemma DrawnAt(g: Grid, cells: Cells, i: nat)
    requires g.Shapes(cells) && i < g.rows
    ensures |DrawGrid(cells)| == g.Size() && g.Newline(i) < g.Size()
    ensures DrawGrid(cells)[g.Newline(i)] == NEWLINE
    ensures forall j: nat, a: nat :: g.Has(i, j, a) ==>
              g.Offset(i, j, a) < g.Size() && DrawGrid(cells)[g.Offset(i, j, a)] == cells[i][j][a]
  {
    var rows, m := Rows(cells), g.Stride();
    RowsShaped(g, cells);
    ConcatLength(cells[i], g.channels);
    Below(i, g.rows, m);
    ConcatAt(rows, m, i, g.Width());
    forall j: nat, a: nat | g.Has(i, j, a)
      ensures g.Offset(i, j, a) < g.Size() && DrawGrid(cells)[g.Offset(i, j, a)] == cells[i][j][a]
    {
      InBounds(g, i, j, a);
      InRow(g, j, a);
      ConcatAt(rows, m, i, j * g.channels + a);
      ConcatAt(cells[i], g.channels, j, a);
    }
  }

  // ----- Reading, as the server does it: by offset

  function CellAt(g: Grid, buf: seq<Byte>, base: nat, i: nat, j: nat, a: nat): Byte
    requires base + g.Size() <= |buf| && g.Has(i, j, a)
  {
    InBounds(g, i, j, a);
    buf[base + g.Offset(i, j, a)]
  }

  function Read(g: Grid, buf: seq<Byte>, base: nat): (cells: Cells)
    requires base + g.Size() <= |buf|
  {
    seq(g.rows, i requires 0 <= i < g.rows =>
      seq(g.columns, j requires 0 <= j < g.columns =>
        seq(g.channels, a requires 0 <= a < g.channels => CellAt(g, buf, base, i, j, a))))
  }

  lemma ReadAt(g: Grid, buf: seq<Byte>, base: nat)
    requires base + g.Size() <= |buf|
    ensures g.Shapes(Read(g, buf, base))
    ensures forall i: nat, j: nat, a: nat :: g.Has(i, j, a) ==> Read(g, buf, base)[i][j][a] == CellAt(g, buf, base, i, j, a)
  {}

  lemma SameCells(g: Grid, x: Cells, y: Cells)
    requires g.Shapes(x) && g.Shapes(y)
    requires forall i: nat, j: nat, a: nat :: g.Has(i, j, a) ==> x[i][j][a] == y[i][j][a]
    ensures x == y
  {
    forall i | 0 <= i < g.rows ensures x[i] == y[i] {
      forall j | 0 <= j < g.columns ensures x[i][j] == y[i][j] {
        forall a | 0 <= a < g.channels ensures x[i][j][a] == y[i][j][a] {
          assert g.Has(i, j, a);
        }
      }
    }
  }

  /** Reading a drawn grid, wherever it is in the buffer, gives back its cells. */
  lemma ReadDrawn(g: Grid, cells: Cells, head: seq<Byte>, tail: seq<Byte>)
    requires g.Shapes(cells)
    ensures |DrawGrid(cells)| == g.Size()
    ensures Read(g, head + DrawGrid(cells) + tail, |head|) == cells
  {
    RowsShaped(g, cells);
    var buf := head + DrawGrid(cells) + tail;
    ReadAt(g, buf, |head|);
    hide DrawGrid, Read;
    forall i: nat, j: nat, a: nat | g.Has(i, j, a) ensures Read(g, buf, |head|)[i][j][a] == cells[i][j][a] {
      DrawnAt(g, cells, i);
      assert buf[|head| + g.Offset(i, j, a)] == DrawGrid(cells)[g.Offset(i, j, a)];
    }
    SameCells(g, Read(g, buf, |head|), cells);
  }

  ghost predicate NewlinesAt(g: Grid, buf: seq<Byte>, base: nat)
    requires base + g.Size() <= |buf|
  {
    forall i: nat :: i < g.rows ==> base + g.Newline(i) < |buf| && buf[base + g.Newline(i)] == NEWLINE
  }

  /** Drawing what has been read gives back the bytes exactly when the newlines were in place. */
  lemma DrawReadIff(g: Grid, buf: seq<Byte>, base: nat)
    requires base + g.Size() <= |buf|
    ensures DrawGrid(Read(g, buf, base)) == buf[base..base + g.Size()] <==> NewlinesAt(g, buf, base)
  {
    var cells, part := Read(g, buf, base), buf[base..base + g.Size()];
    ReadAt(g, buf, base);
    RowsShaped(g, cells);
    var drawn := DrawGrid(cells);
    hide DrawGrid, Read;
    forall p: nat | p < g.Size() && NewlinesAt(g, buf, base) ensures drawn[p] == part[p] {
      var i, j, a := EveryByteIsUsed(g, p);
      DrawnAt(g, cells, i);
    }
    forall i: nat | i < g.rows && drawn == part
      ensures base + g.Newline(i) < |buf| && buf[base + g.Newline(i)] == NEWLINE
    {
      DrawnAt(g, cells, i);
      assert part[g.Newline(i)] == NEWLINE;
    }
    assert NewlinesAt(g, buf, base) ==> drawn == part;
  }

  // ----- Frames

  datatype Layout = Layout(windows: Grid, segments: Grid)
  {
    function Length(): nat { HEADEROFFSET + windows.Size() + segments.Size() }

    ghost predicate Shapes(f: Frame) { windows.Shapes(f.windows) && segments.Shapes(f.segments) }
  }

  datatype Frame = Frame(z: Byte, windows: Cells, segments: Cells)

  /** The dimensions in defines.h */
  const BUILDING := Layout(Grid(8, 12, 4), Grid(12, 8, 4))

  function Body(f: Frame): seq<Byte> { DrawGrid(f.windows) + DrawGrid(f.segments) }

  /** The packet a client sends. */
  function Draw(f: Frame): seq<Byte> { HASH + [f.z, NEWLINE] + Body(f) }

  function Grids(l: Layout, buf: seq<Byte>): Frame
    requires |buf| == l.Length()
  {
    Frame(buf[|HASH|], Read(l.windows, buf, HEADEROFFSET),
          Read(l.segments, buf, HEADEROFFSET + l.windows.Size()))
  }

  /** What the server makes of its receive buffer; nothing if the hash is wrong. */
  function Parse(l: Layout, buf: seq<Byte>): Option<Frame>
    requires |buf| == l.Length()
  {
    if buf[..|HASH|] != HASH then None else Some(Grids(l, buf))
  }

  lemma BodyLength(l: Layout, f: Frame)
    requires l.Shapes(f)
    ensures |DrawGrid(f.windows)| == l.windows.Size() && |DrawGrid(f.segments)| == l.segments.Size()
  {
    RowsShaped(l.windows, f.windows);
    RowsShaped(l.segments, f.segments);
  }

  /** The grids behind any header are read as they were drawn. */
  lemma BodyRoundTrip(l: Layout, f: Frame, header: seq<Byte>)
    requires l.Shapes(f) && |header| == HEADEROFFSET
    ensures |header + Body(f)| == l.Length()
    ensures Grids(l, header + Body(f)) == f.(z := header[|HASH|])
  {
    BodyLength(l, f);
    var windows, segments := DrawGrid(f.windows), DrawGrid(f.segments);
    var buf := header + Body(f);
    hide DrawGrid;
    ReadDrawn(l.windows, f.windows, header, segments);
    ReadDrawn(l.segments, f.segments, header + windows, []);
    assert buf == header + windows + segments;
    assert buf == (header + windows) + segments + [];
  }

  /** A drawn frame is parsed as it was. */
  lemma ParseDraw(l: Layout, f: Frame)
    requires l.Shapes(f)
    ensures |Draw(f)| == l.Length() && Parse(l, Draw(f)) == Some(f)
  {
    var header := HASH + [f.z, NEWLINE];
    assert header[..|HASH|] == HASH && (header + Body(f))[..|HASH|] == header[..|HASH|];
    hide Body, Grids;
    BodyRoundTrip(l, f, header);
  }

  /** An accepted packet is the drawing of its frame exactly when all its newlines are in place. */
  lemma DrawParseIff(l: Layout, buf: seq<Byte>)
    requires |buf| == l.Length() && Parse(l, buf).Some?
    ensures Draw(Parse(l, buf).value) == buf <==>
              && buf[HEADEROFFSET - 1] == NEWLINE
              && NewlinesAt(l.windows, buf, HEADEROFFSET)
              && NewlinesAt(l.segments, buf, HEADEROFFSET + l.windows.Size())
  {
    var f, w := Parse(l, buf).value, HEADEROFFSET + l.windows.Size();
    DrawReadIff(l.windows, buf, HEADEROFFSET);
    DrawReadIff(l.segments, buf, w);
    ReadAt(l.windows, buf, HEADEROFFSET);
    ReadAt(l.segments, buf, w);
    BodyLength(l, f);
    HeaderIs(buf, f.z);
    var header, windows, segments := HASH + [f.z, NEWLINE], DrawGrid(f.windows), DrawGrid(f.segments);
    hide DrawGrid, Read, NewlinesAt, Parse;
    SameInParts(buf, header, windows, segments, w);
    assert Draw(f) == header + (windows + segments);
  }

  lemma HeaderIs(buf: seq<Byte>, z: Byte)
    requires |buf| >= HEADEROFFSET && buf[..|HASH|] == HASH && buf[|HASH|] == z
    ensures buf[..HEADEROFFSET] == HASH + [z, NEWLINE] <==> buf[HEADEROFFSET - 1] == NEWLINE
  {
    assert buf[..HEADEROFFSET] == HASH + [z, buf[HEADEROFFSET - 1]];
  }

  lemma SameInParts(s: seq<Byte>, a: seq<Byte>, b: seq<Byte>, c: seq<Byte>, w: nat)
    requires |a| + |b| == w && w + |c| == |s|
    ensures s == a + (b + c) <==> s[..|a|] == a && s[|a|..w] == b && s[w..] == c
  {
    assert s == s[..|a|] + (s[|a|..w] + s[w..]);
    Cut(a + (b + c), a, b, c);
  }

  lemma Cut(s: seq<Byte>, a: seq<Byte>, b: seq<Byte>, c: seq<Byte>)
    requires s == a + b + c || s == a + (b + c)
    ensures s[..|a|] == a && s[|a|..|a| + |b|] == b && s[|a| + |b|..] == c
  {}
}
