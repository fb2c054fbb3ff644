/** The Python helper that lays out the positions of one prompt with one image: it knows
    the merge factor, keeps no memory and takes its delta from the finished array. */
module MropeReference {
  import opened Arithmetic
  import opened MropePositions
  import opened MropeChunks
  import opened MropeBatches
  import opened MropeModel

  function Cells(t: nat, h: nat, w: nat): nat {
    (t * (h / 2)) * (w / 2)
  }

  function ImageCells(base: int, t: nat, h: nat, w: nat): (r: seq<Pos>)
    ensures |r| == Cells(t, h, w)
  {
    if h / 2 == 0 || w / 2 == 0 then
      NoCells(t, h / 2, w / 2);
      []
    else CellsBefore(base, Cells(t, h, w), h / 2, w / 2)
  }

  /** The first n cells of an image; without rows or columns there are none. */
  function CellsBefore(base: int, n: nat, rows: nat, cols: nat): (r: seq<Pos>)
    ensures rows > 0 && cols > 0 ==> |r| == n
    ensures rows == 0 || cols == 0 ==> r == []
  {
    if rows > 0 && cols > 0 then Grid(base, n, rows, cols) else []
  }

  lemma NoCells(t: nat, r: nat, c: nat)
    requires r == 0 || c == 0
    ensures (t * r) * c == 0
  {
  }

  /** Prefix, image and rest of a prompt. */
  function Layout(prefix: nat, t: nat, h: nat, w: nat, rest: nat): (r: seq<Pos>)
    ensures |r| == prefix + Cells(t, h, w) + rest
  {
    Line(0, prefix) + ImageCells(prefix, t, h, w) + Line(prefix + Max(h, w) / 2, rest)
  }

  /** The array and its delta; an empty array has no maximum, which is an error. */
  method PositionIds(prefix: nat, t: nat, h: nat, w: nat, tail: nat, generated: nat)
    returns (ok: bool, ids: array2<int>, delta: int)
    ensures fresh(ids) && Holds(ids, Layout(prefix, t, h, w, tail + generated))
    ensures ids.Length1 == prefix + Cells(t, h, w) + tail + generated
    ensures ok <==> ids.Length1 > 0
    ensures ok ==> delta == Highest(-1, Layout(prefix, t, h, w, tail + generated)) + 1 - ids.Length1
  {
    hide Holds, Line, CellsBefore, Cells, Highest, ImageCells;
    var rows, cols := h / 2, w / 2;
    var cells := (t * rows) * cols;
    CellsAre(prefix, t, h, w);
    var total := prefix + cells + tail + generated;
    ids := NewTensor(total);
    var offset: nat, current: nat := 0, 0;
    LineStarts(current);
    for i := 0 to prefix
      invariant Holds(ids, Line(current, i))
    {
      LineGrows([], current, i);
      Place(ids, Line(current, i), offset + i, Pos(current + i, current + i, current + i));
    }
    offset := offset + prefix;
    current := current + prefix;
    ghost var log := Line(0, prefix);
    LineLength(0, prefix);
    CellsStart(log, current, rows, cols);
    for f := 0 to t
      invariant offset == prefix + (f * rows) * cols
      invariant Holds(ids, log + CellsBefore(current, offset - prefix, rows, cols))
    {
      for y := 0 to rows
        invariant offset == prefix + (f * rows + y) * cols
        invariant Holds(ids, log + CellsBefore(current, offset - prefix, rows, cols))
      {
        for x := 0 to cols
          invariant offset == prefix + (f * rows + y) * cols + x
          invariant Holds(ids, log + CellsBefore(current, offset - prefix, rows, cols))
        {
          InsideGrid(cells, t, rows, cols, f, y, x);
          CellsGrow(log, current, rows, cols, offset - prefix, f, y, x);
          Place(ids, log + CellsBefore(current, offset - prefix, rows, cols), offset,
                Pos(current + f, current + y, current + x));
          offset := offset + 1;
        }
        NextRow(f, rows, cols, y);
      }
      NextFrame(f, rows, cols);
    }
    log := log + ImageCells(current, t, h, w);
    current := current + Max(h, w) / 2;
    LineStarts(current);
    assert log + [] == log;
    for i := 0 to tail + generated
      invariant Holds(ids, log + Line(current, i))
    {
      LineGrows(log, current, i);
      Place(ids, log + Line(current, i), offset + i, Pos(current + i, current + i, current + i));
    }
    log := log + Line(current, tail + generated);
    ok := total > 0;
    if ok {
      FirstIsNatural(prefix, t, h, w, tail + generated);
      delta := MaxEntry(ids, log);
      delta := delta + 1 - total;
    } else {
      delta := 0;
    }
  }

  lemma LineStarts(base: int)
    ensures Line(base, 0) == []
  {
  }

  lemma LineGrows(log: seq<Pos>, base: int, i: nat)
    ensures |Line(base, i)| == i
    ensures Line(base, i) + [Pos(base + i, base + i, base + i)] == Line(base, i + 1)
    ensures log + Line(base, i) + [Pos(base + i, base + i, base + i)] == log + Line(base, i + 1)
  {
    assert Line(base, i) + [Pos(base + i, base + i, base + i)] == Line(base, i + 1);
  }

  lemma CellsStart(log: seq<Pos>, base: int, rows: nat, cols: nat)
    ensures log + CellsBefore(base, 0, rows, cols) == log
    ensures (0 * rows) * cols == 0
  {
    assert CellsBefore(base, 0, rows, cols) == [];
  }

  lemma CellsGrow(log: seq<Pos>, base: int, rows: nat, cols: nat, n: nat, f: nat, y: nat, x: nat)
    requires y < rows && x < cols && n == (f * rows + y) * cols + x
    ensures |CellsBefore(base, n, rows, cols)| == n
    ensures log + CellsBefore(base, n, rows, cols) + [Pos(base + f, base + y, base + x)]
            == log + CellsBefore(base, n + 1, rows, cols)
  {
    GridExtends(base, rows, cols, n, f, y, x);
  }

  lemma NextRow(f: nat, rows: nat, cols: nat, y: nat)
    ensures (f * rows + y) * cols + cols == (f * rows + (y + 1)) * cols
  {
  }

  lemma NextFrame(f: nat, rows: nat, cols: nat)
    ensures (f * rows + rows) * cols == ((f + 1) * rows) * cols
  {
    assert f * rows + rows == (f + 1) * rows;
  }

  lemma CellsAre(base: int, t: nat, h: nat, w: nat)
    ensures Cells(t, h, w) == (t * (h / 2)) * (w / 2)
    ensures ImageCells(base, t, h, w) == CellsBefore(base, Cells(t, h, w), h / 2, w / 2)
    ensures |ImageCells(base, t, h, w)| == Cells(t, h, w)
  {
  }

  /** The largest entry of a full array. */
  method MaxEntry(a: array2<int>, ghost log: seq<Pos>) returns (m: int)
    requires Holds(a, log) && |log| == a.Length1 > 0 && log[0].t >= -1
    ensures m == Highest(-1, log)
  {
    m := a[0, 0];
    assert At(a, 0) == log[0];
    m := Max(Max(m, a[1, 0]), a[2, 0]);
    assert log[..1][..0] == [] && log[..1] == [log[0]];
    assert Highest(-1, log[..1]) == m;
    for j := 1 to a.Length1
      invariant m == Highest(-1, log[..j])
    {
      assert At(a, j) == log[j];
      assert log[..j + 1][..j] == log[..j] && log[..j + 1][j] == log[j];
      m := Max(Max(Max(m, a[0, j]), a[1, j]), a[2, j]);
    }
    assert log[..a.Length1] == log;
  }

  lemma FirstIsNatural(prefix: nat, t: nat, h: nat, w: nat, rest: nat)
    requires |Layout(prefix, t, h, w, rest)| > 0
    ensures Layout(prefix, t, h, w, rest)[0].t >= 0
  {
    CellsAreNatural(prefix, t, h, w);
  }

  lemma CellsAreNatural(base: nat, t: nat, h: nat, w: nat)
    ensures forall p :: p in ImageCells(base, t, h, w) ==> p.t >= 0
  {
    if t > 0 && h / 2 > 0 && w / 2 > 0 {
      forall i | 0 <= i < Cells(t, h, w)
        ensures Cell(base, h / 2, w / 2, i).t >= 0
      {
        CellInside(t, h / 2, w / 2, i);
      }
    }
  }

  // ---------------------------------------------------------------- agreement with the model

  /** An even grid with one embedding for four cells: the model derives a factor of two. */
  lemma EvenGrid(t: nat, h: nat, w: nat, d: Data)
    requires t > 0 && h > 0 && w > 0 && h % 2 == 0 && w % 2 == 0
    requires d == Image(Cells(t, h, w), t, h, w)
    ensures HasGrid(d) && Accepted(d) && InferredMerge(d) == 2
  {
    Regroup(t, h / 2, w / 2, 2);
    assert (h / 2) * 2 == h && (w / 2) * 2 == w;
    InferredExactly(d, 2);
  }

  lemma ThreePieces(base: int, a: Data, b: Data, c: Data)
    requires Accepted(a) && Accepted(b) && Accepted(c)
    ensures AllAccepted([a, b, c]) && TotalLength([a, b, c]) == Length(a) + Length(b) + Length(c)
    ensures Positions(base, [a, b, c])
            == DataPositions(base, a) + DataPositions(base + Span(a), b) + DataPositions(base + Span(a) + Span(b), c)
  {
    hide Accepted, DataPositions, Span, Length, Positions, TotalLength;
    OnePiece(base, a);
    OnePiece(base + Span(a), b);
    OnePiece(base + Span(a) + Span(b), c);
    assert [a] + [b] + [c] == [a, b, c];
    PositionsConcat(base, [a], [b]);
    PositionsConcat(base, [a] + [b], [c]);
  }

  /** Text, an image with one embedding for four grid cells, and text again. */
  function Prompt(prefix: nat, t: nat, h: nat, w: nat, rest: nat): seq<Data> {
    [Tokens(prefix), Image(Cells(t, h, w), t, h, w), Tokens(rest)]
  }

  lemma PositionsAgree(prefix: nat, t: nat, h: nat, w: nat, rest: nat, ds: seq<Data>)
    requires t > 0 && h > 0 && w > 0 && h % 2 == 0 && w % 2 == 0
    requires ds == Prompt(prefix, t, h, w, rest)
    ensures AllAccepted(ds) && Positions(0, ds) == Layout(prefix, t, h, w, rest)
  {
    hide Cells, Grid, Line, Positions, Highest, InferredMerge, FullGrid, TotalLength, Accepted, DataPositions, Span,
         ImageCells;
    TextPiece(0, prefix);
    ImagePiece(prefix, t, h, w, ds[1]);
    TextPiece(prefix + Max(h, w) / 2, rest);
    ThreePieces(0, ds[0], ds[1], ds[2]);
  }

  /** For every even grid the model, starting with nothing remembered, and the helper give
      every token the same position on all axes, and the same delta. */
  lemma ModelAgrees(prefix: nat, t: nat, h: nat, w: nat, rest: nat, ds: seq<Data>, m: Memory)
    requires t > 0 && h > 0 && w > 0 && h % 2 == 0 && w % 2 == 0
    requires ds == Prompt(prefix, t, h, w, rest) && m.consumed == 0 && Base(m) == 0
    ensures AllAccepted(ds) && Positions(0, ds) == Layout(prefix, t, h, w, rest)
    ensures Fed(m, ds).delta == Highest(-1, Layout(prefix, t, h, w, rest)) + 1 - |Layout(prefix, t, h, w, rest)|
  {
    hide *;
    PositionsAgree(prefix, t, h, w, rest, ds);
    FedDelta(m, 0, ds, Layout(prefix, t, h, w, rest));
  }

  lemma FedDelta(m: Memory, base: int, ds: seq<Data>, layout: seq<Pos>)
    requires AllAccepted(ds) && m.consumed == 0 && base == Base(m) && Positions(base, ds) == layout
    ensures Fed(m, ds).delta == Highest(base - 1, layout) + 1 - |layout|
  {
    PositionsLength(Base(m), ds);
    hide Positions, Highest, AllAccepted, TotalLength, Base;
  }

  lemma TextPiece(base: int, n: nat)
    ensures Accepted(Tokens(n)) && Span(Tokens(n)) == n == Length(Tokens(n))
    ensures DataPositions(base, Tokens(n)) == Line(base, n)
  {
  }

  lemma ImagePiece(base: int, t: nat, h: nat, w: nat, d: Data)
    requires t > 0 && h > 0 && w > 0 && h % 2 == 0 && w % 2 == 0
    requires d == Image(Cells(t, h, w), t, h, w)
    ensures Accepted(d) && Span(d) == Max(h, w) / 2 && Length(d) == Cells(t, h, w)
    ensures DataPositions(base, d) == ImageCells(base, t, h, w)
  {
    hide InferredMerge, FullGrid, Grid, Cells;
    EvenGrid(t, h, w, d);
    CellsAreEmbeddings(d);
  }

  /** The same over the model's batch: a first prefill of the prompt in one batch of its own. */
  lemma FirstPrefillAgrees(prefix: nat, t: nat, h: nat, w: nat, rest: nat, ds: seq<Data>, id: int, b: Batch)
    requires t > 0 && h > 0 && w > 0 && h % 2 == 0 && w % 2 == 0
    requires ds == Prompt(prefix, t, h, w, rest)
    requires b == Batch([id], [TotalLength(ds)], [ds])
    ensures Good(b) && EntryPositions(EMPTY, b, 0) == Layout(prefix, t, h, w, rest)
    ensures Remembered(Served(EMPTY, b), id).delta
            == Highest(-1, Layout(prefix, t, h, w, rest)) + 1 - |Layout(prefix, t, h, w, rest)|
  {
    hide *;
    var m := Remembered(EMPTY, id);
    NothingRemembered(id);
    ModelAgrees(prefix, t, h, w, rest, ds, m);
    SingleEntry(ds, id, b);
    ServedOne(EMPTY, b, 0);
  }

  lemma NothingRemembered(id: int)
    ensures Remembered(EMPTY, id).consumed == 0 && Base(Remembered(EMPTY, id)) == 0
  {
  }

  lemma SingleEntry(ds: seq<Data>, id: int, b: Batch)
    requires AllAccepted(ds) && b == Batch([id], [TotalLength(ds)], [ds])
    ensures Good(b) && Sound(b) && |b.ids| == 1 && b.ids[0] == id && b.input[0] == ds
  {
    hide AllAccepted, TotalLength;
  }
}
