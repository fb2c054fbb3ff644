/** Three-axis rotary positions of a multimodal prompt: what position every token gets, as
    a function of the prompt, and how far the largest position lies behind the length. */
module MropePositions {
  import opened Arithmetic

  /** The position of one token on the time, height and width axes. */
  datatype Pos = Pos(t: int, h: int, w: int)

  /** One piece of prompt. An image without a full grid counts as plain text of its length. */
  datatype Data = Tokens(count: nat) | Image(embed: nat, t: int, h: int, w: int)

  predicate HasGrid(d: Data) {
    d.Image? && d.t > 0 && d.h > 0 && d.w > 0
  }

  function Length(d: Data): nat {
    if d.Tokens? then d.count else d.embed
  }

  function TotalLength(ds: seq<Data>): nat {
    if ds == [] then 0 else Length(ds[0]) + TotalLength(ds[1..])
  }

  lemma TotalLengthStep(ds: seq<Data>)
    requires ds != []
    ensures TotalLength(ds) == Length(ds[0]) + TotalLength(ds[1..])
  {
  }

  // ---------------------------------------------------------------- the merge factor of an image

  /** The square root of n rounded to the nearest integer, searched for from r on. A root
      of an integer is never halfway between two integers. */
  function RoundedRoot(n: nat, r: nat): nat
    requires r == 0 || (2 * r - 1) * (2 * r - 1) <= 4 * n
    decreases 4 * n + 1 - r
  {
    if (2 * r + 1) * (2 * r + 1) <= 4 * n then
      AtMostSquare(2 * r + 1);
      RoundedRoot(n, r + 1)
    else r
  }

  lemma AtMostSquare(x: nat)
    ensures x <= x * x
  {
    if x > 0 { assert (x - 1) * x >= 0; }
  }

  lemma {:induction false} RootOfSquare(m: nat, r: nat)
    requires r <= m && (r == 0 || (2 * r - 1) * (2 * r - 1) <= 4 * (m * m))
    ensures RoundedRoot(m * m, r) == m
    decreases m - r
  {
    assert 4 * (m * m) == (2 * m) * (2 * m);
    if r < m {
      SquareGrows(2 * r + 1, 2 * m);
      RootOfSquare(m, r + 1);
    } else {
      SquareGrows(2 * m, 2 * m + 1);
    }
  }

  lemma SquareGrows(a: nat, b: nat)
    requires a < b
    ensures a * a < b * b
  {
    assert b * b - a * a == (b - a) * (b + a);
    assert (b - a) * (b + a) >= b + a by {
      assert (b - a) * (b + a) == (b - a - 1) * (b + a) + (b + a);
    }
  }

  function FullGrid(d: Data): nat
    requires HasGrid(d)
  {
    (d.t * d.h) * d.w
  }

  /** The merge factor the model derives from the grid and the embedding size, 0 when one
      of its checks fails. */
  function InferredMerge(d: Data): nat
    requires HasGrid(d)
  {
    if d.embed == 0 then 0
    else
      var merge := RoundedRoot(FullGrid(d) / d.embed, 0);
      if merge > 0 && merge * merge * d.embed == FullGrid(d) then merge else 0
  }

  /** The derivation finds m exactly when m by m grid cells make one embedding. */
  lemma InferredExactly(d: Data, m: nat)
    requires HasGrid(d) && m > 0
    ensures InferredMerge(d) == m <==> m * m * d.embed == FullGrid(d)
  {
    if m * m * d.embed == FullGrid(d) {
      if d.embed == 0 {
        PositiveGrid(d);
      } else {
        QuotientUnique(FullGrid(d), d.embed, m * m, 0);
        RootOfSquare(m, 0);
      }
    }
  }

  lemma PositiveGrid(d: Data)
    requires HasGrid(d)
    ensures FullGrid(d) > 0
  {
  }

  /** The model takes the image: its merge factor divides the grid. */
  predicate Accepted(d: Data) {
    HasGrid(d) ==> InferredMerge(d) > 0 && d.h % InferredMerge(d) == 0 && d.w % InferredMerge(d) == 0
  }

  predicate AllAccepted(ds: seq<Data>) {
    forall i {:trigger ds[i]} :: 0 <= i < |ds| ==> Accepted(ds[i])
  }

  /** The merged grid: as many frames as before, height and width divided by the factor. */
  function Rows(d: Data): int
    requires HasGrid(d) && Accepted(d)
  {
    d.h / InferredMerge(d)
  }

  function Cols(d: Data): int
    requires HasGrid(d) && Accepted(d)
  {
    d.w / InferredMerge(d)
  }

  /** The merged grid has exactly as many cells as the image has embeddings, so the length
      check that follows never fails. */
  lemma CellsAreEmbeddings(d: Data)
    requires HasGrid(d) && Accepted(d)
    ensures Rows(d) > 0 && Cols(d) > 0 && Length(d) == (d.t * Rows(d)) * Cols(d)
  {
    var m, r, c := InferredMerge(d), Rows(d), Cols(d);
    assert d.h == r * m && d.w == c * m;
    assert m * m * d.embed == FullGrid(d);
    Regroup(d.t, r, c, m);
    CancelSquare(m, d.embed, (d.t * r) * c);
    PositiveFactor(r, m);
    PositiveFactor(c, m);
  }

  lemma Regroup(t: int, r: int, c: int, m: int)
    ensures (t * (r * m)) * (c * m) == m * m * ((t * r) * c)
  {
    assert (t * (r * m)) == (t * r) * m;
    assert ((t * r) * m) * (c * m) == ((t * r) * c) * (m * m) by {
      assert ((t * r) * m) * (c * m) == (t * r) * (m * (c * m));
      assert m * (c * m) == c * (m * m);
    }
  }

  lemma CancelSquare(m: int, a: int, b: int)
    requires m > 0 && m * m * a == m * m * b
    ensures a == b
  {
    assert m * m > 0;
    assert (m * m) * (a - b) == 0;
  }

  lemma PositiveFactor(a: int, m: int)
    requires m > 0 && a * m > 0
    ensures a > 0
  {
    TimesOrdered(a, 0, m);
  }

  // ---------------------------------------------------------------- positions

  /** Plain text counts on from the base on all three axes. */
  function Line(base: int, n: nat): seq<Pos> {
    seq(n, i => Pos(base + i, base + i, base + i))
  }

  /** The cell with number i of a grid, frame by frame, row by row. */
  function Cell(base: int, rows: int, cols: int, i: int): Pos
    requires rows > 0 && cols > 0
  {
    Pos(base + (i / cols) / rows, base + (i / cols) % rows, base + i % cols)
  }

  function Grid(base: int, n: nat, rows: int, cols: int): seq<Pos>
    requires rows > 0 && cols > 0
  {
    seq(n, i => Cell(base, rows, cols, i))
  }

  function DataPositions(base: int, d: Data): (r: seq<Pos>)
    requires Accepted(d)
    ensures |r| == Length(d)
  {
    if HasGrid(d) then
      CellsAreEmbeddings(d);
      Grid(base, Length(d), Rows(d), Cols(d))
    else Line(base, Length(d))
  }

  /** How far the base moves over one piece: an image takes its larger merged side. */
  function Span(d: Data): nat
    requires Accepted(d)
  {
    if HasGrid(d) then
      CellsAreEmbeddings(d);
      assert Max(d.h, d.w) >= 0;
      Max(d.h, d.w) / InferredMerge(d)
    else Length(d)
  }

  function TotalSpan(ds: seq<Data>): nat
    requires AllAccepted(ds)
    decreases ds
  {
    if ds == [] then 0 else Span(ds[0]) + TotalSpan(ds[1..])
  }

  /** The positions of a whole prompt, starting from the base. */
  function Positions(base: int, ds: seq<Data>): seq<Pos>
    requires AllAccepted(ds)
    decreases ds
  {
    if ds == [] then [] else DataPositions(base, ds[0]) + Positions(base + Span(ds[0]), ds[1..])
  }

  /** The largest of `top` and all positions on all axes. */
  function Highest(top: int, ps: seq<Pos>): int {
    if ps == [] then top
    else
      var p := ps[|ps| - 1];
      Max(Max(Max(Highest(top, ps[..|ps| - 1]), p.t), p.h), p.w)
  }

  predicate Below(p: Pos, top: int) {
    p.t <= top && p.h <= top && p.w <= top
  }

  lemma {:induction false} HighestIsBound(top: int, ps: seq<Pos>)
    ensures Highest(top, ps) >= top
    ensures forall i {:trigger ps[i]} :: 0 <= i < |ps| ==> Below(ps[i], Highest(top, ps))
  {
    if ps != [] {
      var front := ps[..|ps| - 1];
      HighestIsBound(top, front);
      forall i | 0 <= i < |ps|
        ensures Below(ps[i], Highest(top, ps))
      {
        if i < |front| { assert front[i] == ps[i]; }
      }
    }
  }

  lemma {:induction false} HighestIsLeast(top: int, ps: seq<Pos>, bound: int)
    requires top <= bound && forall i {:trigger ps[i]} :: 0 <= i < |ps| ==> Below(ps[i], bound)
    ensures Highest(top, ps) <= bound
  {
    if ps != [] {
      var front := ps[..|ps| - 1];
      assert forall i {:trigger front[i]} :: 0 <= i < |front| ==> front[i] == ps[i];
      HighestIsLeast(top, front, bound);
    }
  }

  lemma {:induction false} HighestConcat(top: int, a: seq<Pos>, b: seq<Pos>)
    ensures Highest(top, a + b) == Highest(Highest(top, a), b)
  {
    if b == [] {
      assert a + b == a;
    } else {
      assert (a + b)[..|a + b| - 1] == a + b[..|b| - 1];
      HighestConcat(top, a, b[..|b| - 1]);
    }
  }

  // ---------------------------------------------------------------- one piece

  lemma CellIndex(rows: int, cols: int, z: int, y: int, x: int)
    requires 0 <= y < rows && 0 <= x < cols
    ensures
      var i := (z * rows + y) * cols + x;
      (i / cols) / rows == z && (i / cols) % rows == y && i % cols == x
  {
    QuotientUnique((z * rows + y) * cols + x, cols, z * rows + y, x);
    QuotientUnique(z * rows + y, rows, z, y);
  }

  lemma CellInside(frames: int, rows: int, cols: int, i: int)
    requires rows > 0 && cols > 0 && 0 <= i < (frames * rows) * cols
    ensures 0 <= (i / cols) / rows < frames && 0 <= (i / cols) % rows < rows && 0 <= i % cols < cols
  {
    QuotientBelow(i, cols, frames * rows);
    QuotientBelow(i / cols, rows, frames);
  }

  lemma QuotientBelow(i: int, d: int, n: int)
    requires d > 0 && 0 <= i < n * d
    ensures 0 <= i / d < n
  {
    TimesOrdered(n, i / d, d);
    TimesOrdered(i / d, 0, d);
  }

  lemma LastCell(frames: int, rows: int, cols: int)
    requires frames > 0 && rows > 0 && cols > 0
    ensures
      var n := (frames * rows) * cols;
      n > 0 && Cell(0, rows, cols, n - 1) == Pos(frames - 1, rows - 1, cols - 1)
  {
    CellIndex(rows, cols, frames - 1, rows - 1, cols - 1);
    assert ((frames - 1) * rows + rows - 1) * cols + cols - 1 == (frames * rows) * cols - 1 by {
      assert (frames - 1) * rows + rows - 1 == frames * rows - 1;
      assert (frames * rows - 1) * cols == (frames * rows) * cols - cols;
    }
    assert frames * rows > 0;
  }

  /** How far the positions of one piece reach beyond the base. */
  function Reach(d: Data): nat
    requires Accepted(d)
  {
    if HasGrid(d) then Max(d.t, Span(d)) else Length(d)
  }

  lemma SpanIsLargerSide(d: Data)
    requires HasGrid(d) && Accepted(d)
    ensures Rows(d) > 0 && Cols(d) > 0 && Span(d) == Max(Rows(d), Cols(d))
  {
    CellsAreEmbeddings(d);
    TimesOrdered(Rows(d), Cols(d), InferredMerge(d));
    TimesOrdered(Cols(d), Rows(d), InferredMerge(d));
  }

  /** The largest position of one piece is right before base plus reach. */
  lemma HighestOfData(top: int, base: int, d: Data)
    requires Accepted(d)
    ensures Highest(top, DataPositions(base, d)) == TopAfter(top, base, d)
  {
    var ps := DataPositions(base, d);
    if Length(d) > 0 {
      var bound := Max(top, base + Reach(d) - 1);
      var last := ps[|ps| - 1];
      HighestIsBound(top, ps);
      if HasGrid(d) {
        CellsAreEmbeddings(d);
        SpanIsLargerSide(d);
        LastCell(d.t, Rows(d), Cols(d));
        forall i | 0 <= i < |ps| ensures Below(ps[i], bound) {
          CellInside(d.t, Rows(d), Cols(d), i);
        }
      }
      HighestIsLeast(top, ps, bound);
      assert Below(last, Highest(top, ps));
    }
  }

  /** A piece never reaches further, nor moves the base further, than it is long. */
  lemma ReachWithinLength(d: Data)
    requires Accepted(d)
    ensures Span(d) <= Reach(d) <= Length(d)
    ensures if HasGrid(d) then Length(d) > 0 && Reach(d) == Max(d.t, Span(d)) else Span(d) == Length(d)
  {
    if HasGrid(d) {
      CellsAreEmbeddings(d);
      SpanIsLargerSide(d);
      var t, r, c := d.t, Rows(d), Cols(d);
      TimesGrows(t, r);
      TimesGrows(t * r, c);
    }
  }

  // ---------------------------------------------------------------- concatenation

  lemma {:induction false} PositionsConcat(base: int, a: seq<Data>, b: seq<Data>)
    requires AllAccepted(a) && AllAccepted(b)
    ensures AllAccepted(a + b) && TotalLength(a + b) == TotalLength(a) + TotalLength(b)
    ensures TotalSpan(a + b) == TotalSpan(a) + TotalSpan(b)
    ensures Positions(base, a + b) == Positions(base, a) + Positions(base + TotalSpan(a), b)
    decreases a
  {
    hide Accepted, Span, DataPositions, Length;
    if a == [] {
      assert a + b == b;
    } else {
      assert (a + b)[0] == a[0] && (a + b)[1..] == a[1..] + b;
      PositionsConcat(base + Span(a[0]), a[1..], b);
    }
  }

  lemma {:induction false} PositionsLength(base: int, ds: seq<Data>)
    requires AllAccepted(ds)
    ensures |Positions(base, ds)| == TotalLength(ds)
    decreases ds
  {
    if ds != [] { PositionsLength(base + Span(ds[0]), ds[1..]); }
  }

  /** The largest position of a prompt, after its first piece. */
  function TopAfter(top: int, base: int, d: Data): int
    requires Accepted(d)
  {
    if Length(d) == 0 then top else Max(top, base + Reach(d) - 1)
  }

  lemma HighestStep(top: int, base: int, ds: seq<Data>)
    requires AllAccepted(ds) && ds != []
    ensures AllAccepted(ds[1..]) && Accepted(ds[0])
    ensures Highest(top, Positions(base, ds))
            == Highest(TopAfter(top, base, ds[0]), Positions(base + Span(ds[0]), ds[1..]))
  {
    hide Accepted, DataPositions, Reach, HasGrid, Length, Span, Highest;
    HighestOfData(top, base, ds[0]);
    HighestConcat(top, DataPositions(base, ds[0]), Positions(base + Span(ds[0]), ds[1..]));
  }

  /** The largest position stays below base plus length. */
  lemma {:induction false} HighestWithinLength(top: int, base: int, ds: seq<Data>, limit: int)
    requires AllAccepted(ds) && top < limit && base <= limit
    ensures Highest(top, Positions(base, ds)) < limit + TotalLength(ds)
    decreases ds
  {
    hide Accepted, AllAccepted, DataPositions, Positions, Reach, Span, HasGrid, Length, Highest, TotalLength;
    if ds == [] {
      NothingAhead(top, base);
    } else {
      var d := ds[0];
      TotalLengthStep(ds);
      HighestStep(top, base, ds);
      ReachWithinLength(d);
      HighestWithinLength(TopAfter(top, base, d), base + Span(d), ds[1..], limit + Length(d));
    }
  }

  // ---------------------------------------------------------------- when the base is the next free position

  /** No image has more frames than the prompt from that image on moves the base. */
  ghost predicate Fits(ds: seq<Data>)
    requires AllAccepted(ds)
    decreases ds
  {
    ds != [] ==> Fits(ds[1..]) && (HasGrid(ds[0]) ==> ds[0].t <= TotalSpan(ds))
  }

  /** No image has more frames than its larger merged side. */
  ghost predicate Flat(ds: seq<Data>)
    requires AllAccepted(ds)
  {
    forall i {:trigger ds[i]} :: 0 <= i < |ds| && HasGrid(ds[i]) ==> ds[i].t <= Span(ds[i])
  }

  lemma FitsStep(ds: seq<Data>)
    requires AllAccepted(ds)
    ensures ds == [] ==> Fits(ds) && TotalSpan(ds) == 0
    ensures ds != [] ==>
              AllAccepted(ds[1..]) && TotalSpan(ds) == Span(ds[0]) + TotalSpan(ds[1..])
              && (Fits(ds) <==> Fits(ds[1..]) && (HasGrid(ds[0]) ==> ds[0].t <= TotalSpan(ds)))
  {
    hide Accepted, Span, HasGrid;
  }

  lemma {:induction false} FlatFits(ds: seq<Data>)
    requires AllAccepted(ds) && Flat(ds)
    ensures Fits(ds)
  {
    if ds != [] { FlatFits(ds[1..]); }
  }

  /** The prompt ends with the base right behind the largest position exactly if it fits. */
  lemma SettledIffFits(base: int, ds: seq<Data>)
    requires AllAccepted(ds)
    ensures Highest(base - 1, Positions(base, ds)) + 1 == base + TotalSpan(ds) <==> Fits(ds)
  {
    EndOfPrompt(base - 1, base, ds);
  }

  /** As SettledIffFits, from any earlier largest position. */
  lemma {:induction false} EndOfPrompt(top: int, base: int, ds: seq<Data>)
    requires AllAccepted(ds) && top >= base - 1
    ensures Highest(top, Positions(base, ds)) + 1 >= base + TotalSpan(ds)
    ensures Highest(top, Positions(base, ds)) + 1 == base + TotalSpan(ds)
            <==> Fits(ds) && top + 1 <= base + TotalSpan(ds)
    decreases ds
  {
    hide Accepted, AllAccepted, DataPositions, Positions, Span, HasGrid, Highest, Fits, TotalSpan;
    FitsStep(ds);
    if ds == [] {
      NothingAhead(top, base);
    } else {
      HighestStep(top, base, ds);
      var d := ds[0];
      ReachWithinLength(d);
      EndOfPrompt(TopAfter(top, base, d), base + Span(d), ds[1..]);
    }
  }

  lemma NothingAhead(top: int, base: int)
    ensures AllAccepted([]) && Positions(base, []) == [] && Highest(top, []) == top
  {
  }
}
