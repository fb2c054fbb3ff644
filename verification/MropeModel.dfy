/** The part of the model that keeps three-axis positions: it fills the position tensor of a
    batch and remembers a delta and a consumed length per sequence. */
module MropeModel {
  import opened Arithmetic
  import opened MropePositions
  import opened MropeChunks
  import opened MropeBatches

  // ---------------------------------------------------------------- the tensor

  /** The three entries of column j. */
  function At(a: array2<int>, j: nat): Pos
    reads a
    requires a.Length0 == 3 && j < a.Length1
  {
    Pos(a[0, j], a[1, j], a[2, j])
  }

  /** The tensor starts with the positions of the log and is zero behind them. */
  ghost predicate Holds(a: array2<int>, log: seq<Pos>)
    reads a
  {
    && a.Length0 == 3 && |log| <= a.Length1
    && forall j {:trigger At(a, j)} :: 0 <= j < a.Length1 ==> At(a, j) == if j < |log| then log[j] else Pos(0, 0, 0)
  }

  method Place(a: array2<int>, ghost log: seq<Pos>, j: nat, p: Pos)
    requires Holds(a, log) && j == |log| < a.Length1
    modifies a
    ensures Holds(a, log + [p])
  {
    a[0, j] := p.t;
    a[1, j] := p.h;
    a[2, j] := p.w;
    forall k: nat | k < a.Length1
      ensures At(a, k) == if k < |log + [p]| then (log + [p])[k] else Pos(0, 0, 0)
    {
      if k != j { assert At(a, k) == old(At(a, k)); }
    }
  }

  method Put(a: array2<int>, ghost log: seq<Pos>, j: nat, p: Pos, top: int) returns (top': int)
    requires Holds(a, log) && j == |log| < a.Length1
    modifies a
    ensures Holds(a, log + [p])
    ensures top' == Highest(top, [p])
  {
    Place(a, log, j, p);
    top' := Max(Max(Max(top, p.t), p.h), p.w);
    assert [p][..0] == [];
  }

  method NewTensor(n: nat) returns (a: array2<int>)
    ensures fresh(a) && a.Length1 == n && Holds(a, [])
  {
    a := new int[3, n]((i, j) => 0);
  }

  // ---------------------------------------------------------------- one piece

  /** Plain text: every axis counts on. */
  method PutLine(a: array2<int>, ghost log: seq<Pos>, offset: nat, base: int, n: nat, top: int) returns (top': int)
    requires Holds(a, log) && offset == |log| && offset + n <= a.Length1
    modifies a
    ensures Holds(a, log + Line(base, n))
    ensures top' == Highest(top, Line(base, n))
  {
    hide Holds, Highest;
    top' := top;
    Nothing(top);
    assert log + Line(base, 0) == log;
    for i := 0 to n
      invariant Holds(a, log + Line(base, i))
      invariant top' == Highest(top, Line(base, i))
    {
      assert Line(base, i + 1) == Line(base, i) + [Pos(base + i, base + i, base + i)];
      HighestConcat(top, Line(base, i), [Pos(base + i, base + i, base + i)]);
      top' := Put(a, log + Line(base, i), offset + i, Pos(base + i, base + i, base + i), top');
      assert log + Line(base, i + 1) == log + Line(base, i) + [Pos(base + i, base + i, base + i)];
    }
  }

  lemma Nothing(top: int)
    ensures Highest(top, []) == top && forall base :: Line(base, 0) == []
  {
  }

  lemma GridExtends(base: int, rows: int, cols: int, i: nat, t: int, h: int, w: int)
    requires 0 <= h < rows && 0 <= w < cols && i == (t * rows + h) * cols + w
    ensures Grid(base, i + 1, rows, cols) == Grid(base, i, rows, cols) + [Pos(base + t, base + h, base + w)]
  {
    CellIndex(rows, cols, t, h, w);
  }

  lemma InsideGrid(n: nat, frames: int, rows: int, cols: int, t: int, h: int, w: int)
    requires 0 <= t < frames && 0 <= h < rows && 0 <= w < cols && n == (frames * rows) * cols
    ensures 0 <= (t * rows + h) * cols + w < n
  {
    TimesOrdered(t, frames, rows);
    TimesOrdered(t * rows + h, frames * rows, cols);
    TimesOrdered(0, t * rows + h, cols);
    TimesOrdered(0, t, rows);
  }

  /** An image: one column per cell of the merged grid, frame by frame, row by row. */
  method PutGrid(a: array2<int>, ghost log: seq<Pos>, offset: nat, base: int, n: nat,
                 frames: int, rows: int, cols: int, top: int) returns (top': int)
    requires frames > 0 && rows > 0 && cols > 0 && n == (frames * rows) * cols
    requires Holds(a, log) && offset == |log| && offset + n <= a.Length1
    modifies a
    ensures Holds(a, log + Grid(base, n, rows, cols))
    ensures top' == Highest(top, Grid(base, n, rows, cols))
  {
    hide Holds, Highest, Grid;
    top' := top;
    var idx: nat := 0;
    EmptyGrid(base, rows, cols, top);
    assert log + [] == log;
    assert (0 * rows) * cols == 0;
    for t := 0 to frames
      invariant idx == (t * rows) * cols
      invariant Holds(a, log + Grid(base, idx, rows, cols))
      invariant top' == Highest(top, Grid(base, idx, rows, cols))
    {
      assert (t * rows + 0) * cols == idx;
      for h := 0 to rows
        invariant idx == (t * rows + h) * cols
        invariant Holds(a, log + Grid(base, idx, rows, cols))
        invariant top' == Highest(top, Grid(base, idx, rows, cols))
      {
        for w := 0 to cols
          invariant idx == (t * rows + h) * cols + w
          invariant Holds(a, log + Grid(base, idx, rows, cols))
          invariant top' == Highest(top, Grid(base, idx, rows, cols))
        {
          InsideGrid(n, frames, rows, cols, t, h, w);
          top' := PutCell(a, log, offset, base, idx, rows, cols, t, h, w, top, top');
          idx := idx + 1;
        }
        assert (t * rows + h) * cols + cols == (t * rows + (h + 1)) * cols;
      }
      assert t * rows + rows == (t + 1) * rows;
    }
  }

  lemma EmptyGrid(base: int, rows: int, cols: int, top: int)
    requires rows > 0 && cols > 0
    ensures Grid(base, 0, rows, cols) == [] && Highest(top, []) == top
  {
  }

  method PutCell(a: array2<int>, ghost log: seq<Pos>, offset: nat, base: int, idx: nat, rows: int, cols: int,
                 t: int, h: int, w: int, ghost start: int, top: int) returns (top': int)
    requires 0 <= h < rows && 0 <= w < cols && idx == (t * rows + h) * cols + w
    requires Holds(a, log + Grid(base, idx, rows, cols)) && offset == |log| && offset + idx < a.Length1
    requires top == Highest(start, Grid(base, idx, rows, cols))
    modifies a
    ensures Holds(a, log + Grid(base, idx + 1, rows, cols))
    ensures top' == Highest(start, Grid(base, idx + 1, rows, cols))
  {
    ghost var before := Grid(base, idx, rows, cols);
    var p := Pos(base + t, base + h, base + w);
    GridExtends(base, rows, cols, idx, t, h, w);
    HighestConcat(start, before, [p]);
    assert log + before + [p] == log + Grid(base, idx + 1, rows, cols);
    hide Holds, Highest;
    top' := Put(a, log + before, offset + idx, p, top);
  }

  /** The checks on an image; the merge factor is 0 when one fails. */
  method MergeOf(d: Data) returns (merge: nat)
    requires HasGrid(d)
    ensures merge > 0 <==> Accepted(d)
    ensures merge > 0 ==> merge == InferredMerge(d)
  {
    merge := InferredMerge(d);
    if merge > 0 && (d.h % merge != 0 || d.w % merge != 0) {
      merge := 0;
    }
  }

  /** One piece of data of a sequence; fails when a check on an image does, or when the data
      is longer than declared. */
  method PutData(a: array2<int>, ghost log: seq<Pos>, offset: nat, base: int, d: Data, room: nat, top: int)
    returns (ok: bool, base': int, top': int)
    requires Holds(a, log) && offset == |log| && offset + room <= a.Length1
    modifies a
    ensures ok <==> Accepted(d) && Length(d) <= room
    ensures ok ==> base' == base + Span(d)
    ensures ok ==> Holds(a, log + DataPositions(base, d)) && top' == Highest(top, DataPositions(base, d))
  {
    hide Holds, Highest;
    base', top' := base, top;
    if HasGrid(d) {
      var merge := MergeOf(d);
      ok := merge > 0 && Length(d) <= room;
      if ok {
        CellsAreEmbeddings(d);
        top' := PutGrid(a, log, offset, base, Length(d), d.t, d.h / merge, d.w / merge, top);
        base' := base + Max(d.h, d.w) / merge;
      }
    } else {
      ok := Length(d) <= room;
      if ok {
        top' := PutLine(a, log, offset, base, Length(d), top);
        base' := base + Length(d);
      }
    }
  }

  // ---------------------------------------------------------------- one sequence

  lemma PrefixStep(base: int, ds: seq<Data>, k: nat)
    requires k < |ds| && AllAccepted(ds[..k])
    ensures ds[..k + 1] == ds[..k] + [ds[k]]
    ensures AllAccepted(ds[..k + 1]) <==> Accepted(ds[k])
    ensures TotalLength(ds[..k + 1]) == TotalLength(ds[..k]) + Length(ds[k])
    ensures TotalLength(ds[..k + 1]) <= TotalLength(ds)
    ensures Accepted(ds[k]) ==>
              && AllAccepted(ds[..k + 1])
              && TotalSpan(ds[..k + 1]) == TotalSpan(ds[..k]) + Span(ds[k])
              && Positions(base, ds[..k + 1])
                 == Positions(base, ds[..k]) + DataPositions(base + TotalSpan(ds[..k]), ds[k])
  {
    hide Accepted, Span, DataPositions, Positions, TotalSpan, TotalLength;
    var a, b := ds[..k], [ds[k]];
    assert ds[..k + 1] == a + b;
    LengthConcat(a, b);
    LengthConcat(ds[..k + 1], ds[k + 1..]);
    assert ds[..k + 1] + ds[k + 1..] == ds;
    OnePiece(base + (if AllAccepted(a) then TotalSpan(a) else 0), ds[k]);
    assert (a + b)[k] == ds[k];
    if Accepted(ds[k]) {
      PositionsConcat(base, a, b);
    }
  }

  lemma OnePiece(base: int, d: Data)
    ensures TotalLength([d]) == Length(d)
    ensures Accepted(d) ==>
              AllAccepted([d]) && TotalSpan([d]) == Span(d) && Positions(base, [d]) == DataPositions(base, d)
  {
    hide Accepted, Span, DataPositions;
    assert [d][1..] == [];
    assert TotalLength([]) == 0;
    if Accepted(d) {
      assert AllAccepted([d]);
      assert TotalSpan([]) == 0;
      assert Positions(base + Span(d), []) == [];
    }
  }

  lemma {:induction false} LengthConcat(a: seq<Data>, b: seq<Data>)
    ensures TotalLength(a + b) == TotalLength(a) + TotalLength(b)
  {
    if a == [] {
      assert a + b == b;
    } else {
      assert (a + b)[0] == a[0] && (a + b)[1..] == a[1..] + b;
      LengthConcat(a[1..], b);
    }
  }

  /** All data of one sequence from its base on; the largest position comes back. */
  method PutSequence(a: array2<int>, ghost log: seq<Pos>, offset: nat, base: int, ds: seq<Data>, length: nat)
    returns (ok: bool, top: int)
    requires Holds(a, log) && offset == |log| && offset + length <= a.Length1
    modifies a
    ensures ok <==> Matches(ds, length)
    ensures ok ==> Holds(a, log + Positions(base, ds)) && top == Highest(base - 1, Positions(base, ds))
  {
    hide Holds, Accepted, AllAccepted, Positions, Highest, TotalSpan, TotalLength, Span, DataPositions;
    var local: nat, current := 0, base;
    top := base - 1;
    Start(base, ds, log);
    for k := 0 to |ds|
      invariant AllAccepted(ds[..k])
      invariant local == TotalLength(ds[..k]) <= length && current == base + TotalSpan(ds[..k])
      invariant |Positions(base, ds[..k])| == local
      invariant Holds(a, log + Positions(base, ds[..k]))
      invariant top == Highest(base - 1, Positions(base, ds[..k]))
    {
      ghost var before := Positions(base, ds[..k]);
      PrefixStep(base, ds, k);
      ok, current, top := PutData(a, log + before, offset + local, current, ds[k], length - local, top);
      if !ok {
        AcceptedOne(ds, k);
        return;
      }
      HighestConcat(base - 1, before, DataPositions(base + TotalSpan(ds[..k]), ds[k]));
      assert log + Positions(base, ds[..k + 1])
             == log + before + DataPositions(base + TotalSpan(ds[..k]), ds[k]);
      local := local + Length(ds[k]);
    }
    assert ds[..|ds|] == ds;
    ok := local == length;
  }

  /** How many columns the code writes for a sequence: each piece behind its own checks, up to
      the first piece that fails one. The lengths are compared after the last piece. */
  function Written(ds: seq<Data>): nat {
    if ds == [] || !Accepted(ds[0]) then 0 else Length(ds[0]) + Written(ds[1..])
  }

  /** No write leaves the part of the tensor declared for the sequence: none of the pieces in
      front of the first bad one ends behind it. */
  ghost predicate StaysInside(ds: seq<Data>, length: nat) {
    forall k: nat {:trigger ds[..k]} :: k <= |ds| && AllAccepted(ds[..k]) ==> TotalLength(ds[..k]) <= length
  }

  lemma {:induction false} WrittenIs(ds: seq<Data>, k: nat)
    requires k <= |ds| && AllAccepted(ds[..k])
    ensures Written(ds) == TotalLength(ds[..k]) + Written(ds[k..])
  {
    hide Accepted;
    if k == 0 {
      assert ds[..0] == [] && ds[0..] == ds;
    } else {
      assert ds[..k][0] == ds[0] && ds[..k][1..] == ds[1..][..k - 1] && ds[1..][k - 1..] == ds[k..];
      assert AllAccepted(ds[1..][..k - 1]) by {
        forall i {:trigger ds[1..][..k - 1][i]} | 0 <= i < k - 1 ensures Accepted(ds[1..][..k - 1][i]) {
          assert ds[1..][..k - 1][i] == ds[..k][i + 1];
        }
      }
      WrittenIs(ds[1..], k - 1);
    }
  }

  /** The pieces up to the first bad one. */
  lemma {:induction false} GoodPart(ds: seq<Data>) returns (k: nat)
    ensures k <= |ds| && AllAccepted(ds[..k]) && Written(ds[k..]) == 0
  {
    hide Accepted;
    if ds == [] || !Accepted(ds[0]) {
      k := 0;
      assert ds[0..] == ds;
    } else {
      var n := GoodPart(ds[1..]);
      k := n + 1;
      assert ds[1..][n..] == ds[k..];
      forall i {:trigger ds[..k][i]} | 0 <= i < k ensures Accepted(ds[..k][i]) {
        if i > 0 { assert ds[..k][i] == ds[1..][..n][i - 1]; }
      }
    }
  }

  /** The writes for a sequence stay inside its part exactly if no more columns are written
      than declared; all good data fill it exactly if they match the length. */
  lemma StaysInsideIff(ds: seq<Data>, length: nat)
    ensures StaysInside(ds, length) <==> Written(ds) <= length
    ensures AllAccepted(ds) ==> Written(ds) == TotalLength(ds)
    ensures Matches(ds, length) ==> StaysInside(ds, length)
  {
    hide Accepted, AllAccepted;
    var n := GoodPart(ds);
    WrittenIs(ds, n);
    assert StaysInside(ds, length) ==> TotalLength(ds[..n]) <= length;
    forall k: nat {:trigger ds[..k]} | k <= |ds| && AllAccepted(ds[..k]) ensures TotalLength(ds[..k]) <= Written(ds) {
      WrittenIs(ds, k);
    }
    assert ds[..|ds|] == ds && ds[|ds|..] == [];
    if AllAccepted(ds) { WrittenIs(ds, |ds|); }
  }

  lemma AcceptedOne(ds: seq<Data>, k: nat)
    requires k < |ds|
    ensures AllAccepted(ds) ==> Accepted(ds[k])
  {
  }

  lemma Start(base: int, ds: seq<Data>, log: seq<Pos>)
    ensures AllAccepted(ds[..0]) && TotalLength(ds[..0]) == 0 && TotalSpan(ds[..0]) == 0
    ensures Positions(base, ds[..0]) == [] && log + Positions(base, ds[..0]) == log && Highest(base - 1, []) == base - 1
  {
  }

  // ---------------------------------------------------------------- one batch

  function SumOf(lengths: seq<nat>, n: nat): nat
    requires n <= |lengths|
  {
    if n == 0 then 0 else SumOf(lengths, n - 1) + lengths[n - 1]
  }

  lemma {:induction false} SumGrows(lengths: seq<nat>, n: nat, k: nat)
    requires n <= k <= |lengths|
    ensures SumOf(lengths, n) <= SumOf(lengths, k)
    decreases k
  {
    if n < k { SumGrows(lengths, n, k - 1); }
  }

  function BuiltPositions(st: Store, b: Batch, n: nat): seq<Pos>
    requires SameSizes(b) && n <= |b.ids| && MatchedUpTo(b, n)
  {
    if n == 0 then []
    else
      assert Matches(b.input[n - 1], b.lengths[n - 1]);
      BuiltPositions(st, b, n - 1) + Positions(Base(Remembered(st, b.ids[n - 1])), b.input[n - 1])
  }

  lemma {:induction false} BuiltIsBatch(st: Store, b: Batch, n: nat)
    requires SameSizes(b) && n <= |b.ids| && AllMatch(b) && ContainsImage(b.input)
    ensures Sound(b) && MatchedUpTo(b, n) && BuiltPositions(st, b, n) == BatchPositions(st, b, n)
  {
    hide Matches, Remembered, Positions, Base;
    if n > 0 {
      BuiltIsBatch(st, b, n - 1);
      assert BatchPositions(st, b, n) == BatchPositions(st, b, n - 1) + EntryPositions(st, b, n - 1);
    }
  }

  /** The deltas the store has, 0 for sequences without one. */
  function KnownDeltas(st: Store, ids: seq<int>): (r: seq<int>)
    ensures |r| == |ids|
  {
    seq(|ids|, i requires 0 <= i < |ids| => if ids[i] in st.deltas then st.deltas[ids[i]] else 0)
  }

  /** The deltas that go with the positions of a batch. */
  function BatchDeltas(st: Store, b: Batch): seq<int>
    requires Sound(b)
  {
    if ContainsImage(b.input) then DeltasOf(st, b, |b.ids|) else KnownDeltas(st, b.ids)
  }

  class Model {
    const padding: nat
    var deltas: map<int, int>
    var lengths: map<int, int>

    function Abs(): Store
      reads this
    {
      Store(deltas, lengths)
    }

    constructor (padding: nat)
      requires padding > 0
      ensures this.padding == padding && Abs() == EMPTY
    {
      this.padding := padding;
      deltas, lengths := map[], map[];
    }

    method ContainsImageGrid(input: seq<seq<Data>>) returns (found: bool)
      ensures found <==> ContainsImage(input)
    {
      for i := 0 to |input|
        invariant forall k {:trigger input[k]} :: 0 <= k < i ==> !ImageIn(input[k])
      {
        for j := 0 to |input[i]|
          invariant forall k {:trigger input[i][k]} :: 0 <= k < j ==> !HasGrid(input[i][k])
        {
          if HasGrid(input[i][j]) {
            assert ImageIn(input[i]);
            return true;
          }
        }
      }
      return false;
    }

    method HasMropeDelta(ids: seq<int>) returns (found: bool)
      ensures found <==> HasDelta(Abs(), ids)
    {
      for i := 0 to |ids|
        invariant forall k {:trigger ids[k]} :: 0 <= k < i ==> ids[k] !in deltas
      {
        if ids[i] in deltas { return true; }
      }
      return false;
    }

    /** Entry s of a batch with an image. */
    method BuildEntry(b: Batch, s: nat, offset: nat, positions: array2<int>, built: array<int>) returns (ok: bool)
      requires SameSizes(b) && s < |b.ids|
      requires BuiltUpTo(Abs(), b, positions, built, s) && offset == SumOf(b.lengths, s)
      requires SumOf(b.lengths, s + 1) <= positions.Length1
      modifies positions, built
      ensures ok <==> Matches(b.input[s], b.lengths[s])
      ensures ok ==> BuiltUpTo(Abs(), b, positions, built, s + 1)
    {
      hide Holds, Matches, BuiltDelta, Positions, Highest, AllAccepted, TotalLength, BuiltPositions, MatchedUpTo,
           SumOf, DeltasOf;
      var delta := if b.ids[s] in deltas then deltas[b.ids[s]] else 0;
      var consumed := if b.ids[s] in lengths then lengths[b.ids[s]] else 0;
      ghost var st := Abs();
      ghost var base := Base(Remembered(st, b.ids[s]));
      assert base == consumed + delta;
      SumStep(b.lengths, s);
      var top;
      ghost var log := BuiltPositions(st, b, s);
      ok, top := PutSequence(positions, log, offset, consumed + delta, b.input[s], b.lengths[s]);
      if ok {
        MatchedLength(base, b.input[s], b.lengths[s]);
        BuiltDeltaIs(st, b, s, top);
        BuiltStep(st, b, s);
        built[s] := top + 1 - (consumed + b.lengths[s]);
        assert built[..s + 1] == old(built[..s]) + [built[s]];
      }
    }

    /** Position tensor and deltas of a batch with an image. */
    method BuildTensors(b: Batch, padded: nat) returns (ok: bool, positions: array2<int>, built: array<int>)
      requires SameSizes(b) && SumOf(b.lengths, |b.lengths|) <= padded
      ensures fresh(positions) && fresh(built) && positions.Length1 == padded
      ensures ok <==> AllMatch(b)
      ensures ok ==> BuiltUpTo(Abs(), b, positions, built, |b.ids|)
    {
      hide Matches, BuiltUpTo;
      positions := NewTensor(padded);
      built := new int[|b.ids|](i => 0);
      NothingBuilt(Abs(), b, positions, built);
      var offset: nat := 0;
      for s := 0 to |b.ids|
        invariant fresh(positions) && fresh(built) && positions.Length1 == padded
        invariant offset == SumOf(b.lengths, s)
        invariant MatchedUpTo(b, s) && BuiltUpTo(Abs(), b, positions, built, s)
      {
        SumGrows(b.lengths, s + 1, |b.lengths|);
        ok := BuildEntry(b, s, offset, positions, built);
        if !ok {
          assert !Matches(b.input[s], b.lengths[s]);
          return;
        }
        offset := offset + b.lengths[s];
      }
      ok := true;
    }

    /** Position tensor and deltas of a batch without an image: the deltas stay. */
    method BuildContinuation(b: Batch, padded: nat) returns (positions: array2<int>, built: array<int>)
      requires SameSizes(b) && SumOf(b.lengths, |b.lengths|) <= padded
      ensures fresh(positions) && fresh(built) && positions.Length1 == padded
      ensures Holds(positions, ShiftedPositions(Abs(), b, |b.ids|))
      ensures built[..] == KnownDeltas(Abs(), b.ids)
    {
      hide Holds, Line, ShiftedPositions, SumOf, Remembered, Base;
      ghost var st := Abs();
      positions := NewTensor(padded);
      built := new int[|b.ids|](i => 0);
      NothingShifted(st, b);
      var offset: nat := 0;
      for s := 0 to |b.ids|
        invariant fresh(positions) && fresh(built) && positions.Length1 == padded
        invariant built.Length == |b.ids| && built[..s] == KnownDeltas(st, b.ids)[..s]
        invariant offset == SumOf(b.lengths, s) == |ShiftedPositions(st, b, s)|
        invariant Holds(positions, ShiftedPositions(st, b, s))
      {
        SumGrows(b.lengths, s + 1, |b.lengths|);
        ShiftedStep(st, b, s);
        var delta := if b.ids[s] in deltas then deltas[b.ids[s]] else 0;
        var consumed := if b.ids[s] in lengths then lengths[b.ids[s]] else 0;
        RememberedIs(st, b.ids[s]);
        built[s] := delta;
        assert built[..s + 1] == KnownDeltas(st, b.ids)[..s + 1];
        var _ := PutLine(positions, ShiftedPositions(st, b, s), offset, consumed + delta, b.lengths[s], 0);
        offset := offset + b.lengths[s];
      }
      assert built[..|b.ids|] == built[..];
    }

    method StoreMropeDeltas(ids: seq<int>, built: array<int>)
      requires built.Length == |ids|
      modifies this
      ensures deltas == StoredDeltas(old(deltas), ids, built[..], |ids|)
      ensures lengths == Noted(old(lengths), ids, |ids|)
    {
      for i := 0 to |ids|
        invariant deltas == StoredDeltas(old(deltas), ids, built[..], i)
        invariant lengths == Noted(old(lengths), ids, i)
      {
        deltas := deltas[ids[i] := built[i]];
        if ids[i] !in lengths {
          lengths := lengths[ids[i] := 0];
        }
      }
    }

    method AdvancePrefilledLengths(ids: seq<int>, counts: seq<nat>)
      requires |ids| == |counts|
      modifies this
      ensures deltas == old(deltas) && lengths == Advanced(old(lengths), ids, counts, |ids|)
    {
      for i := 0 to |ids|
        invariant deltas == old(deltas) && lengths == Advanced(old(lengths), ids, counts, i)
      {
        lengths := lengths[ids[i] := (if ids[i] in lengths then lengths[ids[i]] else 0) + counts[i]];
      }
    }

    /** One prefill of a batch: refused batches leave the store alone, the others move it on
        as Served says and come with the positions and deltas of every entry, in order. */
    method BatchPrefillWithMrope(b: Batch) returns (outcome: Outcome)
      requires padding > 0
      modifies this
      ensures outcome.Refusal? <==> Refused(old(Abs()), b)
      ensures outcome.Refusal? ==> Abs() == old(Abs())
      ensures !outcome.Refusal? ==> Sound(b) && Abs() == Served(old(Abs()), b)
      ensures outcome.Tensor? ==>
                var ps := BatchPositions(old(Abs()), b, |b.ids|);
                && outcome.positions.Length1 == Padded(SumOf(b.lengths, |b.lengths|), padding)
                && Shows(outcome.positions, ps)
      ensures Good(b) ==> (outcome.Refusal? <==> b.ids == [])
      ensures outcome.Tensor? && Good(b) ==> outcome.deltas.Length == |b.ids|
      ensures outcome.Tensor? && Good(b) ==> forall i {:trigger outcome.deltas[i]} :: 0 <= i < |b.ids| ==>
                outcome.deltas[i] == if b.ids[i] in deltas then deltas[b.ids[i]] else 0
      ensures !outcome.Refusal? && Good(b) ==> forall i {:trigger b.ids[i]} :: 0 <= i < |b.ids| ==>
                && b.ids[i] in lengths
                && lengths[b.ids[i]] == (if b.ids[i] in old(lengths) then old(lengths)[b.ids[i]] else 0) + b.lengths[i]
    {
      hide *;
      AbsIs();
      ghost var st := Abs();
      outcome := PrefillBatch(b);
      AbsIs();
      if Good(b) { GoodRefused(st, b); }
      if outcome.Tensor? { HoldsShows(outcome.positions, BatchPositions(st, b, |b.ids|)); }
      if !outcome.Refusal? && Good(b) {
        LengthsServed(st, b);
        if outcome.Tensor? { DeltasServed(st, b); }
      }
    }

    lemma AbsIs()
      ensures Abs().deltas == deltas && Abs().lengths == lengths
    {
    }

    /** The body of a prefill: which path the batch takes, and what it leaves in the store. */
    method PrefillBatch(b: Batch) returns (outcome: Outcome)
      requires padding > 0
      modifies this
      ensures outcome.Refusal? <==> Refused(old(Abs()), b)
      ensures outcome.Refusal? ==> Abs() == old(Abs())
      ensures !outcome.Refusal? ==> Sound(b) && Abs() == Served(old(Abs()), b)
      ensures outcome.PlainIndex? ==> !ContainsImage(b.input) && !HasDelta(old(Abs()), b.ids)
      ensures outcome.Tensor? ==>
                && Holds(outcome.positions, BatchPositions(old(Abs()), b, |b.ids|))
                && outcome.positions.Length1 == Padded(SumOf(b.lengths, |b.lengths|), padding)
                && outcome.deltas[..] == BatchDeltas(old(Abs()), b)
    {
      hide ContainsImage, HasDelta, Holds, AllMatch, BuiltPositions, DeltasOf, ShiftedPositions, MatchedUpTo,
        BatchPositions, StoredDeltas, Noted, Advanced, SumOf, Padded, KnownDeltas;
      ghost var st := Abs();
      var image := ContainsImageGrid(b.input);
      var known := HasMropeDelta(b.ids);
      if !image && !known {
        if b.ids == [] || |b.ids| != |b.lengths| { return Refusal; }
        AdvancePrefilledLengths(b.ids, b.lengths);
        return PlainIndex;
      }
      if |b.ids| != |b.lengths| || |b.ids| != |b.input| { return Refusal; }
      var total := Total(b.lengths);
      var padded := if total % padding != 0 then (total + padding - 1) / padding * padding else total;
      PaddedIs(total, padding);
      if image {
        var ok, positions, built := BuildTensors(b, padded);
        if !ok { return Refusal; }
        BuiltIsBatch(st, b, |b.ids|);
        assert built[..|b.ids|] == built[..];
        StoreMropeDeltas(b.ids, built);
        AdvancePrefilledLengths(b.ids, b.lengths);
        return Tensor(positions, built);
      }
      var positions, built := BuildContinuation(b, padded);
      ShiftedIsBatch(st, b, |b.ids|);
      AdvancePrefilledLengths(b.ids, b.lengths);
      return Tensor(positions, built);
    }

    method Total(counts: seq<nat>) returns (total: nat)
      ensures total == SumOf(counts, |counts|)
    {
      total := 0;
      for i := 0 to |counts|
        invariant total == SumOf(counts, i)
      {
        total := total + counts[i];
      }
    }
  }

  /** What a prefill hands to the model: nothing, no positions of its own, or a tensor. */
  datatype Outcome = Refusal | PlainIndex | Tensor(positions: array2<int>, deltas: array<int>)

  /** The total rounded up to the padding factor. */
  function Padded(total: nat, factor: nat): nat
    requires factor > 0
  {
    if total % factor != 0 then (total + factor - 1) / factor * factor else total
  }

  lemma PaddedIs(total: nat, factor: nat)
    requires factor > 0
    ensures Padded(total, factor) == if total % factor != 0 then (total + factor - 1) / factor * factor else total
    ensures total <= Padded(total, factor) < total + factor && Padded(total, factor) % factor == 0
  {
    var q := (total + factor - 1) / factor;
    assert total + factor - 1 == q * factor + (total + factor - 1) % factor;
    QuotientUnique(q * factor, factor, q, 0);
  }

  /** The positions without an image: the consumed length shifted by the delta. */
  function ShiftedPositions(st: Store, b: Batch, n: nat): seq<Pos>
    requires |b.ids| == |b.lengths| && n <= |b.ids|
  {
    if n == 0 then []
    else ShiftedPositions(st, b, n - 1) + Line(Base(Remembered(st, b.ids[n - 1])), b.lengths[n - 1])
  }

  lemma NothingShifted(st: Store, b: Batch)
    requires |b.ids| == |b.lengths|
    ensures ShiftedPositions(st, b, 0) == [] && SumOf(b.lengths, 0) == 0
  {
  }

  lemma ShiftedStep(st: Store, b: Batch, s: nat)
    requires |b.ids| == |b.lengths| && s < |b.ids|
    ensures SumOf(b.lengths, s + 1) == SumOf(b.lengths, s) + b.lengths[s]
    ensures |ShiftedPositions(st, b, s + 1)| == |ShiftedPositions(st, b, s)| + b.lengths[s]
    ensures ShiftedPositions(st, b, s + 1)
            == ShiftedPositions(st, b, s) + Line(Base(Remembered(st, b.ids[s])), b.lengths[s])
  {
    hide Line, Remembered, Base;
    LineLength(Base(Remembered(st, b.ids[s])), b.lengths[s]);
  }

  lemma LineLength(base: int, n: nat)
    ensures |Line(base, n)| == n
  {
  }

  lemma RememberedIs(st: Store, id: int)
    ensures Base(Remembered(st, id))
            == (if id in st.lengths then st.lengths[id] else 0) + (if id in st.deltas then st.deltas[id] else 0)
  {
  }

  lemma {:induction false} ShiftedIsBatch(st: Store, b: Batch, n: nat)
    requires SameSizes(b) && n <= |b.ids| && !ContainsImage(b.input) && HasDelta(st, b.ids)
    ensures Sound(b) && ShiftedPositions(st, b, n) == BatchPositions(st, b, n)
  {
    hide ContainsImage, HasDelta, Line, Remembered, Base;
    if n > 0 { ShiftedIsBatch(st, b, n - 1); }
  }

  /** The columns of the tensor are these positions, one axis per row, and zeros behind them. */
  ghost predicate Shows(a: array2<int>, ps: seq<Pos>)
    reads a
  {
    && a.Length0 == 3 && |ps| <= a.Length1
    && (forall j {:trigger ps[j]} :: 0 <= j < |ps| ==> a[0, j] == ps[j].t && a[1, j] == ps[j].h && a[2, j] == ps[j].w)
    && (forall x, j {:trigger a[x, j]} :: 0 <= x < 3 && |ps| <= j < a.Length1 ==> a[x, j] == 0)
  }

  lemma HoldsShows(a: array2<int>, ps: seq<Pos>)
    requires Holds(a, ps)
    ensures Shows(a, ps)
  {
    forall j | 0 <= j < |ps| ensures a[0, j] == ps[j].t && a[1, j] == ps[j].h && a[2, j] == ps[j].w {
      assert At(a, j) == ps[j];
    }
    forall x, j | 0 <= x < 3 && |ps| <= j < a.Length1 ensures a[x, j] == 0 {
      assert At(a, j) == Pos(0, 0, 0);
    }
  }

  lemma GoodRefused(st: Store, b: Batch)
    requires Good(b)
    ensures Refused(st, b) <==> b.ids == []
  {
    hide AllMatch;
  }

  /** A batch with one entry per sequence is refused exactly if it is empty, or if it has an image
      with a full grid and some entry has an image that is not taken or another length. */
  lemma RefusedIff(st: Store, b: Batch)
    requires SameSizes(b)
    ensures Refused(st, b) <==>
              || b.ids == []
              || ((exists i, j {:trigger b.input[i][j]} ::
                   0 <= i < |b.input| && 0 <= j < |b.input[i]| && b.input[i][j].Image?
                     && b.input[i][j].t > 0 && b.input[i][j].h > 0 && b.input[i][j].w > 0)
                  && exists i {:trigger b.input[i]} ::
                     0 <= i < |b.input| && !(AllAccepted(b.input[i]) && TotalLength(b.input[i]) == b.lengths[i]))
  {
    ImageIff(b.input);
    hide AllAccepted, TotalLength, ContainsImage;
  }

  lemma ImageIff(input: seq<seq<Data>>)
    ensures ContainsImage(input) <==>
              exists i, j {:trigger input[i][j]} :: 0 <= i < |input| && 0 <= j < |input[i]| && input[i][j].Image?
                && input[i][j].t > 0 && input[i][j].h > 0 && input[i][j].w > 0
  {
    if ContainsImage(input) {
      var i :| 0 <= i < |input| && ImageIn(input[i]);
      var j :| 0 <= j < |input[i]| && HasGrid(input[i][j]);
    }
    forall i, j {:trigger input[i][j]} | 0 <= i < |input| && 0 <= j < |input[i]| && HasGrid(input[i][j])
      ensures ContainsImage(input)
    {
      assert ImageIn(input[i]);
    }
  }

  /** On both tensor paths the deltas handed out are those in the store after the batch. */
  lemma DeltasServed(st: Store, b: Batch)
    requires Good(b)
    ensures Sound(b) && |BatchDeltas(st, b)| == |b.ids|
    ensures forall i {:trigger b.ids[i]} :: 0 <= i < |b.ids| ==>
              BatchDeltas(st, b)[i]
              == if b.ids[i] in Served(st, b).deltas then Served(st, b).deltas[b.ids[i]] else 0
  {
    hide *;
    SoundDeltas(st, b);
    forall i {:trigger b.ids[i]} | 0 <= i < |b.ids|
      ensures BatchDeltas(st, b)[i]
              == if b.ids[i] in Served(st, b).deltas then Served(st, b).deltas[b.ids[i]] else 0
    {
      GoodEntry(b, i);
      ServedDeltas(st, b, i);
      BatchDeltaAt(st, b, i);
      LookupIs(Served(st, b).deltas, b.ids[i]);
    }
  }

  lemma LookupIs(m: map<int, int>, id: int)
    ensures Lookup(m, id) == if id in m then m[id] else 0
  {
  }

  lemma SoundDeltas(st: Store, b: Batch)
    requires Good(b)
    ensures Sound(b) && |BatchDeltas(st, b)| == |b.ids|
  {
    hide ContainsImage, AllMatch, DeltasOf;
    forall i | 0 <= i < |b.ids| ensures Matches(b.input[i], b.lengths[i]) { GoodEntry(b, i); }
  }

  lemma BatchDeltaAt(st: Store, b: Batch, i: nat)
    requires Good(b) && i < |b.ids|
    ensures Sound(b) && |BatchDeltas(st, b)| == |b.ids| && |b.input| == |b.ids| && AllAccepted(b.input[i])
    ensures BatchDeltas(st, b)[i]
            == if ContainsImage(b.input) then Fed(Remembered(st, b.ids[i]), b.input[i]).delta
               else Lookup(st.deltas, b.ids[i])
  {
    hide *;
    SoundDeltas(st, b);
    GoodEntry(b, i);
    BuiltAt(st, b, i);
    WhichDeltas(st, b);
    KnownAt(st, b.ids, i);
  }

  lemma WhichDeltas(st: Store, b: Batch)
    requires Sound(b)
    ensures ContainsImage(b.input) ==>
              SameSizes(b) && MatchedUpTo(b, |b.ids|) && BatchDeltas(st, b) == DeltasOf(st, b, |b.ids|)
    ensures !ContainsImage(b.input) ==> BatchDeltas(st, b) == KnownDeltas(st, b.ids)
  {
    hide ContainsImage, Matches, DeltasOf, KnownDeltas;
  }

  lemma KnownAt(st: Store, ids: seq<int>, i: nat)
    requires i < |ids|
    ensures KnownDeltas(st, ids)[i] == Lookup(st.deltas, ids[i])
  {
  }

  lemma LengthsServed(st: Store, b: Batch)
    requires Good(b)
    ensures Sound(b)
    ensures forall i {:trigger b.ids[i]} :: 0 <= i < |b.ids| ==>
              && b.ids[i] in Served(st, b).lengths
              && Served(st, b).lengths[b.ids[i]]
                 == (if b.ids[i] in st.lengths then st.lengths[b.ids[i]] else 0) + b.lengths[i]
  {
    hide ContainsImage, Matches;
    forall i | 0 <= i < |b.ids| ensures b.ids[i] in Served(st, b).lengths {
      var before := if ContainsImage(b.input) then Noted(st.lengths, b.ids, |b.ids|) else st.lengths;
      AdvancedHas(before, b.ids, b.lengths, |b.ids|, i);
    }
    forall i | 0 <= i < |b.ids|
      ensures Lookup(Served(st, b).lengths, b.ids[i]) == Lookup(st.lengths, b.ids[i]) + b.lengths[i]
    {
      ServedLengths(st, b, i);
    }
    hide Served, Good, Sound;
  }

  lemma {:induction false} AdvancedHas(m: map<int, int>, ids: seq<int>, lengths: seq<nat>, n: nat, i: nat)
    requires i < n <= |ids| && n <= |lengths|
    ensures ids[i] in Advanced(m, ids, lengths, n)
  {
    if i < n - 1 { AdvancedHas(m, ids, lengths, n - 1, i); }
  }

  /** The tokens of entry i stand at its place in the batch. */
  lemma {:induction false} EntryPlaced(st: Store, b: Batch, n: nat, i: nat)
    requires Good(b) && i < n <= |b.ids|
    ensures Sound(b) && |EntryPositions(st, b, i)| == b.lengths[i]
    ensures SumOf(b.lengths, i) + b.lengths[i] <= SumOf(b.lengths, n) == |BatchPositions(st, b, n)|
    ensures BatchPositions(st, b, n)[SumOf(b.lengths, i)..SumOf(b.lengths, i) + b.lengths[i]]
            == EntryPositions(st, b, i)
  {
    hide *;
    EntryLength(st, b, i);
    PlacedLength(st, b, n - 1);
    PlacedLength(st, b, n);
    PlacedStep(st, b, n - 1);
    if i < n - 1 {
      EntryPlaced(st, b, n - 1, i);
    }
  }

  lemma PlacedStep(st: Store, b: Batch, n: nat)
    requires Sound(b) && n < |b.ids| && |b.ids| == |b.lengths|
    ensures BatchPositions(st, b, n + 1) == BatchPositions(st, b, n) + EntryPositions(st, b, n)
    ensures SumOf(b.lengths, n + 1) == SumOf(b.lengths, n) + b.lengths[n]
  {
    hide EntryPositions, Sound;
  }

  lemma EntryLength(st: Store, b: Batch, i: nat)
    requires Good(b) && i < |b.ids|
    ensures Sound(b) && |b.ids| == |b.lengths| && |EntryPositions(st, b, i)| == b.lengths[i]
  {
    GoodEntry(b, i);
    hide *;
    ServedOne(st, b, i);
    MatchedLength(Base(Remembered(st, b.ids[i])), b.input[i], b.lengths[i]);
  }

  lemma {:induction false} PlacedLength(st: Store, b: Batch, n: nat)
    requires Good(b) && n <= |b.ids|
    ensures Sound(b) && |BatchPositions(st, b, n)| == SumOf(b.lengths, n)
  {
    hide Base, Remembered, Positions, Matches, ContainsImage, EntryPositions;
    if n > 0 {
      PlacedLength(st, b, n - 1);
      EntryLength(st, b, n - 1);
    }
  }

  /** The tensor holds the positions of the first n entries, the array their deltas. */
  ghost predicate BuiltUpTo(st: Store, b: Batch, positions: array2<int>, built: array<int>, n: nat)
    requires SameSizes(b) && n <= |b.ids|
    reads positions, built
  {
    && MatchedUpTo(b, n)
    && |BuiltPositions(st, b, n)| == SumOf(b.lengths, n) && Holds(positions, BuiltPositions(st, b, n))
    && built.Length == |b.ids| && built[..n] == DeltasOf(st, b, n)
  }

  lemma NothingBuilt(st: Store, b: Batch, positions: array2<int>, built: array<int>)
    requires SameSizes(b) && Holds(positions, []) && built.Length == |b.ids|
    ensures BuiltUpTo(st, b, positions, built, 0)
  {
  }

  lemma SumStep(lengths: seq<nat>, n: nat)
    requires n < |lengths|
    ensures SumOf(lengths, n + 1) == SumOf(lengths, n) + lengths[n]
  {
  }

  lemma BuiltStep(st: Store, b: Batch, s: nat)
    requires SameSizes(b) && s < |b.ids| && MatchedUpTo(b, s) && Matches(b.input[s], b.lengths[s])
    ensures MatchedUpTo(b, s + 1) && AllAccepted(b.input[s])
    ensures BuiltPositions(st, b, s + 1)
            == BuiltPositions(st, b, s) + Positions(Base(Remembered(st, b.ids[s])), b.input[s])
    ensures DeltasOf(st, b, s + 1) == DeltasOf(st, b, s) + [BuiltDelta(st, b, s)]
  {
    hide BuiltDelta, TotalLength, Positions, Remembered, Base;
  }

  lemma MatchedLength(base: int, ds: seq<Data>, length: nat)
    requires Matches(ds, length)
    ensures AllAccepted(ds) && |Positions(base, ds)| == length
  {
    PositionsLength(base, ds);
  }

  lemma BuiltDeltaIs(st: Store, b: Batch, i: nat, top: int)
    requires SameSizes(b) && i < |b.ids| && Matches(b.input[i], b.lengths[i])
    requires top == Highest(Base(Remembered(st, b.ids[i])) - 1, Positions(Base(Remembered(st, b.ids[i])), b.input[i]))
    ensures BuiltDelta(st, b, i) == top + 1 - (Remembered(st, b.ids[i]).consumed + b.lengths[i])
  {
    hide AllAccepted, TotalLength, Positions, Highest, Remembered, Base;
  }
}
