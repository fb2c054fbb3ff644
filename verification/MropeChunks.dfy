/** Prefilling a prompt chunk by chunk. Between calls only two numbers survive: how many
    tokens a sequence has consumed and by how much the next position differs from that. */
module MropeChunks {
  import opened MropePositions

  /** What the model remembers of one sequence. */
  datatype Memory = Memory(delta: int, consumed: int)

  const FRESH := Memory(0, 0)

  function Base(m: Memory): int {
    m.consumed + m.delta
  }

  /** One call on one sequence: the delta is the next free position less the new length. */
  function Fed(m: Memory, ds: seq<Data>): Memory
    requires AllAccepted(ds)
  {
    var consumed := m.consumed + TotalLength(ds);
    Memory(Highest(Base(m) - 1, Positions(Base(m), ds)) + 1 - consumed, consumed)
  }

  ghost predicate ChunksAccepted(chunks: seq<seq<Data>>) {
    forall i {:trigger chunks[i]} :: 0 <= i < |chunks| ==> AllAccepted(chunks[i])
  }

  ghost function Joined(chunks: seq<seq<Data>>): (r: seq<Data>)
    requires ChunksAccepted(chunks)
    ensures AllAccepted(r)
  {
    if chunks == [] then [] else chunks[0] + Joined(chunks[1..])
  }

  ghost function FedAll(m: Memory, chunks: seq<seq<Data>>): Memory
    requires ChunksAccepted(chunks)
    decreases |chunks|
  {
    if chunks == [] then m else FedAll(Fed(m, chunks[0]), chunks[1..])
  }

  ghost function ChunkPositions(m: Memory, chunks: seq<seq<Data>>): seq<Pos>
    requires ChunksAccepted(chunks)
    decreases |chunks|
  {
    if chunks == [] then [] else Positions(Base(m), chunks[0]) + ChunkPositions(Fed(m, chunks[0]), chunks[1..])
  }

  /** Every chunk that has data behind it fits. */
  ghost predicate CutsFit(chunks: seq<seq<Data>>)
    requires ChunksAccepted(chunks)
    decreases |chunks|
  {
    chunks != [] ==> CutsFit(chunks[1..]) && (TotalLength(Joined(chunks[1..])) > 0 ==> Fits(chunks[0]))
  }

  lemma BaseAfter(m: Memory, ds: seq<Data>)
    requires AllAccepted(ds)
    ensures Base(Fed(m, ds)) == Base(m) + TotalSpan(ds) <==> Fits(ds)
  {
    SettledIffFits(Base(m), ds);
  }

  /** Feeding a fitting prompt and then another is feeding them joined. */
  lemma FedTwice(m: Memory, a: seq<Data>, b: seq<Data>)
    requires AllAccepted(a) && AllAccepted(b) && Fits(a)
    ensures AllAccepted(a + b) && Fed(Fed(m, a), b) == Fed(m, a + b)
    ensures Positions(Base(m), a) + Positions(Base(Fed(m, a)), b) == Positions(Base(m), a + b)
  {
    hide *;
    PositionsConcat(Base(m), a, b);
    BaseAfter(m, a);
    HighestConcat(Base(m) - 1, Positions(Base(m), a), Positions(Base(m) + TotalSpan(a), b));
    FedMeans(m, a);
    FedMeans(Fed(m, a), b);
    FedMeans(m, a + b);
    SameMemory(Fed(Fed(m, a), b), Fed(m, a + b));
  }

  /** Feeding a prompt and then nothing is feeding the prompt. */
  lemma FedNothing(m: Memory, a: seq<Data>, b: seq<Data>)
    requires AllAccepted(a) && AllAccepted(b) && TotalLength(b) == 0
    ensures AllAccepted(a + b) && Fed(Fed(m, a), b) == Fed(m, a + b)
    ensures Positions(Base(Fed(m, a)), b) == [] && Positions(Base(m), a + b) == Positions(Base(m), a)
  {
    hide *;
    PositionsConcat(Base(m), a, b);
    PositionsLength(Base(m) + TotalSpan(a), b);
    PositionsLength(Base(Fed(m, a)), b);
    NothingAhead(Base(Fed(m, a)) - 1, 0);
    FedMeans(m, a);
    FedMeans(Fed(m, a), b);
    FedMeans(m, a + b);
    SameMemory(Fed(Fed(m, a), b), Fed(m, a + b));
  }

  /** The next base is right behind the largest position so far. */
  lemma FedMeans(m: Memory, ds: seq<Data>)
    requires AllAccepted(ds)
    ensures Base(Fed(m, ds)) == Highest(Base(m) - 1, Positions(Base(m), ds)) + 1
    ensures Fed(m, ds).consumed == m.consumed + TotalLength(ds)
  {
    hide AllAccepted, Positions, Highest, TotalLength;
  }

  lemma SameMemory(a: Memory, b: Memory)
    ensures Base(a) == Base(b) && a.consumed == b.consumed ==> a == b
  {
  }

  lemma NoChunks(m: Memory)
    ensures ChunksAccepted([]) && FedAll(m, []) == m && ChunkPositions(m, []) == [] && Joined([]) == [] && CutsFit([])
  {
  }

  /** Facts about the first chunk. */
  lemma ChunksStep(m: Memory, chunks: seq<seq<Data>>)
    requires ChunksAccepted(chunks) && chunks != []
    ensures
      var a, rest := chunks[0], chunks[1..];
      && AllAccepted(a) && ChunksAccepted(rest)
      && Joined(chunks) == a + Joined(rest)
      && FedAll(m, chunks) == FedAll(Fed(m, a), rest)
      && ChunkPositions(m, chunks) == Positions(Base(m), a) + ChunkPositions(Fed(m, a), rest)
      && (CutsFit(chunks) <==> CutsFit(rest) && (TotalLength(Joined(rest)) > 0 ==> Fits(a)))
  {
    hide Accepted, AllAccepted, Fits, Positions, Fed, TotalLength;
  }

  lemma {:induction false} FedAllConcat(m: Memory, a: seq<seq<Data>>, b: seq<seq<Data>>)
    requires ChunksAccepted(a) && ChunksAccepted(b)
    ensures ChunksAccepted(a + b)
    ensures FedAll(m, a + b) == FedAll(FedAll(m, a), b)
    ensures ChunkPositions(m, a + b) == ChunkPositions(m, a) + ChunkPositions(FedAll(m, a), b)
    decreases |a|
  {
    hide AllAccepted, Positions, Fed;
    if a == [] {
      assert a + b == b;
    } else {
      assert (a + b)[0] == a[0] && (a + b)[1..] == a[1..] + b;
      FedAllConcat(Fed(m, a[0]), a[1..], b);
    }
  }

  /** The first position of chunks that are not empty is their base. */
  lemma {:induction false} FirstOfChunks(m: Memory, chunks: seq<seq<Data>>)
    requires ChunksAccepted(chunks) && TotalLength(Joined(chunks)) > 0
    ensures ChunkPositions(m, chunks) != [] && ChunkPositions(m, chunks)[0].t == Base(m)
    decreases |chunks|
  {
    hide *;
    if chunks == [] {
      NoChunks(m);
      NoLength();
    } else {
      var a, rest := chunks[0], chunks[1..];
      ChunksStep(m, chunks);
      LengthOfTwo(a, Joined(rest));
      if TotalLength(a) > 0 {
        FirstPosition(Base(m), a);
      } else {
        FedEmpty(m, a);
        FirstOfChunks(Fed(m, a), rest);
      }
    }
  }

  lemma NoLength()
    ensures TotalLength([]) == 0
  {
  }

  lemma LengthOfTwo(a: seq<Data>, b: seq<Data>)
    requires AllAccepted(a) && AllAccepted(b)
    ensures TotalLength(a + b) == TotalLength(a) + TotalLength(b)
  {
    PositionsConcat(0, a, b);
  }

  lemma FedEmpty(m: Memory, a: seq<Data>)
    requires AllAccepted(a) && TotalLength(a) == 0
    ensures Positions(Base(m), a) == [] && Base(Fed(m, a)) == Base(m)
  {
    PositionsLength(Base(m), a);
    NothingAhead(Base(m) - 1, 0);
    hide Accepted, AllAccepted, Positions, Highest, TotalSpan, TotalLength;
  }

  /** Chunk by chunk gives the positions of a single call exactly if every chunk with data
      behind it fits, and then the same memory, for any number of chunks. */
  lemma {:induction false} ChunkedIsOneShotIff(m: Memory, chunks: seq<seq<Data>>)
    requires ChunksAccepted(chunks)
    ensures ChunkPositions(m, chunks) == Positions(Base(m), Joined(chunks)) <==> CutsFit(chunks)
    ensures CutsFit(chunks) ==> FedAll(m, chunks) == Fed(m, Joined(chunks))
    decreases |chunks|
  {
    hide *;
    if chunks == [] {
      NoChunks(m);
      FedNone(m);
    } else {
      var a, rest := chunks[0], chunks[1..];
      ChunksStep(m, chunks);
      ChunkedIsOneShotIff(Fed(m, a), rest);
      if TotalLength(Joined(rest)) == 0 {
        NothingBehind(rest);
        FedNothing(m, a, Joined(rest));
      } else if Fits(a) {
        FedTwice(m, a, Joined(rest));
        SameFront(Positions(Base(m), a), ChunkPositions(Fed(m, a), rest), Positions(Base(Fed(m, a)), Joined(rest)));
      } else {
        TallChunk(m, a, rest);
      }
    }
  }

  lemma FedNone(m: Memory)
    ensures Positions(Base(m), []) == [] && Fed(m, []) == m
  {
  }

  lemma {:induction false} NothingBehind(chunks: seq<seq<Data>>)
    requires ChunksAccepted(chunks) && TotalLength(Joined(chunks)) == 0
    ensures CutsFit(chunks)
    decreases |chunks|
  {
    hide *;
    if chunks == [] {
      NoChunks(FRESH);
    } else {
      ChunksStep(FRESH, chunks);
      LengthOfTwo(chunks[0], Joined(chunks[1..]));
      NothingBehind(chunks[1..]);
    }
  }

  lemma SameFront(a: seq<Pos>, b: seq<Pos>, c: seq<Pos>)
    ensures a + b == a + c <==> b == c
  {
    assert (a + b)[|a|..] == b && (a + c)[|a|..] == c;
  }

  /** Behind a chunk that does not fit the very next position differs. */
  lemma TallChunk(m: Memory, a: seq<Data>, rest: seq<seq<Data>>)
    requires AllAccepted(a) && ChunksAccepted(rest) && TotalLength(Joined(rest)) > 0 && !Fits(a)
    ensures AllAccepted(a + Joined(rest))
    ensures Positions(Base(m), a) + ChunkPositions(Fed(m, a), rest) != Positions(Base(m), a + Joined(rest))
  {
    hide *;
    PositionsConcat(Base(m), a, Joined(rest));
    BaseAfter(m, a);
    FirstOfChunks(Fed(m, a), rest);
    FirstPosition(Base(m) + TotalSpan(a), Joined(rest));
    SameFront(Positions(Base(m), a), ChunkPositions(Fed(m, a), rest), Positions(Base(m) + TotalSpan(a), Joined(rest)));
  }

  // ---------------------------------------------------------------- exactly when a cut is harmless

  lemma {:induction false} FirstPosition(base: int, ds: seq<Data>)
    requires AllAccepted(ds) && TotalLength(ds) > 0
    ensures Positions(base, ds) != [] && Positions(base, ds)[0].t == base
  {
    PositionsLength(base, ds);
    var d := ds[0];
    if Length(d) == 0 {
      ReachWithinLength(d);
      FirstPosition(base, ds[1..]);
    } else {
      assert Positions(base, ds)[0] == DataPositions(base, d)[0];
      if HasGrid(d) {
        CellsAreEmbeddings(d);
        CellInside(d.t, Rows(d), Cols(d), 0);
        CellIndex(Rows(d), Cols(d), 0, 0, 0);
      }
    }
  }

  /** Cutting a prompt before a non-empty rest keeps the positions exactly if no image in
      front of the cut has more frames than the base has moved from it to the cut. */
  lemma CutIsHarmlessIff(m: Memory, a: seq<Data>, b: seq<Data>)
    requires AllAccepted(a) && AllAccepted(b) && TotalLength(b) > 0
    ensures AllAccepted(a + b)
    ensures Positions(Base(m), a) + Positions(Base(Fed(m, a)), b) == Positions(Base(m), a + b) <==> Fits(a)
  {
    hide Fits, Positions, Fed;
    PositionsConcat(Base(m), a, b);
    BaseAfter(m, a);
    FirstPosition(Base(Fed(m, a)), b);
    FirstPosition(Base(m) + TotalSpan(a), b);
    var front := Positions(Base(m), a);
    var p, q := Positions(Base(Fed(m, a)), b), Positions(Base(m) + TotalSpan(a), b);
    assert (front + p)[|front|] == p[0] && (front + q)[|front|] == q[0];
  }

  /** A one by one image of two frames, cut before a token: the token moves. */
  lemma TallImageMoves(d: Data, token: Data)
    requires d == Image(2, 2, 1, 1) && token == Tokens(1)
    ensures AllAccepted([d]) && AllAccepted([token]) && AllAccepted([d] + [token]) && !Fits([d])
    ensures Positions(0, [d]) + Positions(Base(Fed(FRESH, [d])), [token]) != Positions(0, [d] + [token])
  {
    TallImage(d);
    assert TotalLength([token]) == 1;
    CutIsHarmlessIff(FRESH, [d], [token]);
  }

  lemma TallImage(d: Data)
    requires d == Image(2, 2, 1, 1)
    ensures AllAccepted([d]) && !Fits([d])
  {
    assert 1 * 1 * d.embed == FullGrid(d);
    InferredExactly(d, 1);
    assert Span(d) == 1;
    assert [d][1..] == [];
    assert TotalSpan([d]) == 1;
  }

  /** The delta is never positive, whatever the images. */
  lemma DeltaNeverPositive(m: Memory, ds: seq<Data>)
    requires AllAccepted(ds) && m.delta <= 0
    ensures Fed(m, ds).delta <= 0
  {
    HighestWithinLength(Base(m) - 1, Base(m), ds, m.consumed);
  }

  // ---------------------------------------------------------------- cuts inside text

  /** A prompt as single tokens and whole images. */
  datatype Unit = Token | Picture(image: Data)

  function UnitsOf(d: Data): seq<Unit> {
    if HasGrid(d) then [Picture(d)] else TokenUnits(Length(d))
  }

  function Units(ds: seq<Data>): seq<Unit> {
    if ds == [] then [] else UnitsOf(ds[0]) + Units(ds[1..])
  }

  predicate GoodUnits(us: seq<Unit>) {
    forall i {:trigger us[i]} :: 0 <= i < |us| && us[i].Picture? ==> HasGrid(us[i].image) && Accepted(us[i].image)
  }

  function UnitPositions(base: int, us: seq<Unit>): seq<Pos>
    requires GoodUnits(us)
    decreases us
  {
    if us == [] then []
    else if us[0].Token? then [Pos(base, base, base)] + UnitPositions(base + 1, us[1..])
    else DataPositions(base, us[0].image) + UnitPositions(base + Span(us[0].image), us[1..])
  }

  function TokenUnits(n: nat): seq<Unit> {
    seq(n, i => Token)
  }

  lemma OneToken(base: int, us: seq<Unit>)
    requires GoodUnits(us)
    ensures GoodUnits([Token] + us)
    ensures UnitPositions(base, [Token] + us) == [Pos(base, base, base)] + UnitPositions(base + 1, us)
  {
    hide DataPositions, Span, Accepted, HasGrid;
    assert ([Token] + us)[1..] == us;
  }

  lemma LineStep(base: int, n: nat)
    requires n > 0
    ensures Line(base, n) == [Pos(base, base, base)] + Line(base + 1, n - 1)
    ensures TokenUnits(n) == [Token] + TokenUnits(n - 1)
  {
  }

  lemma {:induction false} TokensInFront(base: int, n: nat, us: seq<Unit>)
    requires GoodUnits(us)
    ensures GoodUnits(TokenUnits(n) + us)
    ensures UnitPositions(base, TokenUnits(n) + us) == Line(base, n) + UnitPositions(base + n, us)
    decreases n
  {
    hide *;
    if n == 0 {
      NoTokens(base, us);
    } else {
      LineStep(base, n);
      var rest := TokenUnits(n - 1) + us;
      TokensInFront(base + 1, n - 1, us);
      OneToken(base, rest);
      assert TokenUnits(n) + us == [Token] + rest;
      assert base + 1 + (n - 1) == base + n;
      var p := [Pos(base, base, base)];
      assert p + Line(base + 1, n - 1) + UnitPositions(base + n, us)
             == p + (Line(base + 1, n - 1) + UnitPositions(base + n, us));
    }
  }

  lemma NoTokens(base: int, us: seq<Unit>)
    ensures TokenUnits(0) + us == us && Line(base, 0) == []
  {
  }

  lemma {:induction false} PositionsByUnits(base: int, ds: seq<Data>)
    requires AllAccepted(ds)
    ensures GoodUnits(Units(ds)) && UnitPositions(base, Units(ds)) == Positions(base, ds)
    decreases ds
  {
    if ds != [] {
      hide Accepted, DataPositions, HasGrid;
      var d := ds[0];
      PositionsByUnits(base + Span(d), ds[1..]);
      UnitsFirst(base, d, Units(ds[1..]));
    }
  }

  lemma UnitsFirst(base: int, d: Data, us: seq<Unit>)
    requires Accepted(d) && GoodUnits(us)
    ensures GoodUnits(UnitsOf(d) + us)
    ensures UnitPositions(base, UnitsOf(d) + us) == DataPositions(base, d) + UnitPositions(base + Span(d), us)
  {
    if HasGrid(d) {
      assert ([Picture(d)] + us)[1..] == us;
    } else {
      TokensInFront(base, Length(d), us);
    }
  }

  lemma SameUnits(m: Memory, a: seq<Data>, b: seq<Data>)
    requires AllAccepted(a) && AllAccepted(b) && Units(a) == Units(b)
    ensures Positions(Base(m), a) == Positions(Base(m), b) && Fed(m, a) == Fed(m, b)
  {
    PositionsByUnits(Base(m), a);
    PositionsByUnits(Base(m), b);
    PositionsLength(Base(m), a);
    PositionsLength(Base(m), b);
  }

  /** Two ways to cut the same prompt, between pieces or inside text: when the cuts of one
      fit, the other gives the same positions exactly if its cuts fit, and then the same
      memory. */
  lemma CutsAgreeIff(m: Memory, one: seq<seq<Data>>, other: seq<seq<Data>>)
    requires ChunksAccepted(one) && ChunksAccepted(other) && CutsFit(one)
    requires Units(Joined(one)) == Units(Joined(other))
    ensures ChunkPositions(m, one) == ChunkPositions(m, other) <==> CutsFit(other)
    ensures CutsFit(other) ==> FedAll(m, one) == FedAll(m, other)
  {
    hide *;
    ChunkedIsOneShotIff(m, one);
    ChunkedIsOneShotIff(m, other);
    SameUnits(m, Joined(one), Joined(other));
  }
}
