/** Batched prefill with three-axis positions: three paths through the model, a store with
    one memory per sequence, and what a whole run of batches gives each sequence. */
module MropeBatches {
  import opened MropePositions
  import opened MropeChunks

  /** The two maps of the model, from sequence to delta and to consumed length. */
  datatype Store = Store(deltas: map<int, int>, lengths: map<int, int>)

  const EMPTY := Store(map[], map[])

  datatype Batch = Batch(ids: seq<int>, lengths: seq<nat>, input: seq<seq<Data>>)

  function Lookup(m: map<int, int>, id: int): int {
    if id in m then m[id] else 0
  }

  function Remembered(st: Store, id: int): Memory {
    Memory(Lookup(st.deltas, id), Lookup(st.lengths, id))
  }

  predicate ImageIn(ds: seq<Data>) {
    exists j {:trigger ds[j]} :: 0 <= j < |ds| && HasGrid(ds[j])
  }

  predicate ContainsImage(input: seq<seq<Data>>) {
    exists i {:trigger input[i]} :: 0 <= i < |input| && ImageIn(input[i])
  }

  predicate HasDelta(st: Store, ids: seq<int>) {
    exists i {:trigger ids[i]} :: 0 <= i < |ids| && ids[i] in st.deltas
  }

  predicate Matches(ds: seq<Data>, length: nat) {
    AllAccepted(ds) && TotalLength(ds) == length
  }

  predicate AllMatch(b: Batch)
    requires |b.input| == |b.lengths|
  {
    forall i {:trigger b.input[i]} :: 0 <= i < |b.input| ==> Matches(b.input[i], b.lengths[i])
  }

  /** Every sequence occurs once, and the declared lengths are those of the data. */
  ghost predicate Good(b: Batch) {
    && |b.ids| == |b.lengths| && |b.ids| == |b.input|
    && AllMatch(b)
    && forall i, j {:trigger b.ids[i], b.ids[j]} :: 0 <= i < j < |b.ids| ==> b.ids[i] != b.ids[j]
  }

  /** What the model needs of a batch: data that matches, if there is an image at all. */
  predicate Sound(b: Batch) {
    |b.ids| == |b.lengths| && (ContainsImage(b.input) ==> |b.ids| == |b.input| && AllMatch(b))
  }

  // ---------------------------------------------------------------- the store after a batch

  function Advanced(m: map<int, int>, ids: seq<int>, lengths: seq<nat>, n: nat): map<int, int>
    requires n <= |ids| && n <= |lengths|
  {
    if n == 0 then m
    else
      var before := Advanced(m, ids, lengths, n - 1);
      before[ids[n - 1] := Lookup(before, ids[n - 1]) + lengths[n - 1]]
  }

  function StoredDeltas(m: map<int, int>, ids: seq<int>, deltas: seq<int>, n: nat): map<int, int>
    requires n <= |ids| && n <= |deltas|
  {
    if n == 0 then m else StoredDeltas(m, ids, deltas, n - 1)[ids[n - 1] := deltas[n - 1]]
  }

  /** Sequences without a consumed length get 0. */
  function Noted(m: map<int, int>, ids: seq<int>, n: nat): map<int, int>
    requires n <= |ids|
  {
    if n == 0 then m
    else
      var before := Noted(m, ids, n - 1);
      if ids[n - 1] in before then before else before[ids[n - 1] := 0]
  }

  predicate SameSizes(b: Batch) {
    |b.ids| == |b.lengths| && |b.ids| == |b.input|
  }

  predicate MatchedUpTo(b: Batch, n: nat)
    requires SameSizes(b) && n <= |b.ids|
  {
    forall i {:trigger b.input[i]} :: 0 <= i < n ==> Matches(b.input[i], b.lengths[i])
  }

  /** The delta computed for entry i. */
  function BuiltDelta(st: Store, b: Batch, i: nat): int
    requires SameSizes(b) && i < |b.ids| && Matches(b.input[i], b.lengths[i])
  {
    Fed(Remembered(st, b.ids[i]), b.input[i]).delta
  }

  /** The deltas computed for the first n entries of a batch with an image. */
  function DeltasOf(st: Store, b: Batch, n: nat): (r: seq<int>)
    requires SameSizes(b) && n <= |b.ids| && MatchedUpTo(b, n)
    ensures |r| == n
  {
    if n == 0 then []
    else
      assert Matches(b.input[n - 1], b.lengths[n - 1]);
      DeltasOf(st, b, n - 1) + [BuiltDelta(st, b, n - 1)]
  }

  /** With an image anywhere in the batch, all its sequences store a delta; otherwise only
      the lengths move on. */
  function Served(st: Store, b: Batch): Store
    requires Sound(b)
  {
    var n := |b.ids|;
    if ContainsImage(b.input) then
      Store(StoredDeltas(st.deltas, b.ids, DeltasOf(st, b, n), n),
            Advanced(Noted(st.lengths, b.ids, n), b.ids, b.lengths, n))
    else Store(st.deltas, Advanced(st.lengths, b.ids, b.lengths, n))
  }

  /** The positions entry i of a batch gets on the path the batch takes: by data with an
      image, shifted by the delta when some sequence has one, else the plain index. */
  function EntryPositions(st: Store, b: Batch, i: nat): seq<Pos>
    requires Sound(b) && i < |b.ids|
  {
    var m := Remembered(st, b.ids[i]);
    if ContainsImage(b.input) then
      assert Matches(b.input[i], b.lengths[i]);
      Positions(Base(m), b.input[i])
    else if HasDelta(st, b.ids) then Line(Base(m), b.lengths[i])
    else Line(m.consumed, b.lengths[i])
  }

  /** The positions of the first n entries of a batch, in order. */
  function BatchPositions(st: Store, b: Batch, n: nat): seq<Pos>
    requires Sound(b) && n <= |b.ids|
  {
    if n == 0 then [] else BatchPositions(st, b, n - 1) + EntryPositions(st, b, n - 1)
  }

  /** The model refuses a batch: sizes that differ on the path taken, or with an image in
      the batch data that some check rejects. */
  predicate Refused(st: Store, b: Batch) {
    if !ContainsImage(b.input) && !HasDelta(st, b.ids) then b.ids == [] || |b.ids| != |b.lengths|
    else |b.ids| != |b.lengths| || |b.ids| != |b.input| || (ContainsImage(b.input) && !AllMatch(b))
  }

  lemma {:induction false} AdvancedAt(m: map<int, int>, b: Batch, n: nat, id: int)
    requires Good(b) && n <= |b.ids|
    ensures Lookup(Advanced(m, b.ids, b.lengths, n), id)
            == Lookup(m, id) + if exists i :: 0 <= i < n && b.ids[i] == id then b.lengths[IndexOf(b.ids, id)] else 0
  {
    if n > 0 {
      AdvancedAt(m, b, n - 1, id);
      if b.ids[n - 1] == id { IndexIs(b, n - 1); }
    }
  }

  function IndexOf(ids: seq<int>, id: int): (i: nat)
    ensures id in ids ==> i < |ids| && ids[i] == id
  {
    if ids == [] then 0 else if ids[0] == id then 0 else 1 + IndexOf(ids[1..], id)
  }

  lemma IndexIs(b: Batch, i: nat)
    requires Good(b) && i < |b.ids|
    ensures IndexOf(b.ids, b.ids[i]) == i
  {
    var k := IndexOf(b.ids, b.ids[i]);
    assert b.ids[k] == b.ids[i];
  }

  lemma {:induction false} NotedAt(m: map<int, int>, ids: seq<int>, n: nat, id: int)
    requires n <= |ids|
    ensures Lookup(Noted(m, ids, n), id) == Lookup(m, id)
  {
    if n > 0 { NotedAt(m, ids, n - 1, id); }
  }

  lemma {:induction false} StoredAt(m: map<int, int>, b: Batch, deltas: seq<int>, n: nat, id: int)
    requires Good(b) && n <= |b.ids| && |deltas| == |b.ids|
    ensures Lookup(StoredDeltas(m, b.ids, deltas, n), id)
            == if exists i :: 0 <= i < n && b.ids[i] == id then deltas[IndexOf(b.ids, id)] else Lookup(m, id)
  {
    if n > 0 {
      StoredAt(m, b, deltas, n - 1, id);
      if b.ids[n - 1] == id { IndexIs(b, n - 1); }
    }
  }

  // ---------------------------------------------------------------- all paths agree

  lemma {:induction false} TextIsLine(base: int, ds: seq<Data>)
    requires AllAccepted(ds) && !ImageIn(ds)
    ensures Positions(base, ds) == Line(base, TotalLength(ds)) && TotalSpan(ds) == TotalLength(ds) && Fits(ds)
    decreases ds
  {
    hide Accepted, Fits, TotalSpan;
    FitsStep(ds);
    if ds != [] {
      NoImageInRest(ds);
      TextIsLine(base + Span(ds[0]), ds[1..]);
      assert Span(ds[0]) == Length(ds[0]) && DataPositions(base, ds[0]) == Line(base, Length(ds[0]));
    }
  }

  lemma NoImageInRest(ds: seq<Data>)
    requires ds != [] && !ImageIn(ds)
    ensures !HasGrid(ds[0]) && !ImageIn(ds[1..])
  {
    forall j | 0 <= j < |ds[1..]| ensures !HasGrid(ds[1..][j]) { assert ds[1..][j] == ds[j + 1]; }
  }

  lemma GoodEntry(b: Batch, i: nat)
    requires Good(b) && i < |b.ids|
    ensures |b.ids| == |b.lengths| && |b.ids| == |b.input| && Sound(b) && AllMatch(b) && IndexOf(b.ids, b.ids[i]) == i
    ensures SameSizes(b) && MatchedUpTo(b, |b.ids|)
    ensures Matches(b.input[i], b.lengths[i]) && AllAccepted(b.input[i]) && TotalLength(b.input[i]) == b.lengths[i]
  {
    hide AllAccepted, TotalLength, ContainsImage;
    assert Matches(b.input[i], b.lengths[i]);
    IndexIs(b, i);
  }

  lemma ServedLengths(st: Store, b: Batch, i: nat)
    requires Good(b) && i < |b.ids|
    ensures Sound(b)
    ensures Lookup(Served(st, b).lengths, b.ids[i]) == Lookup(st.lengths, b.ids[i]) + b.lengths[i]
  {
    GoodEntry(b, i);
    hide Good, Sound, Lookup, Advanced, Noted, StoredDeltas, DeltasOf, ContainsImage, Matches, IndexOf, AllAccepted,
         AllMatch;
    var id, n := b.ids[i], |b.ids|;
    NotedAt(st.lengths, b.ids, n, id);
    AdvancedAt(Noted(st.lengths, b.ids, n), b, n, id);
    AdvancedAt(st.lengths, b, n, id);
  }

  lemma ServedDeltas(st: Store, b: Batch, i: nat)
    requires Good(b) && i < |b.ids|
    ensures Sound(b) && AllAccepted(b.input[i])
    ensures Lookup(Served(st, b).deltas, b.ids[i])
            == if ContainsImage(b.input) then Fed(Remembered(st, b.ids[i]), b.input[i]).delta
               else Lookup(st.deltas, b.ids[i])
  {
    hide Good, Sound, Lookup, Advanced, Noted, StoredDeltas, ContainsImage, Matches, IndexOf, AllAccepted, AllMatch,
         Fed, Remembered, DeltasOf;
    GoodEntry(b, i);
    BuiltAt(st, b, i);
    StoredHere(st.deltas, b, DeltasOf(st, b, |b.ids|), i);
  }

  lemma BuiltAt(st: Store, b: Batch, i: nat)
    requires Good(b) && i < |b.ids|
    ensures |b.ids| == |b.lengths| && |b.ids| == |b.input| && AllMatch(b) && AllAccepted(b.input[i])
    ensures DeltasOf(st, b, |b.ids|)[i] == Fed(Remembered(st, b.ids[i]), b.input[i]).delta
  {
    hide AllAccepted, TotalLength, Fed, Remembered, ContainsImage;
    assert Matches(b.input[i], b.lengths[i]);
    DeltaAt(st, b, |b.ids|, i);
  }

  lemma {:induction false} DeltaAt(st: Store, b: Batch, n: nat, i: nat)
    requires SameSizes(b) && i < n <= |b.ids| && MatchedUpTo(b, n)
    ensures Matches(b.input[i], b.lengths[i]) && DeltasOf(st, b, n)[i] == BuiltDelta(st, b, i)
  {
    hide Matches, BuiltDelta;
    if i < n - 1 { DeltaAt(st, b, n - 1, i); }
  }

  lemma StoredHere(m: map<int, int>, b: Batch, deltas: seq<int>, i: nat)
    requires Good(b) && i < |b.ids| && |deltas| == |b.ids|
    ensures Lookup(StoredDeltas(m, b.ids, deltas, |b.ids|), b.ids[i]) == deltas[i]
  {
    IndexIs(b, i);
    hide Good, Lookup, StoredDeltas, IndexOf;
    StoredAt(m, b, deltas, |b.ids|, b.ids[i]);
  }

  lemma SplitMemory(st: Store, id: int)
    ensures Remembered(st, id) == Memory(Lookup(st.deltas, id), Lookup(st.lengths, id))
  {
  }

  /** Whatever path a batch takes, each of its sequences gets the positions and the memory
      of a single call on its own data. */
  lemma ServedOne(st: Store, b: Batch, i: nat)
    requires Good(b) && i < |b.ids|
    ensures Matches(b.input[i], b.lengths[i])
    ensures EntryPositions(st, b, i) == Positions(Base(Remembered(st, b.ids[i])), b.input[i])
    ensures Remembered(Served(st, b), b.ids[i]) == Fed(Remembered(st, b.ids[i]), b.input[i])
  {
    hide *;
    GoodEntry(b, i);
    ServedLengths(st, b, i);
    ServedDeltas(st, b, i);
    SplitMemory(st, b.ids[i]);
    SplitMemory(Served(st, b), b.ids[i]);
    FedMeans(Remembered(st, b.ids[i]), b.input[i]);
    EntryOne(st, b, i);
    if !ContainsImage(b.input) { TextDelta(Remembered(st, b.ids[i]), b, i); }
  }

  lemma TextOnly(b: Batch, i: nat)
    requires i < |b.input| && !ContainsImage(b.input)
    ensures !ImageIn(b.input[i])
  {
  }

  lemma EntryOne(st: Store, b: Batch, i: nat)
    requires Good(b) && i < |b.ids|
    ensures Matches(b.input[i], b.lengths[i]) && Sound(b)
    ensures EntryPositions(st, b, i) == Positions(Base(Remembered(st, b.ids[i])), b.input[i])
  {
    hide *;
    GoodEntry(b, i);
    EntryShape(st, b, i);
    if !ContainsImage(b.input) {
      TextOnly(b, i);
      TextIsLine(Base(Remembered(st, b.ids[i])), b.input[i]);
    }
  }

  /** Without an image both other paths start from the consumed length and the delta. */
  lemma EntryShape(st: Store, b: Batch, i: nat)
    requires Sound(b) && i < |b.ids| && i < |b.input| && AllAccepted(b.input[i])
    ensures EntryPositions(st, b, i)
            == if ContainsImage(b.input) then Positions(Base(Remembered(st, b.ids[i])), b.input[i])
               else Line(Base(Remembered(st, b.ids[i])), b.lengths[i])
  {
    hide Sound, Positions, AllAccepted, Line, ContainsImage, HasDelta;
    if !HasDelta(st, b.ids) { NoDeltaIsZero(st, b.ids, i); }
  }

  lemma NoDeltaIsZero(st: Store, ids: seq<int>, i: nat)
    requires i < |ids| && !HasDelta(st, ids)
    ensures Lookup(st.deltas, ids[i]) == 0
  {
  }

  /** Text does not change a delta. */
  lemma TextDelta(m: Memory, b: Batch, i: nat)
    requires Good(b) && i < |b.ids| && i < |b.input| && !ContainsImage(b.input)
    ensures AllAccepted(b.input[i]) && Fed(m, b.input[i]).delta == m.delta
  {
    hide Good, Sound, Positions, TotalSpan, TotalLength, AllAccepted, Line, Matches, ContainsImage, IndexOf, Fits,
         Fed, AllMatch;
    GoodEntry(b, i);
    TextOnly(b, i);
    TextIsLine(Base(m), b.input[i]);
    BaseAfter(m, b.input[i]);
    FedMeans(m, b.input[i]);
  }

  lemma ServedOther(st: Store, b: Batch, id: int)
    requires Good(b) && id !in b.ids
    ensures Remembered(Served(st, b), id) == Remembered(st, id)
  {
    var n := |b.ids|;
    NotedAt(st.lengths, b.ids, n, id);
    AdvancedAt(Noted(st.lengths, b.ids, n), b, n, id);
    AdvancedAt(st.lengths, b, n, id);
    StoredAt(st.deltas, b, DeltasOf(st, b, |b.ids|), n, id);
  }

  // ---------------------------------------------------------------- runs

  ghost predicate AllGood(run: seq<Batch>) {
    forall k {:trigger run[k]} :: 0 <= k < |run| ==> Good(run[k])
  }

  ghost function After(st: Store, run: seq<Batch>): Store
    requires AllGood(run)
    decreases |run|
  {
    if run == [] then st else After(Served(st, run[0]), run[1..])
  }

  /** What one batch feeds to a sequence: nothing or one chunk. */
  ghost function ChunkOf(b: Batch, id: int): seq<seq<Data>>
    requires Good(b)
  {
    if id in b.ids then [b.input[IndexOf(b.ids, id)]] else []
  }

  ghost function PositionsOf(st: Store, b: Batch, id: int): seq<Pos>
    requires Good(b)
  {
    if id in b.ids then EntryPositions(st, b, IndexOf(b.ids, id)) else []
  }

  /** The chunks of one sequence in a run. */
  ghost function ChunksFor(run: seq<Batch>, id: int): (r: seq<seq<Data>>)
    requires AllGood(run)
    ensures ChunksAccepted(r)
  {
    if run == [] then []
    else
      ChunkAccepted(run[0], id);
      ChunkOf(run[0], id) + ChunksFor(run[1..], id)
  }

  lemma ChunksForAccepted(run: seq<Batch>, id: int)
    requires AllGood(run)
    ensures ChunksAccepted(ChunksFor(run, id))
  {
  }

  lemma FirstMemory(id: int)
    ensures Remembered(EMPTY, id) == FRESH && Base(FRESH) == 0
  {
  }

  lemma ChunkAccepted(b: Batch, id: int)
    requires Good(b)
    ensures ChunksAccepted(ChunkOf(b, id))
  {
    if id in b.ids { assert Matches(b.input[IndexOf(b.ids, id)], b.lengths[IndexOf(b.ids, id)]); }
  }

  /** All positions one sequence gets in a run. */
  ghost function Stream(st: Store, run: seq<Batch>, id: int): seq<Pos>
    requires AllGood(run)
    decreases |run|
  {
    if run == [] then [] else PositionsOf(st, run[0], id) + Stream(Served(st, run[0]), run[1..], id)
  }

  lemma ServedChunk(st: Store, b: Batch, id: int)
    requires Good(b)
    ensures ChunksAccepted(ChunkOf(b, id))
    ensures PositionsOf(st, b, id) == ChunkPositions(Remembered(st, id), ChunkOf(b, id))
    ensures Remembered(Served(st, b), id) == FedAll(Remembered(st, id), ChunkOf(b, id))
  {
    hide Positions, Fed, Served, EntryPositions, Remembered;
    ChunkAccepted(b, id);
    if id in b.ids {
      var i := IndexOf(b.ids, id);
      ServedOne(st, b, i);
      assert ChunkOf(b, id)[0] == b.input[i];
      OneChunk(Remembered(st, id), b.input[i]);
    } else {
      ServedOther(st, b, id);
    }
  }

  lemma OneChunk(m: Memory, ds: seq<Data>)
    requires AllAccepted(ds)
    ensures ChunksAccepted([ds]) && ChunkPositions(m, [ds]) == Positions(Base(m), ds) && FedAll(m, [ds]) == Fed(m, ds)
  {
    hide Positions, Fed;
    assert [ds][1..] == [];
    assert ChunkPositions(Fed(m, ds), []) == [] && FedAll(Fed(m, ds), []) == Fed(m, ds);
  }

  /** Facts about the first batch of a run. */
  lemma RunStep(st: Store, run: seq<Batch>, id: int)
    requires AllGood(run)
    ensures run == [] ==> After(st, run) == st && Stream(st, run, id) == [] && ChunksFor(run, id) == []
    ensures run != [] ==>
              && Good(run[0]) && Sound(run[0]) && AllGood(run[1..])
              && After(st, run) == After(Served(st, run[0]), run[1..])
              && Stream(st, run, id) == PositionsOf(st, run[0], id) + Stream(Served(st, run[0]), run[1..], id)
              && ChunksFor(run, id) == ChunkOf(run[0], id) + ChunksFor(run[1..], id)
  {
    hide Served, PositionsOf, ChunkOf, AllMatch, ContainsImage;
  }

  lemma {:induction false} RunFeedsChunks(st: Store, run: seq<Batch>, id: int)
    requires AllGood(run)
    ensures Stream(st, run, id) == ChunkPositions(Remembered(st, id), ChunksFor(run, id))
    ensures Remembered(After(st, run), id) == FedAll(Remembered(st, id), ChunksFor(run, id))
    decreases |run|
  {
    hide AllGood, Good, Sound, ChunksAccepted, Served, Remembered, PositionsOf, ChunkOf, ChunksFor, Stream, After,
         ChunkPositions, FedAll;
    RunStep(st, run, id);
    if run == [] {
      NoChunks(Remembered(st, id));
    } else {
      var b, rest := run[0], run[1..];
      ChunkAccepted(b, id);
      ChunksForAccepted(rest, id);
      FedAllConcat(Remembered(st, id), ChunkOf(b, id), ChunksFor(rest, id));
      ServedChunk(st, b, id);
      RunFeedsChunks(Served(st, b), rest, id);
    }
  }

  /** Over every run from an empty store, a sequence gets the positions of one call on all its
      data exactly if its chunks with data behind them fit, and then the same delta,
      whatever it was batched with and whatever paths it took. */
  lemma RunIsOneShotIff(run: seq<Batch>, id: int)
    requires AllGood(run)
    ensures Stream(EMPTY, run, id) == Positions(0, Joined(ChunksFor(run, id))) <==> CutsFit(ChunksFor(run, id))
    ensures CutsFit(ChunksFor(run, id)) ==> Remembered(After(EMPTY, run), id) == Fed(FRESH, Joined(ChunksFor(run, id)))
  {
    hide *;
    FirstMemory(id);
    ChunksForAccepted(run, id);
    RunFeedsChunks(EMPTY, run, id);
    ChunkedIsOneShotIff(FRESH, ChunksFor(run, id));
  }

  /** Two runs that feed two sequences the same prompt, cut and batched differently: when the
      cuts of one fit, the other gives the same positions exactly if its cuts fit, and then
      the same delta and length. */
  lemma RunsAgreeIff(run: seq<Batch>, id: int, other: seq<Batch>, id': int)
    requires AllGood(run) && AllGood(other) && CutsFit(ChunksFor(run, id))
    requires Units(Joined(ChunksFor(run, id))) == Units(Joined(ChunksFor(other, id')))
    ensures Stream(EMPTY, run, id) == Stream(EMPTY, other, id') <==> CutsFit(ChunksFor(other, id'))
    ensures CutsFit(ChunksFor(other, id')) ==> Remembered(After(EMPTY, run), id) == Remembered(After(EMPTY, other), id')
  {
    hide *;
    FirstMemory(id);
    FirstMemory(id');
    ChunksForAccepted(run, id);
    ChunksForAccepted(other, id');
    RunFeedsChunks(EMPTY, run, id);
    RunFeedsChunks(EMPTY, other, id');
    CutsAgreeIff(FRESH, ChunksFor(run, id), ChunksFor(other, id'));
  }

  /** No run ever makes a delta positive, with any images. */
  lemma {:induction false} RunDeltas(st: Store, run: seq<Batch>, id: int)
    requires AllGood(run) && Remembered(st, id).delta <= 0
    ensures Remembered(After(st, run), id).delta <= 0
    decreases |run|
  {
    hide AllGood, Good, Sound, Served, Remembered, After, Stream, ChunksFor;
    RunStep(st, run, id);
    if run != [] {
      BatchDelta(st, run[0], id);
      RunDeltas(Served(st, run[0]), run[1..], id);
    }
  }

  lemma BatchDelta(st: Store, b: Batch, id: int)
    requires Good(b) && Remembered(st, id).delta <= 0
    ensures Remembered(Served(st, b), id).delta <= 0
  {
    hide Fed, Served, Remembered;
    if id in b.ids {
      ServedOne(st, b, IndexOf(b.ids, id));
      DeltaNeverPositive(Remembered(st, id), b.input[IndexOf(b.ids, id)]);
    } else {
      ServedOther(st, b, id);
    }
  }
}
