/** The rows of counted tokens that the logit processor prepares for the penalty kernel. */
module PenaltyRows {
  import opened Options
  import opened DraftTokens
  import opened TokenLayout

  datatype Penalties = Penalties(presence: real, frequency: real, repetition: real)

  predicate Active(p: Penalties) {
    p.frequency != 0.0 || p.presence != 0.0 || p.repetition != 1.0
  }

  /** A row: the position of its token in the logits, the counts it is penalised by, and how. */
  datatype Row = Row(position: int, counts: Counts, penalties: Penalties)

  /** The input of one update as values: per request the penalties, the counts and whether it
      has a draft of its own, and the layout of the batch. */
  datatype Input = Input(cfgs: seq<Penalties>, counts: seq<Counts>, drafting: seq<bool>, layout: Layout)

  ghost predicate Sized(inp: Input) {
    var n := |inp.cfgs|;
    && inp.layout.requests == n && |inp.counts| == n && |inp.drafting| == n
    && Shaped(inp.layout)
    && (forall i {:trigger inp.counts[i]} :: 0 <= i < n ==> Positive(inp.counts[i]))
  }

  /** The checks on a request that has penalties. */
  predicate Checked(inp: Input, i: nat)
    requires Sized(inp) && i < |inp.cfgs|
  {
    (TokensOf(inp.layout, i) == 1 || !inp.drafting[i]) && IndexPerToken(inp.layout, i)
  }

  ghost function RowOf(inp: Input, i: nat, j: nat): Row
    requires Sized(inp) && i < |inp.cfgs| && Checked(inp, i) && j < TokensOf(inp.layout, i)
  {
    Row(Offset(inp.layout, i) + j, PlusAll(inp.counts[i], PathTo(inp.layout, i, j)), inp.cfgs[i])
  }

  /** The first j rows of request i. */
  ghost function RowsOf(inp: Input, i: nat, j: nat): seq<Row>
    requires Sized(inp) && i < |inp.cfgs| && Checked(inp, i) && j <= TokensOf(inp.layout, i)
  {
    if j == 0 then [] else RowsOf(inp, i, j - 1) + [RowOf(inp, i, j - 1)]
  }

  ghost predicate CheckedUpTo(inp: Input, n: nat)
    requires Sized(inp) && n <= |inp.cfgs|
  {
    forall i {:trigger inp.cfgs[i]} :: 0 <= i < n && Active(inp.cfgs[i]) ==> Checked(inp, i)
  }

  /** The rows of the first n requests. */
  ghost function Rows(inp: Input, n: nat): seq<Row>
    requires Sized(inp) && n <= |inp.cfgs| && CheckedUpTo(inp, n)
  {
    if n == 0 then []
    else
      Rows(inp, n - 1)
      + if Active(inp.cfgs[n - 1]) then RowsOf(inp, n - 1, TokensOf(inp.layout, n - 1)) else []
  }

  /** What a row means for a request whose counts are those of its committed tokens: the
      counts of the committed tokens together with the draft tokens it follows. */
  lemma RowCounts(inp: Input, i: nat, j: nat, committed: seq<int>)
    requires Sized(inp) && i < |inp.cfgs| && Checked(inp, i) && j < TokensOf(inp.layout, i)
    requires inp.counts[i] == CountsOf(committed)
    ensures RowOf(inp, i, j).counts == CountsOf(committed + PathTo(inp.layout, i, j))
  {
    CountsWithPath(committed, PathTo(inp.layout, i, j));
  }

  // ---------------------------------------------------------------- how rows lie in the arrays

  /** The entries of one row, in any order: one per counted token. */
  ghost predicate RowIs(pos: seq<int>, tok: seq<int>, cnt: seq<int>, r: int, m: Counts) {
    && |pos| == |m| && |tok| == |m| && |cnt| == |m|
    && (forall k {:trigger pos[k]} {:trigger tok[k]} {:trigger cnt[k]} :: 0 <= k < |m| ==>
          pos[k] == r && tok[k] in m && cnt[k] == m[tok[k]])
    && (forall k, l {:trigger tok[k], tok[l]} :: 0 <= k < l < |m| ==> tok[k] != tok[l])
    && (forall t {:trigger t in tok} {:trigger t in m} :: t in m ==> t in tok)
  }

  /** The rows lie one after the other. */
  ghost predicate Encodes(pos: seq<int>, tok: seq<int>, cnt: seq<int>, rows: seq<Row>)
    decreases |rows|
  {
    if rows == [] then pos == [] && tok == [] && cnt == []
    else
      var r := |rows| - 1;
      var m := rows[r].counts;
      && |pos| == |tok| == |cnt| >= |m|
      && var n := |pos| - |m|;
      && RowIs(pos[n..], tok[n..], cnt[n..], r, m)
      && Encodes(pos[..n], tok[..n], cnt[..n], rows[..r])
  }

  ghost predicate InVocabulary(m: Counts, vocab: nat) {
    forall t {:trigger t in m} :: t in m ==> 0 <= t < vocab
  }

  ghost predicate RowsInVocabulary(rows: seq<Row>, vocab: nat) {
    forall r {:trigger rows[r]} :: 0 <= r < |rows| ==> InVocabulary(rows[r].counts, vocab)
  }

  lemma Inhabited(s: set<int>)
    ensures s == {} || exists x :: x in s
  {
    if forall x :: x !in s { assert s <= {}; }
  }

  lemma {:induction false} SmallKeys(s: set<int>, n: nat)
    requires forall x :: x in s ==> 0 <= x < n
    ensures |s| <= n
    decreases n
  {
    if s != {} {
      Inhabited(s);
      var x :| x in s;
      if n - 1 in s {
        SmallKeys(s - {n - 1}, n - 1);
      } else {
        SmallKeys(s, n - 1);
      }
    }
  }

  lemma RowFits(m: Counts, vocab: nat)
    requires InVocabulary(m, vocab)
    ensures |m| <= vocab
  {
    SmallKeys(m.Keys, vocab);
    assert |m.Keys| == |m|;
  }

  /** Rows never take more entries than their number times the vocabulary. */
  lemma {:induction false} RowsFit(pos: seq<int>, tok: seq<int>, cnt: seq<int>, rows: seq<Row>, vocab: nat)
    requires Encodes(pos, tok, cnt, rows) && RowsInVocabulary(rows, vocab)
    ensures |pos| == |tok| == |cnt| <= |rows| * vocab
    decreases |rows|
  {
    if rows != [] {
      var r := |rows| - 1;
      var n := |pos| - |rows[r].counts|;
      RowFits(rows[r].counts, vocab);
      RowsFit(pos[..n], tok[..n], cnt[..n], rows[..r], vocab);
      assert |rows| * vocab == r * vocab + vocab;
    }
  }

  lemma EncodesOneMore(pos: seq<int>, tok: seq<int>, cnt: seq<int>, n: nat, rows: seq<Row>, row: Row)
    requires |pos| == |tok| == |cnt| == n + |row.counts|
    requires Encodes(pos[..n], tok[..n], cnt[..n], rows)
    requires RowIs(pos[n..], tok[n..], cnt[n..], |rows|, row.counts)
    ensures Encodes(pos, tok, cnt, rows + [row])
  {
    assert (rows + [row])[..|rows|] == rows && (rows + [row])[|rows|] == row;
  }

  lemma {:induction false} PathInVocabulary(d: Draft, k: int, vocab: nat)
    requires Tree(d) && -1 <= k < |d.tokens| && forall t :: t in d.tokens ==> 0 <= t < vocab
    ensures forall t :: t in Path(d, k) ==> 0 <= t < vocab
    decreases k + 1
  {
    if k >= 0 {
      assert d.tokens[k] in d.tokens;
      PathInVocabulary(d, d.parents[k], vocab);
    }
  }

  lemma {:induction false} PlusAllInVocabulary(m: Counts, tokens: seq<int>, vocab: nat)
    requires InVocabulary(m, vocab) && forall t :: t in tokens ==> 0 <= t < vocab
    ensures InVocabulary(PlusAll(m, tokens), vocab)
    decreases |tokens|
  {
    if tokens != [] {
      assert tokens[0] in tokens;
      forall t | t in tokens[1..] ensures 0 <= t < vocab { assert t in tokens; }
      PlusAllInVocabulary(Plus(m, tokens[0]), tokens[1..], vocab);
    }
  }

  /** All token ids, counted or drafted, are in the vocabulary. */
  ghost predicate TokensKnown(inp: Input, vocab: nat) {
    && (forall i {:trigger inp.counts[i]} :: 0 <= i < |inp.counts| ==> InVocabulary(inp.counts[i], vocab))
    && (inp.layout.drafts.Some? ==>
          forall i {:trigger inp.layout.drafts.value[i]} :: 0 <= i < |inp.layout.drafts.value| ==>
            forall t {:trigger t in inp.layout.drafts.value[i].tokens} ::
              t in inp.layout.drafts.value[i].tokens ==> 0 <= t < vocab)
  }

  lemma RowInVocabulary(inp: Input, i: nat, j: nat, vocab: nat)
    requires Sized(inp) && i < |inp.cfgs| && Checked(inp, i) && j < TokensOf(inp.layout, i) && TokensKnown(inp, vocab)
    ensures InVocabulary(RowOf(inp, i, j).counts, vocab)
  {
    if inp.layout.drafts.Some? {
      assert FollowsDraft(inp.layout, i);
      PathInVocabulary(inp.layout.drafts.value[i], inp.layout.follows[i][j], vocab);
    }
    PlusAllInVocabulary(inp.counts[i], PathTo(inp.layout, i, j), vocab);
  }
}
