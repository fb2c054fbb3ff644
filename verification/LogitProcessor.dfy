/** The logit processor's penalty arrays, filled row by row. Each row borrows its request's
    counts for the draft tokens in front of it and gives them back. */
module LogitProcessor {
  import opened Options
  import opened Arithmetic
  import opened DraftTokens
  import opened TokenLayout
  import opened PenaltyRows
  import opened PenaltyMeaning

  function CountsIn(states: seq<Request>): (r: seq<Counts>)
    reads states
    ensures |r| == |states|
  {
    seq(|states|, i requires 0 <= i < |states| reads states => states[i].appeared)
  }

  function InputOf(cfgs: seq<Penalties>, states: seq<Request>, cum: Option<seq<nat>>, draft: Drafting): Input
    reads states, if draft.Behind? then draft.states else []
  {
    Input(cfgs, CountsIn(states), seq(|states|, i requires 0 <= i < |states| reads states => states[i].tokens != []),
          LayoutOf(|cfgs|, cum, draft))
  }

  class Processor {
    const maxTokens: nat
    const vocab: nat
    var seqIds: array<int>
    var pos: array<int>
    var tok: array<int>
    var cnt: array<int>
    var penalties: array2<real>

    ghost predicate Valid()
      reads this
    {
      && seqIds.Length == maxTokens
      && pos.Length == maxTokens * vocab && tok.Length == maxTokens * vocab && cnt.Length == maxTokens * vocab
      && penalties.Length0 == maxTokens && penalties.Length1 == 3
      && pos != tok && pos != cnt && tok != cnt && seqIds != pos && seqIds != tok && seqIds != cnt
    }

    constructor (maxTokens: nat, vocab: nat)
      ensures Valid() && fresh(seqIds) && fresh(pos) && fresh(tok) && fresh(cnt) && fresh(penalties)
      ensures this.maxTokens == maxTokens && this.vocab == vocab
    {
      this.maxTokens, this.vocab := maxTokens, vocab;
      seqIds := new int[maxTokens](i => 0);
      pos := new int[maxTokens * vocab](i => 0);
      tok := new int[maxTokens * vocab](i => 0);
      cnt := new int[maxTokens * vocab](i => 0);
      penalties := new real[maxTokens, 3]((i, j) => 0.0);
    }

    /** The first n entries hold the rows. */
    ghost predicate Entries(rows: seq<Row>, n: nat)
      reads this, pos, tok, cnt
    {
      && Valid() && n <= maxTokens * vocab
      && Encodes(pos[..n], tok[..n], cnt[..n], rows)
      && RowsInVocabulary(rows, vocab)
    }

    /** Every row has its position and its three penalties. */
    ghost predicate Heads(rows: seq<Row>)
      reads this, seqIds, penalties
    {
      && Valid() && |rows| <= maxTokens
      && forall r {:trigger rows[r]} :: 0 <= r < |rows| ==>
           seqIds[r] == rows[r].position
           && Penalties(penalties[r, 0], penalties[r, 1], penalties[r, 2]) == rows[r].penalties
    }

    /** The arrays hold the rows: n entries, a position and three penalties per row. */
    ghost predicate Filled(rows: seq<Row>, n: nat)
      reads this, seqIds, pos, tok, cnt, penalties
    {
      Entries(rows, n) && Heads(rows)
    }

    /** The entries of one row: the counted tokens in whatever order the map yields them. */
    method PutEntries(m: Counts, row: nat, n: nat) returns (n': nat)
      requires Valid() && n + |m| <= maxTokens * vocab
      modifies pos, tok, cnt
      ensures n' == n + |m|
      ensures pos[..n] == old(pos[..n]) && tok[..n] == old(tok[..n]) && cnt[..n] == old(cnt[..n])
      ensures RowIs(pos[n..n'], tok[n..n'], cnt[n..n'], row, m)
    {
      n' := n;
      var left := m.Keys;
      assert |m.Keys| == |m|;
      while left != {}
        invariant left <= m.Keys && n' == n + |m| - |left|
        invariant pos[..n] == old(pos[..n]) && tok[..n] == old(tok[..n]) && cnt[..n] == old(cnt[..n])
        invariant forall k :: n <= k < n' ==> pos[k] == row && tok[k] in m && tok[k] !in left && cnt[k] == m[tok[k]]
        invariant forall k, l :: n <= k < l < n' ==> tok[k] != tok[l]
        invariant forall t :: t in m && t !in left ==> t in tok[n..n']
        decreases |left|
      {
        Inhabited(left);
        var t :| t in left;
        pos[n'] := row;
        tok[n'] := t;
        cnt[n'] := m[t];
        ghost var before := tok[n..n'];
        n' := n' + 1;
        left := left - {t};
        assert tok[n..n'] == before + [t];
      }
    }

    method AddPath(r: Request, path: seq<int>)
      modifies r`appeared
      ensures r.appeared == PlusAll(old(r.appeared), path)
    {
      assert path[0..] == path;
      for i := 0 to |path|
        invariant PlusAll(r.appeared, path[i..]) == PlusAll(old(r.appeared), path)
      {
        assert path[i..][0] == path[i] && path[i..][1..] == path[i + 1..];
        var t := path[i];
        r.appeared := r.appeared[t := (if t in r.appeared then r.appeared[t] else 0) + 1];
      }
      assert path[|path|..] == [];
    }

    method DropPath(r: Request, path: seq<int>)
      modifies r`appeared
      ensures r.appeared == MinusAll(old(r.appeared), path)
    {
      assert path[0..] == path;
      for i := 0 to |path|
        invariant MinusAll(r.appeared, path[i..]) == MinusAll(old(r.appeared), path)
      {
        assert path[i..][0] == path[i] && path[i..][1..] == path[i + 1..];
        var t := path[i];
        ghost var before := r.appeared;
        r.appeared := r.appeared[t := (if t in r.appeared then r.appeared[t] else 0) - 1];
        if r.appeared[t] == 0 {
          r.appeared := r.appeared - {t};
        }
        assert r.appeared == Minus(before, t);
      }
      assert path[|path|..] == [];
    }

    /** One row: the path is added to the request's own counts, the counts are written, and
        the path is taken off again. */
    method PutRow(r: Request, path: seq<int>, row: nat, n: nat) returns (n': nat)
      requires Valid() && Positive(r.appeared) && InVocabulary(PlusAll(r.appeared, path), vocab)
      requires n + vocab <= maxTokens * vocab
      modifies r`appeared, pos, tok, cnt
      ensures r.appeared == old(r.appeared)
      ensures n' == n + |PlusAll(r.appeared, path)| <= n + vocab
      ensures pos[..n] == old(pos[..n]) && tok[..n] == old(tok[..n]) && cnt[..n] == old(cnt[..n])
      ensures RowIs(pos[n..n'], tok[n..n'], cnt[n..n'], row, PlusAll(r.appeared, path))
    {
      hide RowIs, PlusAll, MinusAll, InVocabulary, Positive;
      CountsRestored(r.appeared, path);
      RowFits(PlusAll(r.appeared, path), vocab);
      AddPath(r, path);
      n' := PutEntries(r.appeared, row, n);
      DropPath(r, path);
    }

    method PutHead(position: nat, cfg: Penalties, ghost m: Counts, ghost rows: seq<Row>, row: nat)
      requires Heads(rows) && row == |rows| < maxTokens
      modifies seqIds, penalties
      ensures Heads(rows + [Row(position, m, cfg)])
    {
      seqIds[row] := position;
      penalties[row, 0] := cfg.presence;
      penalties[row, 1] := cfg.frequency;
      penalties[row, 2] := cfg.repetition;
    }

    method PutBody(r: Request, path: seq<int>, position: nat, cfg: Penalties, ghost rows: seq<Row>, row: nat, n: nat)
      returns (n': nat)
      requires Entries(rows, n) && row == |rows| < maxTokens
      requires Positive(r.appeared) && InVocabulary(PlusAll(r.appeared, path), vocab)
      modifies r`appeared, pos, tok, cnt
      ensures r.appeared == old(r.appeared)
      ensures Entries(rows + [Row(position, PlusAll(r.appeared, path), cfg)], n')
    {
      hide PlusAll, RowIs, Positive, InVocabulary, Encodes;
      ghost var m := PlusAll(r.appeared, path);
      ghost var last := Row(position, m, cfg);
      RoomForRow(pos[..n], tok[..n], cnt[..n], rows, vocab, maxTokens);
      n' := PutRow(r, path, row, n);
      PrefixesOf(pos, n, n');
      PrefixesOf(tok, n, n');
      PrefixesOf(cnt, n, n');
      EncodesOneMore(pos[..n'], tok[..n'], cnt[..n'], n, rows, last);
    }

    /** Row of one token: position, entries and penalties. */
    method PutToken(r: Request, path: seq<int>, cfg: Penalties, position: nat, ghost rows: seq<Row>, row: nat, n: nat)
      returns (n': nat)
      requires Filled(rows, n) && row == |rows| < maxTokens
      requires Positive(r.appeared) && InVocabulary(PlusAll(r.appeared, path), vocab)
      modifies r`appeared, seqIds, pos, tok, cnt, penalties
      ensures r.appeared == old(r.appeared)
      ensures Filled(rows + [Row(position, PlusAll(r.appeared, path), cfg)], n')
    {
      hide PlusAll, Positive, InVocabulary, Encodes, RowsInVocabulary;
      ghost var m := PlusAll(r.appeared, path);
      n' := PutBody(r, path, position, cfg, rows, row, n);
      PutHead(position, cfg, m, rows, row);
    }

    /** The states hold what the input says. */
    ghost predicate Reads(inp: Input, states: seq<Request>, draft: Drafting)
      reads states, if draft.Behind? then draft.states else []
    {
      && inp.counts == CountsIn(states) && |states| == |inp.cfgs|
      && inp.layout == LayoutOf(inp.layout.requests, inp.layout.cum, draft)
    }

    /** The rows of one request that has penalties. */
    method PutRequest(ghost inp: Input, i: nat, cfg: Penalties, states: seq<Request>, offset: nat, tokens: nat,
                      draft: Drafting,
                      ghost before: seq<Row>, row: nat, n: nat)
      returns (row': nat, n': nat)
      requires Sized(inp) && TokensKnown(inp, vocab) && i < |inp.cfgs| && Checked(inp, i)
      requires cfg == inp.cfgs[i] && Reads(inp, states, draft)
      requires offset == Offset(inp.layout, i) && tokens == TokensOf(inp.layout, i)
      requires Filled(before, n) && row == |before| && row + tokens <= maxTokens
      modifies states`appeared, seqIds, pos, tok, cnt, penalties
      ensures Reads(inp, states, draft)
      ensures row' == row + tokens
      ensures Filled(before + RowsOf(inp, i, tokens), n') && |RowsOf(inp, i, tokens)| == tokens
    {
      hide Filled, TokensKnown, PlusAll, Positive, InVocabulary, Path;
      row', n' := row, n;
      assert before + RowsOf(inp, i, 0) == before;
      for j := 0 to tokens
        invariant Reads(inp, states, draft)
        invariant row' == row + j && |RowsOf(inp, i, j)| == j
        invariant Filled(before + RowsOf(inp, i, j), n')
      {
        ghost var rows := before + RowsOf(inp, i, j);
        var path := PathFor(inp.layout, i, j, draft);
        RowInVocabulary(inp, i, j, vocab);
        assert states[i].appeared == inp.counts[i];
        ghost var counts := CountsIn(states);
        n' := PutToken(states[i], path, cfg, offset + j, rows, row', n');
        assert forall k {:trigger states[k]} :: 0 <= k < |states| ==> states[k].appeared == counts[k];
        assert CountsIn(states) == counts;
        assert before + RowsOf(inp, i, j + 1) == rows + [RowOf(inp, i, j)];
        row' := row' + 1;
      }
    }

    /** The first i requests are done: their checks passed and their rows are in place. */
    ghost predicate Done(inp: Input, i: nat, rows: nat, n: nat)
      requires Sized(inp) && i <= |inp.cfgs|
      reads this, seqIds, pos, tok, cnt, penalties
    {
      CheckedUpTo(inp, i) && rows == |Rows(inp, i)| <= Offset(inp.layout, i) && Filled(Rows(inp, i), n)
    }

    /** One request: checks and rows if it has penalties. */
    method PutIfActive(ghost inp: Input, i: nat, cfg: Penalties, states: seq<Request>, cum: Option<seq<nat>>,
                       draft: Drafting,
                       rows: nat, n: nat)
      returns (ok: bool, rows': nat, n': nat)
      requires Sized(inp) && TokensKnown(inp, vocab) && i < |inp.cfgs|
      requires cfg == inp.cfgs[i] && cum == inp.layout.cum && Reads(inp, states, draft)
      requires inp.drafting[i] <==> states[i].tokens != []
      requires Done(inp, i, rows, n) && Offset(inp.layout, i + 1) <= maxTokens
      modifies states`appeared, seqIds, pos, tok, cnt, penalties
      ensures Reads(inp, states, draft)
      ensures ok <==> CheckedUpTo(inp, i + 1)
      ensures ok ==> Done(inp, i + 1, rows', n')
    {
      hide Filled, TokensKnown, RowsOf, Rows, CheckedUpTo;
      var tokens := if cum.None? then 1 else cum.value[i + 1] - cum.value[i];
      var offset := if cum.None? then i else cum.value[i];
      assert Offset(inp.layout, i) <= Offset(inp.layout, i + 1);
      RowsStep(inp, i);
      rows', n' := rows, n;
      ok := true;
      if Active(cfg) {
        if (tokens != 1 && states[i].tokens != []) || (draft.Behind? && |draft.follows[i]| != tokens) {
          ok := false;
        } else {
          rows', n' := PutRequest(inp, i, cfg, states, offset, tokens, draft, Rows(inp, i), rows, n);
        }
      }
    }

    /** Row r of the arrays is for token j of request i: its position, the three penalties of
        the request, and an entry for each token that counts, which is how often it occurs in
        the counts of the request and on the draft path together. */
    ghost predicate ShowsRow(inp: Input, i: nat, j: nat, r: nat, n: nat)
      requires Sized(inp)
      reads this, seqIds, pos, tok, cnt, penalties
    {
      && Valid() && r < maxTokens && n <= maxTokens * vocab
      && Penalised(inp, i, j) && IndexPerToken(inp.layout, i)
      && seqIds[r] == Offset(inp.layout, i) + j
      && penalties[r, 0] == inp.cfgs[i].presence && penalties[r, 1] == inp.cfgs[i].frequency
      && penalties[r, 2] == inp.cfgs[i].repetition
      && var path := multiset(PathTo(inp.layout, i, j));
      && (forall k {:trigger pos[k]} :: 0 <= k < n && pos[k] == r ==>
            cnt[k] > 0 && cnt[k] == Count(inp.counts[i], tok[k]) + path[tok[k]])
      && (forall t {:trigger path[t]} :: Count(inp.counts[i], t) + path[t] > 0 ==>
            exists k {:trigger pos[k]} :: 0 <= k < n && pos[k] == r && tok[k] == t)
    }

    /** Row r of the arrays is for some token. */
    ghost predicate ShowsSome(inp: Input, r: nat, n: nat)
      requires Sized(inp)
      reads this, seqIds, pos, tok, cnt, penalties
    {
      exists i: nat, j: nat :: ShowsRow(inp, i, j, r, n)
    }

    /** The arrays hold `rows` rows and n entries: one row for every token of every request
        with some penalty, in ascending order of position, and nothing else. */
    ghost predicate Shows(inp: Input, rows: nat, n: nat)
      requires Sized(inp)
      reads this, seqIds, pos, tok, cnt, penalties
    {
      && Valid() && rows <= maxTokens && n <= maxTokens * vocab
      && (forall r, q {:trigger seqIds[r], seqIds[q]} :: 0 <= r < q < rows ==> seqIds[r] < seqIds[q])
      && (forall r: nat {:trigger ShowsSome(inp, r, n)} :: r < rows ==> ShowsSome(inp, r, n))
      && (forall i: nat, j: nat {:trigger Penalised(inp, i, j)} :: Penalised(inp, i, j) ==>
            exists r {:trigger seqIds[r]} :: 0 <= r < rows && seqIds[r] == Offset(inp.layout, i) + j)
      && (forall k {:trigger pos[k]} :: 0 <= k < n ==> 0 <= pos[k] < rows)
      && (forall k, l {:trigger pos[k], pos[l]} :: 0 <= k < l < n && pos[k] == pos[l] ==> tok[k] != tok[l])
    }

    lemma RowShown(inp: Input, expected: seq<Row>, n: nat, r: nat, i: nat, j: nat)
      requires Sized(inp) && Filled(expected, n) && r < |expected| && RowFor(inp, i, j, expected[r])
      requires EntriesRight(pos[..n], tok[..n], cnt[..n], expected)
      ensures ShowsRow(inp, i, j, r, n)
    {
      hide Shaped, Encodes, PathTo, RowsInVocabulary, EntriesRight, FollowsDraft;
      var path := multiset(PathTo(inp.layout, i, j));
      var p, t, c := pos[..n], tok[..n], cnt[..n];
      EntriesCount(p, t, c, expected, r, inp.counts[i], path);
      assert forall k {:trigger pos[k]} :: 0 <= k < n ==> pos[k] == p[k] && tok[k] == t[k] && cnt[k] == c[k];
      hide RowFor, Count, Positive;
      forall x {:trigger path[x]} | Count(inp.counts[i], x) + path[x] > 0
        ensures exists k {:trigger pos[k]} :: 0 <= k < n && pos[k] == r && tok[k] == x
      {
        var k :| 0 <= k < n && p[k] == r && t[k] == x;
        assert pos[k] == r;
      }
    }

    lemma FilledShows(inp: Input, expected: seq<Row>, n: nat)
      requires Sized(inp) && Filled(expected, n) && RowsRight(inp, expected, |inp.cfgs|)
      ensures Shows(inp, |expected|, n)
    {
      EntriesAreRight(pos[..n], tok[..n], cnt[..n], expected);
      EntriesShown(expected, n);
      HeadsShown(inp, expected, n);
      hide Sized, ShowsSome, Penalised, Filled, RowsRight, EntriesRight, Offset;
    }

    lemma EntriesShown(expected: seq<Row>, n: nat)
      requires Filled(expected, n) && EntriesRight(pos[..n], tok[..n], cnt[..n], expected)
      ensures Valid() && |expected| <= maxTokens && n <= maxTokens * vocab
      ensures forall k {:trigger pos[k]} :: 0 <= k < n ==> 0 <= pos[k] < |expected|
      ensures forall k, l {:trigger pos[k], pos[l]} :: 0 <= k < l < n && pos[k] == pos[l] ==> tok[k] != tok[l]
    {
      var p, t := pos[..n], tok[..n];
      assert forall k {:trigger pos[k]} :: 0 <= k < n ==> pos[k] == p[k] && tok[k] == t[k];
      hide Encodes, RowsInVocabulary;
    }

    lemma HeadsShown(inp: Input, expected: seq<Row>, n: nat)
      requires Sized(inp) && Filled(expected, n) && RowsRight(inp, expected, |inp.cfgs|)
      requires EntriesRight(pos[..n], tok[..n], cnt[..n], expected)
      ensures forall r, q {:trigger seqIds[r], seqIds[q]} :: 0 <= r < q < |expected| ==> seqIds[r] < seqIds[q]
      ensures forall r: nat {:trigger ShowsSome(inp, r, n)} :: r < |expected| ==> ShowsSome(inp, r, n)
      ensures forall i: nat, j: nat {:trigger Penalised(inp, i, j)} :: Penalised(inp, i, j) ==>
                exists r {:trigger seqIds[r]} :: 0 <= r < |expected| && seqIds[r] == Offset(inp.layout, i) + j
    {
      hide FollowsDraft, Encodes, ShowsRow, RowFor, TokensOf, EntriesRight, RowsInVocabulary;
      assert forall r {:trigger seqIds[r]} :: 0 <= r < |expected| ==> seqIds[r] == expected[r].position;
      forall r: nat {:trigger ShowsSome(inp, r, n)} | r < |expected| ensures ShowsSome(inp, r, n) {
        assert ForSome(inp, |inp.cfgs|, expected[r]);
        var i: nat, j: nat :| i < |inp.cfgs| && RowFor(inp, i, j, expected[r]);
        RowShown(inp, expected, n, r, i, j);
      }
      forall i: nat, j: nat {:trigger Penalised(inp, i, j)} | Penalised(inp, i, j)
        ensures exists r {:trigger seqIds[r]} :: 0 <= r < |expected| && seqIds[r] == Offset(inp.layout, i) + j
      {
        assert HasRow(expected, Offset(inp.layout, i) + j);
      }
    }

    /** The penalty arrays of a batch. A failed check on a request with some penalty stops the
        update; otherwise the arrays show exactly the tokens of those requests. Either way
        every request has its counts back. */
    method UpdateWithPenalty(cfgs: seq<Penalties>, states: seq<Request>, cum: Option<seq<nat>>, draft: Drafting)
      returns (ok: bool, rows: nat, n: nat)
      requires Valid() && |states| == |cfgs|
      requires Sized(InputOf(cfgs, states, cum, draft)) && TokensKnown(InputOf(cfgs, states, cum, draft), vocab)
      requires Offset(LayoutOf(|cfgs|, cum, draft), |cfgs|) <= maxTokens
      modifies states`appeared, seqIds, pos, tok, cnt, penalties
      ensures InputOf(cfgs, states, cum, draft) == old(InputOf(cfgs, states, cum, draft))
      ensures
        var inp := old(InputOf(cfgs, states, cum, draft));
        && (ok <==> forall i {:trigger cfgs[i]} :: 0 <= i < |cfgs| && cfgs[i] != Penalties(0.0, 0.0, 1.0) ==>
              && (TokensOf(inp.layout, i) == 1 || !inp.drafting[i])
              && (inp.layout.drafts.Some? ==> |inp.layout.follows[i]| == TokensOf(inp.layout, i)))
        && (ok ==> Shows(inp, rows, n))
    {
      hide TokensKnown, Sized, Shaped, CheckedUpTo, Filled, Rows, Shows, RowsRight, TokensOf, Offset;
      ghost var inp := InputOf(cfgs, states, cum, draft);
      ok, rows, n := FillRows(cfgs, states, cum, draft);
      CheckedIff(inp);
      if ok {
        RowsAreRight(inp, |cfgs|);
        FilledShows(inp, Rows(inp, |cfgs|), n);
      }
    }

    /** The loop over the requests: it stops at a failed check, and otherwise fills in the rows
        of the batch. */
    method FillRows(cfgs: seq<Penalties>, states: seq<Request>, cum: Option<seq<nat>>, draft: Drafting)
      returns (ok: bool, rows: nat, n: nat)
      requires Valid() && |states| == |cfgs|
      requires Sized(InputOf(cfgs, states, cum, draft)) && TokensKnown(InputOf(cfgs, states, cum, draft), vocab)
      requires Offset(LayoutOf(|cfgs|, cum, draft), |cfgs|) <= maxTokens
      modifies states`appeared, seqIds, pos, tok, cnt, penalties
      ensures InputOf(cfgs, states, cum, draft) == old(InputOf(cfgs, states, cum, draft))
      ensures ok <==> CheckedUpTo(old(InputOf(cfgs, states, cum, draft)), |cfgs|)
      ensures ok ==>
                var expected := Rows(old(InputOf(cfgs, states, cum, draft)), |cfgs|);
                rows == |expected| && Filled(expected, n)
    {
      hide TokensKnown, Sized, Shaped, CheckedUpTo, Filled, Rows;
      ghost var inp := InputOf(cfgs, states, cum, draft);
      rows, n := 0, 0;
      NothingFilled(inp);
      for i := 0 to |cfgs|
        invariant Reads(inp, states, draft)
        invariant Done(inp, i, rows, n)
      {
        ShapedOf(inp);
        OffsetsOrdered(inp.layout, i + 1, |cfgs|);
        ok, rows, n := PutIfActive(inp, i, cfgs[i], states, cum, draft, rows, n);
        if !ok {
          ShortCheck(inp, i + 1);
          return;
        }
      }
      ok := true;
    }

    lemma NothingFilled(inp: Input)
      requires Valid() && Sized(inp)
      ensures Done(inp, 0, 0, 0)
    {
    }
  }

  lemma ShapedOf(inp: Input)
    requires Sized(inp)
    ensures Shaped(inp.layout) && |inp.cfgs| == inp.layout.requests == |inp.drafting|
  {
  }

  lemma ShortCheck(inp: Input, k: nat)
    requires Sized(inp) && k <= |inp.cfgs| && !CheckedUpTo(inp, k)
    ensures !CheckedUpTo(inp, |inp.cfgs|)
  {
  }

  lemma RowsStep(inp: Input, i: nat)
    requires Sized(inp) && i < |inp.cfgs| && CheckedUpTo(inp, i)
    ensures CheckedUpTo(inp, i + 1) <==> (Active(inp.cfgs[i]) ==> Checked(inp, i))
    ensures CheckedUpTo(inp, i + 1) ==>
              Rows(inp, i + 1) == if Active(inp.cfgs[i]) then Rows(inp, i) + RowsOf(inp, i, TokensOf(inp.layout, i))
                                  else Rows(inp, i)
  {
    hide Active, RowsOf, Sized, Checked;
  }

  lemma RoomForRow(p: seq<int>, t: seq<int>, c: seq<int>, rows: seq<Row>, vocab: nat, max: nat)
    requires Encodes(p, t, c, rows) && RowsInVocabulary(rows, vocab) && |rows| <= max
    ensures |p| <= max * vocab
    ensures |rows| < max ==> |p| + vocab <= max * vocab
  {
    RowsFit(p, t, c, rows, vocab);
    hide *;
    TimesOrdered(|rows|, max, vocab);
  }

  lemma PrefixesOf(a: array<int>, n: nat, k: nat)
    requires n <= k <= a.Length
    ensures a[..k][..n] == a[..n] && a[..k][n..] == a[n..k]
  {
  }
}
