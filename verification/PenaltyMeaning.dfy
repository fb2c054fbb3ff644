/** What the penalty rows of a batch say, request by request: which tokens get a row, with which
    penalties, and how often each token of the vocabulary counts. */
module PenaltyMeaning {
  import opened Options
  import opened DraftTokens
  import opened TokenLayout
  import opened PenaltyRows

  /** How often a token counts. */
  function Count(m: Counts, t: int): int {
    if t in m then m[t] else 0
  }

  lemma {:induction false} CountsAdd(m: Counts, tokens: seq<int>, t: int)
    requires Positive(m)
    ensures Positive(PlusAll(m, tokens))
    ensures Count(PlusAll(m, tokens), t) == Count(m, t) + multiset(tokens)[t]
    decreases |tokens|
  {
    PlusAllPositive(m, tokens);
    if tokens != [] {
      PlusMinus(m, tokens[0]);
      CountsAdd(Plus(m, tokens[0]), tokens[1..], t);
      assert tokens == [tokens[0]] + tokens[1..];
    }
  }

  /** Request i has some penalty, and j is one of its tokens in the batch. */
  ghost predicate Penalised(inp: Input, i: nat, j: nat)
    requires Sized(inp)
  {
    i < |inp.cfgs| && inp.cfgs[i] != Penalties(0.0, 0.0, 1.0) && j < TokensOf(inp.layout, i)
  }

  /** This row is for token j of request i. */
  ghost predicate RowFor(inp: Input, i: nat, j: nat, row: Row)
    requires Sized(inp)
  {
    && Penalised(inp, i, j) && IndexPerToken(inp.layout, i)
    && row.position == Offset(inp.layout, i) + j && row.penalties == inp.cfgs[i]
    && Positive(row.counts)
    && forall t {:trigger Count(row.counts, t)} ::
         Count(row.counts, t) == Count(inp.counts[i], t) + multiset(PathTo(inp.layout, i, j))[t]
  }

  ghost predicate Ascending(rows: seq<Row>) {
    forall r, s {:trigger rows[r], rows[s]} :: 0 <= r < s < |rows| ==> rows[r].position < rows[s].position
  }

  lemma OneRow(inp: Input, i: nat, j: nat)
    requires Sized(inp) && i < |inp.cfgs| && Checked(inp, i) && j < TokensOf(inp.layout, i)
    requires inp.cfgs[i] != Penalties(0.0, 0.0, 1.0)
    ensures RowFor(inp, i, j, RowOf(inp, i, j))
  {
    assert Positive(inp.counts[i]);
    hide Shaped, PathTo, PlusAll, Positive;
    forall t
      ensures Count(RowOf(inp, i, j).counts, t)
              == Count(inp.counts[i], t) + multiset(PathTo(inp.layout, i, j))[t]
    {
      CountsAdd(inp.counts[i], PathTo(inp.layout, i, j), t);
    }
    CountsAdd(inp.counts[i], PathTo(inp.layout, i, j), 0);
  }

  lemma {:induction false} RequestRows(inp: Input, i: nat, n: nat)
    requires Sized(inp) && i < |inp.cfgs| && Checked(inp, i) && n <= TokensOf(inp.layout, i)
    ensures |RowsOf(inp, i, n)| == n
    ensures forall j {:trigger RowsOf(inp, i, n)[j]} :: 0 <= j < n ==> RowsOf(inp, i, n)[j] == RowOf(inp, i, j)
  {
    hide Sized, Checked, RowOf;
    if n > 0 { RequestRows(inp, i, n - 1); }
  }

  lemma ActiveIff(p: Penalties)
    ensures Active(p) <==> p != Penalties(0.0, 0.0, 1.0)
  {
  }

  /** The checks on the requests with some penalty, written out. */
  lemma CheckedIff(inp: Input)
    requires Sized(inp)
    ensures CheckedUpTo(inp, |inp.cfgs|) <==>
              forall i {:trigger inp.cfgs[i]} :: 0 <= i < |inp.cfgs| && inp.cfgs[i] != Penalties(0.0, 0.0, 1.0) ==>
                && (TokensOf(inp.layout, i) == 1 || !inp.drafting[i])
                && (inp.layout.drafts.Some? ==> |inp.layout.follows[i]| == TokensOf(inp.layout, i))
  {
    forall i | 0 <= i < |inp.cfgs| ensures Active(inp.cfgs[i]) <==> inp.cfgs[i] != Penalties(0.0, 0.0, 1.0) {
      ActiveIff(inp.cfgs[i]);
    }
    hide Active, Offset;
  }

  /** The row is for a token of one of the first n requests, and lies before the next request. */
  ghost predicate ForSome(inp: Input, n: nat, row: Row)
    requires Sized(inp) && n <= |inp.cfgs|
  {
    row.position < Offset(inp.layout, n) && exists i: nat, j: nat :: i < n && RowFor(inp, i, j, row)
  }

  ghost predicate HasRow(rows: seq<Row>, position: int) {
    exists r {:trigger rows[r]} :: 0 <= r < |rows| && rows[r].position == position
  }

  /** These rows are for the first n requests: ascending positions before the next request, one
      for each token of each request that has some penalty, and no others. */
  ghost predicate RowsRight(inp: Input, rows: seq<Row>, n: nat)
    requires Sized(inp) && n <= |inp.cfgs|
  {
    && Ascending(rows)
    && (forall r {:trigger rows[r]} :: 0 <= r < |rows| ==> ForSome(inp, n, rows[r]))
    && (forall i: nat, j: nat {:trigger Penalised(inp, i, j)} :: i < n && Penalised(inp, i, j) ==>
          HasRow(rows, Offset(inp.layout, i) + j))
  }

  lemma NoRows(inp: Input)
    requires Sized(inp)
    ensures RowsRight(inp, [], 0)
  {
  }

  lemma ForSomeGrows(inp: Input, n: nat, row: Row)
    requires Sized(inp) && n < |inp.cfgs| && ForSome(inp, n, row)
    ensures ForSome(inp, n + 1, row)
  {
    assert Offset(inp.layout, n) <= Offset(inp.layout, n + 1);
    hide RowFor, FollowsDraft, Positive;
    var i: nat, j: nat :| i < n && RowFor(inp, i, j, row);
  }

  lemma HasRowConcat(a: seq<Row>, b: seq<Row>, position: int)
    ensures HasRow(a + b, position) <==> HasRow(a, position) || HasRow(b, position)
  {
    if HasRow(a, position) {
      var r :| 0 <= r < |a| && a[r].position == position;
      assert (a + b)[r] == a[r];
    }
    if HasRow(b, position) {
      var r :| 0 <= r < |b| && b[r].position == position;
      assert (a + b)[|a| + r] == b[r];
    }
  }

  lemma Skipped(inp: Input, rows: seq<Row>, n: nat)
    requires Sized(inp) && n < |inp.cfgs| && RowsRight(inp, rows, n) && inp.cfgs[n] == Penalties(0.0, 0.0, 1.0)
    ensures RowsRight(inp, rows, n + 1)
  {
    forall r | 0 <= r < |rows| ensures ForSome(inp, n + 1, rows[r]) { ForSomeGrows(inp, n, rows[r]); }
    assert forall j: nat :: !Penalised(inp, n, j);
    hide FollowsDraft, Penalised, Positive, ForSome, HasRow;
  }

  /** The positions of a request's rows. */
  lemma PlaceOf(inp: Input, i: nat, j: nat)
    requires Sized(inp) && i < |inp.cfgs| && Checked(inp, i) && j < TokensOf(inp.layout, i)
    ensures RowOf(inp, i, j).position == Offset(inp.layout, i) + j
    ensures Offset(inp.layout, i) <= RowOf(inp, i, j).position < Offset(inp.layout, i + 1)
  {
    assert Offset(inp.layout, i) <= Offset(inp.layout, i + 1);
    hide PathTo, PlusAll;
  }

  lemma Joined(inp: Input, rows: seq<Row>, n: nat)
    requires Sized(inp) && n < |inp.cfgs| && RowsRight(inp, rows, n) && Checked(inp, n)
    requires inp.cfgs[n] != Penalties(0.0, 0.0, 1.0)
    ensures RowsRight(inp, rows + RowsOf(inp, n, TokensOf(inp.layout, n)), n + 1)
  {
    var count := TokensOf(inp.layout, n);
    var more := RowsOf(inp, n, count);
    RequestRows(inp, n, count);
    assert Offset(inp.layout, n) <= Offset(inp.layout, n + 1);
    forall j: nat | j < count
      ensures more[j] == RowOf(inp, n, j) && RowFor(inp, n, j, more[j]) && more[j].position == Offset(inp.layout, n) + j
      ensures more[j].position < Offset(inp.layout, n + 1)
    {
      OneRow(inp, n, j);
      PlaceOf(inp, n, j);
    }
    forall j: nat | j < count ensures ForSome(inp, n + 1, more[j]) {
      assert RowFor(inp, n, j, more[j]);
    }
    JoinedRows(inp, rows, more, n, count);
  }

  lemma JoinedRows(inp: Input, rows: seq<Row>, more: seq<Row>, n: nat, count: nat)
    requires Sized(inp) && n < |inp.cfgs| && RowsRight(inp, rows, n) && count == TokensOf(inp.layout, n) == |more|
    requires forall j: nat {:trigger more[j]} :: j < count ==>
               ForSome(inp, n + 1, more[j]) && more[j].position == Offset(inp.layout, n) + j
    ensures RowsRight(inp, rows + more, n + 1)
  {
    JoinedForSome(inp, rows, more, n);
    JoinedAscending(rows, more, Offset(inp.layout, n));
    forall i: nat, j: nat {:trigger Penalised(inp, i, j)} | i < n + 1 && Penalised(inp, i, j)
      ensures HasRow(rows + more, Offset(inp.layout, i) + j)
    {
      JoinedHas(inp, rows, more, n, i, j);
    }
    hide Ascending, FollowsDraft, Penalised, Positive, ForSome, HasRow, TokensOf, Shaped, Offset;
  }

  lemma JoinedHas(inp: Input, rows: seq<Row>, more: seq<Row>, n: nat, i: nat, j: nat)
    requires Sized(inp) && n < |inp.cfgs| && RowsRight(inp, rows, n) && |more| == TokensOf(inp.layout, n)
    requires forall j: nat {:trigger more[j]} :: j < |more| ==> more[j].position == Offset(inp.layout, n) + j
    requires i < n + 1 && Penalised(inp, i, j)
    ensures HasRow(rows + more, Offset(inp.layout, i) + j)
  {
    hide FollowsDraft, Positive, ForSome, HasRow, Ascending;
    HasRowConcat(rows, more, Offset(inp.layout, i) + j);
    if i == n { HasRowAt(more, j); }
  }

  lemma HasRowAt(rows: seq<Row>, r: nat)
    requires r < |rows|
    ensures HasRow(rows, rows[r].position)
  {
  }

  lemma JoinedAscending(rows: seq<Row>, more: seq<Row>, limit: int)
    requires Ascending(rows) && forall r {:trigger rows[r]} :: 0 <= r < |rows| ==> rows[r].position < limit
    requires forall j {:trigger more[j]} :: 0 <= j < |more| ==> more[j].position == limit + j
    ensures Ascending(rows + more)
  {
  }

  lemma JoinedForSome(inp: Input, rows: seq<Row>, more: seq<Row>, n: nat)
    requires Sized(inp) && n < |inp.cfgs|
    requires forall r {:trigger rows[r]} :: 0 <= r < |rows| ==> ForSome(inp, n, rows[r])
    requires forall r {:trigger more[r]} :: 0 <= r < |more| ==> ForSome(inp, n + 1, more[r])
    ensures forall r {:trigger (rows + more)[r]} :: 0 <= r < |rows + more| ==> ForSome(inp, n + 1, (rows + more)[r])
    ensures forall r {:trigger rows[r]} :: 0 <= r < |rows| ==> rows[r].position < Offset(inp.layout, n)
  {
    forall r | 0 <= r < |rows| ensures ForSome(inp, n + 1, rows[r]) { ForSomeGrows(inp, n, rows[r]); }
    hide FollowsDraft, RowFor, Positive;
  }

  lemma {:induction false} RowsAreRight(inp: Input, n: nat)
    requires Sized(inp) && n <= |inp.cfgs| && CheckedUpTo(inp, n)
    ensures RowsRight(inp, Rows(inp, n), n)
  {
    hide Sized, RowsRight, Checked, RowsOf, Active;
    if n == 0 {
      NoRows(inp);
    } else {
      RowsAreRight(inp, n - 1);
      ActiveIff(inp.cfgs[n - 1]);
      if Active(inp.cfgs[n - 1]) {
        Joined(inp, Rows(inp, n - 1), n - 1);
      } else {
        Skipped(inp, Rows(inp, n - 1), n - 1);
        assert Rows(inp, n - 1) + [] == Rows(inp, n - 1);
      }
    }
  }

  // ---------------------------------------------------------------- the entries

  /** The entries of the arrays are those of the rows: every entry belongs to a row and gives
      the count of its token there, every counted token of a row has an entry, and no token has
      two in one row. */
  ghost predicate EntriesRight(pos: seq<int>, tok: seq<int>, cnt: seq<int>, rows: seq<Row>) {
    && |pos| == |tok| == |cnt|
    && (forall k {:trigger pos[k]} :: 0 <= k < |pos| ==>
          0 <= pos[k] < |rows| && tok[k] in rows[pos[k]].counts && cnt[k] == rows[pos[k]].counts[tok[k]])
    && (forall r, t {:trigger t in rows[r].counts} :: 0 <= r < |rows| && t in rows[r].counts ==>
          exists k {:trigger pos[k]} {:trigger tok[k]} :: 0 <= k < |pos| && pos[k] == r && tok[k] == t)
    && (forall k, l {:trigger pos[k], pos[l]} :: 0 <= k < l < |pos| && pos[k] == pos[l] ==> tok[k] != tok[l])
  }

  lemma {:induction false} EntriesAreRight(pos: seq<int>, tok: seq<int>, cnt: seq<int>, rows: seq<Row>)
    requires Encodes(pos, tok, cnt, rows)
    ensures EntriesRight(pos, tok, cnt, rows)
    decreases |rows|
  {
    if rows != [] {
      var r := |rows| - 1;
      var n := |pos| - |rows[r].counts|;
      EntriesAreRight(pos[..n], tok[..n], cnt[..n], rows[..r]);
      hide Encodes;
      LastRowRight(pos, tok, cnt, rows, n);
    }
  }

  lemma LastRowRight(pos: seq<int>, tok: seq<int>, cnt: seq<int>, rows: seq<Row>, n: nat)
    requires rows != [] && n <= |pos| == |tok| == |cnt|
    requires EntriesRight(pos[..n], tok[..n], cnt[..n], rows[..|rows| - 1])
    requires RowIs(pos[n..], tok[n..], cnt[n..], |rows| - 1, rows[|rows| - 1].counts)
    ensures EntriesRight(pos, tok, cnt, rows)
  {
    var last := |rows| - 1;
    forall k | 0 <= k < |pos|
      ensures pos[k] == (if k < n then pos[..n][k] else pos[n..][k - n])
      ensures tok[k] == (if k < n then tok[..n][k] else tok[n..][k - n])
      ensures 0 <= pos[k] < |rows| && tok[k] in rows[pos[k]].counts && cnt[k] == rows[pos[k]].counts[tok[k]]
      ensures k >= n ==> pos[k] == last
      ensures k < n ==> pos[k] < last
    {
      if k < n { assert cnt[k] == cnt[..n][k]; } else { assert cnt[k] == cnt[n..][k - n]; }
    }
    LastRowCovers(pos, tok, cnt, rows, n);
    forall k, l | 0 <= k < l < |pos| && pos[k] == pos[l] ensures tok[k] != tok[l] {
      if l < n {
        assert pos[..n][k] == pos[..n][l];
      } else {
        assert tok[n..][k - n] != tok[n..][l - n];
      }
    }
  }

  lemma LastRowCovers(pos: seq<int>, tok: seq<int>, cnt: seq<int>, rows: seq<Row>, n: nat)
    requires rows != [] && n <= |pos| == |tok| == |cnt|
    requires EntriesRight(pos[..n], tok[..n], cnt[..n], rows[..|rows| - 1])
    requires RowIs(pos[n..], tok[n..], cnt[n..], |rows| - 1, rows[|rows| - 1].counts)
    ensures forall r, t {:trigger t in rows[r].counts} :: 0 <= r < |rows| && t in rows[r].counts ==>
              exists k {:trigger pos[k]} {:trigger tok[k]} :: 0 <= k < |pos| && pos[k] == r && tok[k] == t
  {
    var last := |rows| - 1;
    forall r, t | 0 <= r < |rows| && t in rows[r].counts
      ensures exists k {:trigger pos[k]} {:trigger tok[k]} :: 0 <= k < |pos| && pos[k] == r && tok[k] == t
    {
      if r < last {
        assert t in rows[..last][r].counts;
        var k :| 0 <= k < n && pos[..n][k] == r && tok[..n][k] == t;
        assert pos[k] == r && tok[k] == t;
      } else {
        var k :| 0 <= k < |tok[n..]| && tok[n..][k] == t;
        assert pos[n + k] == pos[n..][k] && tok[n + k] == t;
      }
    }
  }

  /** The entries of one row when its counts are the sum of other counts and a list of tokens. */
  lemma EntriesCount(pos: seq<int>, tok: seq<int>, cnt: seq<int>, rows: seq<Row>, r: nat, base: Counts,
                     path: multiset<int>)
    requires EntriesRight(pos, tok, cnt, rows) && r < |rows| && Positive(rows[r].counts)
    requires forall t {:trigger Count(rows[r].counts, t)} :: Count(rows[r].counts, t) == Count(base, t) + path[t]
    ensures forall k {:trigger pos[k]} :: 0 <= k < |pos| && pos[k] == r ==>
              cnt[k] > 0 && cnt[k] == Count(base, tok[k]) + path[tok[k]]
    ensures forall t {:trigger path[t]} :: Count(base, t) + path[t] > 0 ==>
              exists k {:trigger pos[k]} :: 0 <= k < |pos| && pos[k] == r && tok[k] == t
  {
    var m := rows[r].counts;
    forall k | 0 <= k < |pos| && pos[k] == r ensures cnt[k] > 0 && cnt[k] == Count(base, tok[k]) + path[tok[k]] {
      assert Count(m, tok[k]) == cnt[k];
    }
    forall t | Count(base, t) + path[t] > 0
      ensures exists k {:trigger pos[k]} :: 0 <= k < |pos| && pos[k] == r && tok[k] == t
    {
      assert Count(m, t) > 0;
    }
  }
}
