/** How the tokens of a batch lie in the logits: a range of positions per request, and for
    every position the draft token it comes behind. */
module TokenLayout {
  import opened Options
  import opened DraftTokens

  /** The draft trees of other model states, and per request and token the draft token it
      comes behind, or -1. */
  datatype Drafting = NotDrafting | Behind(states: seq<Request>, follows: seq<seq<int>>)

  /** The same as values, with the cumulative token numbers of the requests, if any. */
  datatype Layout = Layout(requests: nat, cum: Option<seq<nat>>, drafts: Option<seq<Draft>>, follows: seq<seq<int>>)

  function DraftsIn(states: seq<Request>): (r: seq<Draft>)
    reads states
    ensures |r| == |states|
  {
    seq(|states|, i requires 0 <= i < |states| reads states => states[i].Drafted())
  }

  function LayoutOf(requests: nat, cum: Option<seq<nat>>, draft: Drafting): Layout
    reads if draft.Behind? then draft.states else []
  {
    Layout(requests, cum, if draft.Behind? then Some(DraftsIn(draft.states)) else None,
           if draft.Behind? then draft.follows else [])
  }

  /** The first position of request i. */
  function Offset(l: Layout, i: nat): nat
    requires l.cum.Some? ==> i < |l.cum.value|
  {
    if l.cum.None? then i else l.cum.value[i]
  }

  ghost predicate FollowsDraft(l: Layout, i: nat) {
    l.drafts.Some? && i < |l.drafts.value| && i < |l.follows| ==>
      Tree(l.drafts.value[i])
      && forall j {:trigger l.follows[i][j]} :: 0 <= j < |l.follows[i]| ==>
           -1 <= l.follows[i][j] < |l.drafts.value[i].tokens|
  }

  /** Sizes agree, positions do not go back, and every draft index names a draft token or
      nothing. */
  ghost predicate Shaped(l: Layout) {
    && (l.cum.Some? ==> |l.cum.value| == l.requests + 1)
    && (forall i {:trigger Offset(l, i)} :: 0 <= i < l.requests ==> Offset(l, i) <= Offset(l, i + 1))
    && (l.drafts.Some? ==> |l.drafts.value| == l.requests && |l.follows| == l.requests)
    && (forall i {:trigger FollowsDraft(l, i)} :: 0 <= i < l.requests ==> FollowsDraft(l, i))
  }

  function TokensOf(l: Layout, i: nat): nat
    requires Shaped(l) && i < l.requests
  {
    assert Offset(l, i) <= Offset(l, i + 1);
    Offset(l, i + 1) - Offset(l, i)
  }

  /** One token per request without cumulative numbers, else those between two of them. */
  lemma BatchShape(l: Layout, i: nat)
    requires Shaped(l) && i < l.requests
    ensures Offset(l, i) == (if l.cum.None? then i else l.cum.value[i])
    ensures TokensOf(l, i) == (if l.cum.None? then 1 else l.cum.value[i + 1] - l.cum.value[i])
  {
    hide FollowsDraft;
  }

  /** As many draft indices as tokens. */
  predicate IndexPerToken(l: Layout, i: nat)
    requires Shaped(l) && i < l.requests
  {
    l.drafts.Some? ==> |l.follows[i]| == TokensOf(l, i)
  }

  /** The draft tokens in front of token j of request i, nearest first. */
  ghost function PathTo(l: Layout, i: nat, j: nat): seq<int>
    requires Shaped(l) && i < l.requests && IndexPerToken(l, i) && j < TokensOf(l, i)
  {
    if l.drafts.None? then []
    else
      assert FollowsDraft(l, i);
      Path(l.drafts.value[i], l.follows[i][j])
  }

  lemma {:induction false} OffsetsOrdered(l: Layout, i: nat, k: nat)
    requires Shaped(l) && i <= k <= l.requests
    ensures Offset(l, i) <= Offset(l, k)
    decreases k
  {
    if i < k {
      hide FollowsDraft;
      OffsetsOrdered(l, i, k - 1);
      assert Offset(l, k - 1) <= Offset(l, k - 1 + 1);
    }
  }

  /** The walk from a draft token up to its root. Parents come earlier, so it ends. */
  method WalkDraft(d: Request, k: int) returns (path: seq<int>)
    requires Tree(d.Drafted()) && -1 <= k < |d.tokens|
    ensures path == Path(d.Drafted(), k)
  {
    path := [];
    var current := k;
    while current != -1
      invariant -1 <= current < |d.tokens|
      invariant path + Path(d.Drafted(), current) == Path(d.Drafted(), k)
      decreases current + 1
    {
      path := path + [d.tokens[current]];
      current := d.parents[current];
    }
  }

  /** The path in front of one token of a batch. */
  method PathFor(ghost l: Layout, i: nat, j: nat, draft: Drafting) returns (path: seq<int>)
    requires Shaped(l) && i < l.requests && IndexPerToken(l, i) && j < TokensOf(l, i)
    requires l == LayoutOf(l.requests, l.cum, draft)
    ensures path == PathTo(l, i, j)
  {
    path := [];
    if draft.Behind? {
      assert FollowsDraft(l, i);
      assert draft.states[i].Drafted() == l.drafts.value[i];
      path := WalkDraft(draft.states[i], draft.follows[i][j]);
    }
  }
}
