/** The grammar masks of a batch: each masked position asks its request's matcher, advanced by
    the draft tokens in front of the position, and the masked positions are then moved to
    the front of the array that flagged them. */
module MaskRows {
  import opened Options
  import opened DraftTokens
  import opened TokenLayout

  function Reversed(s: seq<int>): (r: seq<int>)
    ensures |r| == |s|
  {
    seq(|s|, k requires 0 <= k < |s| => s[|s| - 1 - k])
  }

  /** The grammar takes every token of the path, and the matcher can give back so many. */
  predicate Restorable(g: Grammar, ts: seq<int>) {
    TakesAll(g, ts) && |ts| <= ROLLBACK_LIMIT
  }

  /** Advancing by a path and giving back as many tokens brings a matcher back to where it
      was exactly if the grammar takes every token of the path and the path is no longer
      than the limit. What the matcher can still give back may be less than before. */
  lemma RestoredIff(m: Matcher, ts: seq<int>)
    ensures |ts| <= PushAll(m, ts).kept && Pull(PushAll(m, ts), |ts|).grammar == m.grammar
            <==> Restorable(m.grammar, ts)
    ensures Restorable(m.grammar, ts) ==> |ts| <= PushAll(m, ts).kept && Pull(PushAll(m, ts), |ts|) == Spent(m, |ts|)
  {
    PushAllFacts(m, ts);
    AcceptAllFacts(m.grammar, ts);
    var g := m.grammar;
    if TakesAll(g, ts) {
      assert (g.taken + ts)[..|g.taken|] == g.taken;
    }
  }

  // ---------------------------------------------------------------- what a batch expects

  /** Per request the grammar of its matcher, and the layout of the batch. */
  datatype Input = Input(grammars: seq<Option<Grammar>>, layout: Layout)

  /** The positions of the batch start at 0. */
  ghost predicate Sized(inp: Input) {
    inp.layout.requests == |inp.grammars| && Shaped(inp.layout) && Offset(inp.layout, 0) == 0
  }

  ghost predicate CheckedUpTo(inp: Input, n: nat)
    requires Sized(inp) && n <= |inp.grammars|
  {
    forall i {:trigger IndexPerToken(inp.layout, i)} :: 0 <= i < n ==> IndexPerToken(inp.layout, i)
  }

  /** The draft tokens in front of token j of request i, root first. */
  ghost function PathOf(inp: Input, i: nat, j: nat): seq<int>
    requires Sized(inp) && i < |inp.grammars| && IndexPerToken(inp.layout, i) && j < TokensOf(inp.layout, i)
  {
    Reversed(PathTo(inp.layout, i, j))
  }

  /** The matcher of request i, if any, comes back from the draft path in front of its token j. */
  ghost predicate BackAt(inp: Input, i: nat, j: nat)
    requires Sized(inp) && i < |inp.grammars| && IndexPerToken(inp.layout, i) && j < TokensOf(inp.layout, i)
  {
    inp.grammars[i].Some? ==> Restorable(inp.grammars[i].value, PathOf(inp, i, j))
  }

  ghost predicate BackIn(inp: Input, i: nat, n: nat)
    requires Sized(inp) && i < |inp.grammars| && IndexPerToken(inp.layout, i) && n <= TokensOf(inp.layout, i)
  {
    forall j: nat {:trigger BackAt(inp, i, j)} :: j < n ==> BackAt(inp, i, j)
  }

  /** The matchers of the first n requests come back from all draft paths. */
  ghost predicate AllBack(inp: Input, n: nat)
    requires Sized(inp) && n <= |inp.grammars| && CheckedUpTo(inp, n)
  {
    n > 0 ==> AllBack(inp, n - 1) && BackIn(inp, n - 1, TokensOf(inp.layout, n - 1))
  }

  /** The tokens behind which the mask of token j of request i is asked for; None without a
      grammar. */
  ghost function MaskOf(inp: Input, i: nat, j: nat): Option<seq<int>>
    requires Sized(inp) && i < |inp.grammars| && IndexPerToken(inp.layout, i) && j < TokensOf(inp.layout, i)
  {
    if inp.grammars[i].None? then None else Some(inp.grammars[i].value.taken + PathOf(inp, i, j))
  }

  ghost function MasksOf(inp: Input, i: nat, j: nat): (r: seq<Option<seq<int>>>)
    requires Sized(inp) && i < |inp.grammars| && IndexPerToken(inp.layout, i) && j <= TokensOf(inp.layout, i)
    ensures |r| == j
  {
    if j == 0 then [] else MasksOf(inp, i, j - 1) + [MaskOf(inp, i, j - 1)]
  }

  ghost function Masks(inp: Input, n: nat): seq<Option<seq<int>>>
    requires Sized(inp) && n <= |inp.grammars| && CheckedUpTo(inp, n)
  {
    if n == 0 then []
    else
      Masks(inp, n - 1) + MasksOf(inp, n - 1, TokensOf(inp.layout, n - 1))
  }

  lemma MasksStep(inp: Input, n: nat)
    requires Sized(inp) && n < |inp.grammars| && CheckedUpTo(inp, n)
    ensures CheckedUpTo(inp, n + 1) <==> IndexPerToken(inp.layout, n)
    ensures CheckedUpTo(inp, n + 1) ==> Masks(inp, n + 1) == Masks(inp, n) + MasksOf(inp, n, TokensOf(inp.layout, n))
  {
    hide Shaped, IndexPerToken, MasksOf;
  }

  // ---------------------------------------------------------------- the compaction

  /** The indices of the flagged entries, ascending. */
  function Marked(flags: seq<int>): seq<int> {
    if flags == [] then []
    else
      var n := |flags| - 1;
      if flags[n] == 1 then Marked(flags[..n]) + [n] else Marked(flags[..n])
  }

  lemma {:induction false} MarkedFacts(flags: seq<int>)
    ensures |Marked(flags)| <= |flags|
    ensures forall p :: p in Marked(flags) <==> 0 <= p < |flags| && flags[p] == 1
    ensures forall a, b :: 0 <= a < b < |Marked(flags)| ==> Marked(flags)[a] < Marked(flags)[b]
  {
    if flags != [] {
      var n := |flags| - 1;
      MarkedFacts(flags[..n]);
      var m := Marked(flags[..n]);
      assert forall a :: 0 <= a < |m| ==> m[a] in m;
    }
  }

  /** Move the flagged positions to the front, in place. */
  method Compact(ids: array<int>, batch: nat) returns (count: nat)
    requires batch <= ids.Length
    modifies ids
    ensures count == |Marked(old(ids[..batch]))| <= batch
    ensures ids[..count] == Marked(old(ids[..batch]))
    ensures ids[batch..] == old(ids[batch..])
  {
    count := 0;
    ghost var flags := ids[..batch];
    for i := 0 to batch
      invariant count <= i
      invariant ids[..count] == Marked(flags[..i])
      invariant ids[i..] == old(ids[i..])
    {
      assert flags[..i + 1][..i] == flags[..i] && flags[..i + 1][i] == flags[i];
      assert ids[i] == ids[i..][0] && old(ids[i]) == old(ids[i..])[0];
      if ids[i] == 1 {
        ids[count] := i;
        count := count + 1;
      }
      assert ids[i + 1..] == old(ids[i + 1..]) by {
        assert forall k :: i + 1 <= k < ids.Length ==> ids[k] == old(ids[i..])[k - i];
      }
    }
    assert flags[..batch] == flags;
  }

  // ---------------------------------------------------------------- the update

  function GrammarOf(m: Option<Matcher>): Option<Grammar> {
    if m.Some? then Some(m.value.grammar) else None
  }

  function GrammarsIn(states: seq<Request>): (r: seq<Option<Grammar>>)
    reads states
    ensures |r| == |states|
  {
    seq(|states|, i requires 0 <= i < |states| reads states => GrammarOf(states[i].matcher))
  }

  function InputOf(states: seq<Request>, cum: Option<seq<nat>>, draft: Drafting): Input
    reads states, if draft.Behind? then draft.states else []
  {
    Input(GrammarsIn(states), LayoutOf(|states|, cum, draft))
  }

  /** Flags and masks of the first positions; no later position is flagged. A mask is
      represented by the tokens its matcher had taken when it was asked for. */
  ghost predicate Flagged(ids: array<int>, masks: array<seq<int>>, batch: nat, expected: seq<Option<seq<int>>>)
    reads ids, masks
  {
    && |expected| <= batch <= ids.Length && batch <= masks.Length
    && (forall p {:trigger expected[p]} {:trigger ids[p]} :: 0 <= p < |expected| ==>
          ids[p] == if expected[p].Some? then 1 else 0)
    && (forall p {:trigger ids[p]} :: |expected| <= p < batch ==> ids[p] == 0)
    && (forall p {:trigger masks[p]} {:trigger expected[p]} :: 0 <= p < |expected| && expected[p].Some? ==>
        masks[p] == expected[p].value)
  }

  method FlagPosition(ids: array<int>, masks: array<seq<int>>, batch: nat, ghost expected: seq<Option<seq<int>>>,
                      p: nat, taken: seq<int>)
    requires p < batch <= ids.Length && batch <= masks.Length
    modifies ids, masks
    ensures old(Flagged(ids, masks, batch, expected)) && p == |expected| ==>
              Flagged(ids, masks, batch, expected + [Some(taken)])
  {
    masks[p] := taken;
    ids[p] := 1;
  }

  lemma SkipPosition(ids: array<int>, masks: array<seq<int>>, batch: nat, expected: seq<Option<seq<int>>>)
    requires Flagged(ids, masks, batch, expected) && |expected| < batch
    ensures Flagged(ids, masks, batch, expected + [None])
  {
  }

  /** Ask for one mask behind a path, given nearest token first. The matcher then gives up as
      many tokens as the path has, whether or not the grammar took them all, unless it
      cannot give back so many. */
  method AskMask(r: Request, path: seq<int>) returns (ok: bool, taken: seq<int>)
    requires r.matcher.Some?
    modifies r`matcher
    ensures taken == AcceptAll(old(r.matcher).value.grammar, Reversed(path)).taken
    ensures ok <==> |path| <= PushAll(old(r.matcher).value, Reversed(path)).kept
    ensures ok ==> r.matcher == Some(Pull(PushAll(old(r.matcher).value, Reversed(path)), |path|))
    ensures !ok ==> r.matcher == Some(PushAll(old(r.matcher).value, Reversed(path)))
  {
    var k := |path|;
    ghost var m := r.matcher.value;
    ghost var back := Reversed(path);
    assert back[..0] == [];
    while k > 0
      invariant 0 <= k <= |path|
      invariant r.matcher == Some(PushAll(m, back[..|path| - k]))
    {
      k := k - 1;
      assert back[..|path| - k][..|path| - k - 1] == back[..|path| - k - 1];
      assert back[|path| - k - 1] == path[k];
      r.matcher := Some(Push(r.matcher.value, path[k]));
    }
    assert back[..|path|] == back;
    PushAllFacts(m, back);
    taken := r.matcher.value.grammar.taken;
    if |path| > 0 {
      if |path| > r.matcher.value.kept { return false, taken; }
      r.matcher := Some(Pull(r.matcher.value, |path|));
    } else {
      assert taken[..|taken| - 0] == taken;
    }
    ok := true;
  }

  // ---------------------------------------------------------------- one token

  /** Some matcher has fewer tokens than it started with. */
  ghost predicate Shorter(inp: Input, states: seq<Request>)
    reads states
  {
    SomeLess(GrammarsIn(states), inp.grammars)
  }

  ghost predicate SomeLess(a: seq<Option<Grammar>>, b: seq<Option<Grammar>>) {
    exists k {:trigger a[k]} :: 0 <= k < |a| && k < |b| && Less(a[k], b[k])
  }

  ghost predicate NoneLonger(a: seq<Option<Grammar>>, b: seq<Option<Grammar>>) {
    |a| == |b| && forall k {:trigger a[k]} :: 0 <= k < |a| && b[k].Some? ==>
      a[k].Some? && |a[k].value.taken| <= |b[k].value.taken|
  }

  predicate Less(a: Option<Grammar>, b: Option<Grammar>) {
    a.Some? && b.Some? && |a.value.taken| < |b.value.taken|
  }

  /** Up to here nothing went wrong, and the positions so far are flagged. */
  ghost predicate Clean(inp: Input, states: seq<Request>, ids: array<int>, masks: array<seq<int>>, batch: nat,
                        expected: seq<Option<seq<int>>>)
    reads states, ids, masks
  {
    GrammarsIn(states) == inp.grammars && Flagged(ids, masks, batch, expected)
  }

  lemma StaysLess(a: seq<Option<Grammar>>, b: seq<Option<Grammar>>, c: seq<Option<Grammar>>)
    requires NoneLonger(a, b) && SomeLess(b, c)
    ensures SomeLess(a, c)
  {
    var k :| 0 <= k < |b| && k < |c| && Less(b[k], c[k]);
    assert Less(a[k], c[k]);
  }

  /** Giving back a path never leaves more tokens than before, and as many exactly if every
      token of the path was taken. */
  lemma GivenBack(m: Matcher, ts: seq<int>)
    requires |ts| <= PushAll(m, ts).kept
    ensures
      var g := Pull(PushAll(m, ts), |ts|).grammar;
      && |g.taken| <= |m.grammar.taken|
      && (|g.taken| == |m.grammar.taken| <==> Restorable(m.grammar, ts))
      && (Restorable(m.grammar, ts) ==> g == m.grammar)
  {
    RestoredIff(m, ts);
    PushAllFacts(m, ts);
    AcceptAllFacts(m.grammar, ts);
  }

  lemma RestorableTaken(g: Grammar, ts: seq<int>)
    ensures Restorable(g, ts) ==> AcceptAll(g, ts).taken == g.taken + ts
  {
    AcceptAllFacts(g, ts);
  }

  /** Ask for one mask of request i. Where its matcher stands afterwards, and that of every
      request: the same request may stand in the batch more than once. */
  method AskRequest(states: seq<Request>, i: nat, path: seq<int>) returns (ok: bool, taken: seq<int>)
    requires i < |states| && states[i].matcher.Some?
    modifies states`matcher
    ensures Restorable(old(states[i].matcher).value.grammar, Reversed(path)) ==>
              && ok && GrammarsIn(states) == old(GrammarsIn(states))
              && taken == old(states[i].matcher).value.grammar.taken + Reversed(path)
    ensures ok ==> NoneLonger(GrammarsIn(states), old(GrammarsIn(states)))
    ensures ok && !Restorable(old(states[i].matcher).value.grammar, Reversed(path)) ==>
              SomeLess(GrammarsIn(states), old(GrammarsIn(states)))
  {
    hide TakesAll, AcceptAll, Reversed, PushAll, Pull, Restorable;
    ghost var m, ts := states[i].matcher.value, Reversed(path);
    RestoredIff(m, ts);
    ReversedLength(path);
    RestorableTaken(m.grammar, ts);
    ok, taken := AskMask(states[i], path);
    if ok {
      GivenBack(m, ts);
      ghost var after, before := GrammarsIn(states), old(GrammarsIn(states));
      assert forall k {:trigger states[k]} :: 0 <= k < |states| ==>
        states[k] == states[i] || states[k].matcher == old(states[k].matcher);
      assert forall k :: 0 <= k < |states| ==>
               after[k] == before[k] || (after[k] == after[i] && before[k] == before[i]);
      assert !Restorable(m.grammar, ts) ==> Less(after[i], before[i]);
    }
  }

  lemma BackMeans(inp: Input, states: seq<Request>, i: nat, j: nat, path: seq<int>)
    requires Sized(inp) && i < |inp.grammars| == |states| && IndexPerToken(inp.layout, i) && j < TokensOf(inp.layout, i)
    requires GrammarsIn(states) == inp.grammars && states[i].matcher.Some? && path == PathTo(inp.layout, i, j)
    ensures inp.grammars[i] == Some(states[i].matcher.value.grammar)
    ensures BackAt(inp, i, j) <==> Restorable(states[i].matcher.value.grammar, Reversed(path))
    ensures MaskOf(inp, i, j) == Some(states[i].matcher.value.grammar.taken + Reversed(path))
  {
    assert GrammarsIn(states)[i] == GrammarOf(states[i].matcher);
    hide Restorable, Reversed, PathTo, Shaped;
  }

  lemma NoMask(inp: Input, states: seq<Request>, i: nat, j: nat)
    requires Sized(inp) && i < |inp.grammars| == |states| && IndexPerToken(inp.layout, i) && j < TokensOf(inp.layout, i)
    requires GrammarsIn(states) == inp.grammars && states[i].matcher.None?
    ensures BackAt(inp, i, j) && MaskOf(inp, i, j) == None
  {
    assert GrammarsIn(states)[i] == GrammarOf(states[i].matcher);
    hide Restorable, Reversed, PathTo, Shaped;
  }

  /** One token: flag it and store its mask if the request has a grammar. A path the grammar
      does not take costs the matcher some of its own tokens, for good; one that is too
      long is an error. */
  method MaskToken(ghost inp: Input, i: nat, j: nat, position: nat, states: seq<Request>, draft: Drafting,
                   ids: array<int>, masks: array<seq<int>>, batch: nat, ghost clean: bool,
                   ghost expected: seq<Option<seq<int>>>)
    returns (ok: bool)
    requires Sized(inp) && i < |inp.grammars| == |states| && IndexPerToken(inp.layout, i) && j < TokensOf(inp.layout, i)
    requires inp.layout == LayoutOf(inp.layout.requests, inp.layout.cum, draft)
    requires position < batch <= ids.Length && batch <= masks.Length
    requires if clean then Clean(inp, states, ids, masks, batch, expected) && position == |expected|
             else Shorter(inp, states)
    modifies states`matcher, ids, masks
    ensures inp.layout == LayoutOf(inp.layout.requests, inp.layout.cum, draft)
    ensures clean && BackAt(inp, i, j) ==> ok && Clean(inp, states, ids, masks, batch, expected + [MaskOf(inp, i, j)])
    ensures !(clean && BackAt(inp, i, j)) ==> !ok || Shorter(inp, states)
  {
    hide Shaped, AcceptAll, Reversed, Path, Flagged, IndexPerToken, PathTo, Restorable, BackAt, MaskOf, Offset,
         GrammarsIn, Less, SomeLess, NoneLonger;
    ghost var before := GrammarsIn(states);
    ok := true;
    if states[i].matcher.Some? {
      var path := PathFor(inp.layout, i, j, draft);
      if clean { BackMeans(inp, states, i, j, path); }
      var taken;
      ok, taken := AskRequest(states, i, path);
      if draft.Behind? {
        assert forall k {:trigger draft.states[k]} :: 0 <= k < |draft.states| ==>
          draft.states[k].Drafted() == old(draft.states[k].Drafted());
        assert DraftsIn(draft.states) == old(DraftsIn(draft.states));
      }
      if ok {
        FlagPosition(ids, masks, batch, expected, position, taken);
        if !clean { StaysLess(GrammarsIn(states), before, inp.grammars); }
      }
    } else if clean {
      NoMask(inp, states, i, j);
      SkipPosition(ids, masks, batch, expected);
    }
  }

  lemma ReversedLength(s: seq<int>)
    ensures |Reversed(s)| == |s|
  {
  }

  // ---------------------------------------------------------------- the batch

  /** Clean with this much done, or some matcher is short. */
  ghost predicate SoFar(inp: Input, states: seq<Request>, ids: array<int>, masks: array<seq<int>>, batch: nat,
                        clean: bool, expected: seq<Option<seq<int>>>)
    reads states, ids, masks
  {
    if clean then Clean(inp, states, ids, masks, batch, expected) else Shorter(inp, states)
  }

  /** All tokens of one request. */
  method MaskRequest(ghost inp: Input, i: nat, offset: nat, tokens: nat, states: seq<Request>, draft: Drafting,
                     ids: array<int>, masks: array<seq<int>>, batch: nat, ghost clean: bool,
                     ghost before: seq<Option<seq<int>>>)
    returns (ok: bool)
    requires Sized(inp) && i < |inp.grammars| == |states| && IndexPerToken(inp.layout, i)
    requires tokens == TokensOf(inp.layout, i)
    requires inp.layout == LayoutOf(inp.layout.requests, inp.layout.cum, draft)
    requires offset + tokens <= batch <= ids.Length && batch <= masks.Length
    requires SoFar(inp, states, ids, masks, batch, clean, before) && (clean ==> |before| == offset)
    modifies states`matcher, ids, masks
    ensures inp.layout == LayoutOf(inp.layout.requests, inp.layout.cum, draft)
    ensures clean && BackIn(inp, i, tokens) ==>
              ok && SoFar(inp, states, ids, masks, batch, true, before + MasksOf(inp, i, tokens))
    ensures !(clean && BackIn(inp, i, tokens)) ==> !ok || Shorter(inp, states)
  {
    hide Clean, Shorter, BackAt, Shaped, IndexPerToken, MaskOf;
    ok := true;
    ghost var good := clean;
    assert before + MasksOf(inp, i, 0) == before;
    for j := 0 to tokens
      invariant ok && inp.layout == LayoutOf(inp.layout.requests, inp.layout.cum, draft)
      invariant good <==> clean && BackIn(inp, i, j)
      invariant SoFar(inp, states, ids, masks, batch, good, before + MasksOf(inp, i, j))
    {
      ghost var expected := before + MasksOf(inp, i, j);
      ok := MaskToken(inp, i, j, offset + j, states, draft, ids, masks, batch, good, expected);
      assert BackIn(inp, i, j + 1) <==> BackIn(inp, i, j) && BackAt(inp, i, j);
      assert before + MasksOf(inp, i, j + 1) == expected + [MaskOf(inp, i, j)];
      good := good && BackAt(inp, i, j);
      if !ok {
        assert BackIn(inp, i, tokens) ==> BackIn(inp, i, j + 1);
        return;
      }
    }
  }

  /** All requests: the flags and masks of the batch. */
  method MaskAll(ghost inp: Input, states: seq<Request>, cum: Option<seq<nat>>, draft: Drafting,
                 ids: array<int>, masks: array<seq<int>>, batch: nat)
    returns (ok: bool)
    requires Sized(inp) && inp == InputOf(states, cum, draft) && |inp.grammars| == |states|
    requires batch == Offset(inp.layout, |inp.grammars|)
    requires batch <= ids.Length && batch <= masks.Length
    requires Flagged(ids, masks, batch, [])
    modifies states`matcher, ids, masks
    ensures ok ==> CheckedUpTo(inp, |states|)
    ensures CheckedUpTo(inp, |states|) && AllBack(inp, |states|) ==>
              ok && Clean(inp, states, ids, masks, batch, Masks(inp, |states|))
    ensures CheckedUpTo(inp, |states|) && !AllBack(inp, |states|) ==> !ok || Shorter(inp, states)
  {
    hide Clean, Shorter, BackIn, FollowsDraft, IndexPerToken, MasksOf, Masks, AllBack, CheckedUpTo;
    ok := true;
    ghost var good := true;
    NothingMasked(inp, states, ids, masks, batch);
    for i := 0 to |states|
      invariant ok && inp.layout == LayoutOf(inp.layout.requests, inp.layout.cum, draft)
      invariant CheckedUpTo(inp, i) && (good <==> AllBack(inp, i))
      invariant |Masks(inp, i)| == Offset(inp.layout, i)
      invariant SoFar(inp, states, ids, masks, batch, good, Masks(inp, i))
    {
      ShapedStep(inp, i);
      MasksStep(inp, i);
      var tokens := if cum.None? then 1 else cum.value[i + 1] - cum.value[i];
      var offset := if cum.None? then i else cum.value[i];
      if draft.Behind? && |draft.follows[i]| != tokens {
        ShortCheck(inp, i);
        return false;
      }
      PathsStep(inp, i);
      ok := MaskRequest(inp, i, offset, tokens, states, draft, ids, masks, batch, good, Masks(inp, i));
      good := good && BackIn(inp, i, tokens);
      if !ok {
        PathsPrefix(inp, i + 1);
        return;
      }
    }
  }

  lemma NothingMasked(inp: Input, states: seq<Request>, ids: array<int>, masks: array<seq<int>>, batch: nat)
    requires Sized(inp) && GrammarsIn(states) == inp.grammars && Flagged(ids, masks, batch, [])
    ensures CheckedUpTo(inp, 0) && AllBack(inp, 0) && Masks(inp, 0) == []
    ensures Clean(inp, states, ids, masks, batch, [])
  {
  }

  lemma ShapedStep(inp: Input, i: nat)
    requires Sized(inp) && i < |inp.grammars|
    ensures TokensOf(inp.layout, i) == Offset(inp.layout, i + 1) - Offset(inp.layout, i)
    ensures Offset(inp.layout, i) + TokensOf(inp.layout, i) <= Offset(inp.layout, |inp.grammars|)
    ensures inp.layout.cum.Some? ==> |inp.layout.cum.value| == |inp.grammars| + 1
    ensures inp.layout.drafts.Some? ==> |inp.layout.follows| == |inp.grammars|
    ensures IndexPerToken(inp.layout, i)
            <==> (inp.layout.drafts.Some? ==> |inp.layout.follows[i]| == TokensOf(inp.layout, i))
  {
    OffsetsOrdered(inp.layout, i + 1, |inp.grammars|);
    assert Offset(inp.layout, i) <= Offset(inp.layout, i + 1);
  }

  lemma ShortCheck(inp: Input, i: nat)
    requires Sized(inp) && i < |inp.grammars| && !IndexPerToken(inp.layout, i)
    ensures !CheckedUpTo(inp, |inp.grammars|)
  {
  }

  lemma PathsStep(inp: Input, i: nat)
    requires Sized(inp) && i < |inp.grammars| && CheckedUpTo(inp, i) && IndexPerToken(inp.layout, i)
    ensures CheckedUpTo(inp, i + 1)
    ensures AllBack(inp, i + 1) <==> AllBack(inp, i) && BackIn(inp, i, TokensOf(inp.layout, i))
  {
    hide Shaped, IndexPerToken, BackIn;
  }

  lemma {:induction false} PathsPrefix(inp: Input, i: nat)
    requires Sized(inp) && i <= |inp.grammars| && CheckedUpTo(inp, i) && !AllBack(inp, i)
    ensures CheckedUpTo(inp, |inp.grammars|) ==> !AllBack(inp, |inp.grammars|)
    decreases |inp.grammars| - i
  {
    hide Shaped, BackIn, AllBack;
    if i < |inp.grammars| && CheckedUpTo(inp, |inp.grammars|) {
      assert IndexPerToken(inp.layout, i);
      PathsStep(inp, i);
      PathsPrefix(inp, i + 1);
    }
  }

  /** Token j of request i is in the batch and its request has a grammar. */
  ghost predicate Asked(inp: Input, i: nat, j: nat)
    requires Sized(inp)
  {
    i < |inp.grammars| && inp.grammars[i].Some? && IndexPerToken(inp.layout, i) && j < TokensOf(inp.layout, i)
  }

  /** Its draft path, from the root on, is no longer than ten tokens, and the grammar takes
      them one after the other. */
  ghost predicate GoesBack(inp: Input, i: nat, j: nat)
    requires Sized(inp) && Asked(inp, i, j)
  {
    var g, path := inp.grammars[i].value, PathTo(inp.layout, i, j);
    var n := |path|;
    && n <= 10
    && exists q: seq<int> {:trigger |q|} ::
         && |q| == n && (forall k {:trigger q[k]} :: 0 <= k < n ==> q[k] == path[n - 1 - k])
         && forall k {:trigger q[k]} :: 0 <= k < n ==> g.takes(g.taken + q[..k], q[k])
  }

  /** The mask at its position is asked for behind the tokens taken and the path. */
  ghost predicate MaskedAt(inp: Input, i: nat, j: nat, masks: array<seq<int>>)
    requires Sized(inp) && Asked(inp, i, j)
    reads masks
  {
    var taken, path, p := inp.grammars[i].value.taken, PathTo(inp.layout, i, j), Offset(inp.layout, i) + j;
    && p < masks.Length && |masks[p]| == |taken| + |path| && masks[p][..|taken|] == taken
    && forall k {:trigger path[k]} :: 0 <= k < |path| ==> masks[p][|masks[p]| - 1 - k] == path[k]
  }

  lemma {:induction false} TakesAllIff(g: Grammar, ts: seq<int>)
    ensures TakesAll(g, ts) <==> forall k {:trigger ts[k]} :: 0 <= k < |ts| ==> g.takes(g.taken + ts[..k], ts[k])
  {
    if ts != [] {
      var n := |ts| - 1;
      var front := ts[..n];
      TakesAllIff(g, front);
      assert forall k {:trigger ts[k]} {:trigger front[k]} :: 0 <= k < n ==> front[k] == ts[k] && front[..k] == ts[..k];
    }
  }

  lemma BackIff(inp: Input, i: nat, j: nat)
    requires Sized(inp) && Asked(inp, i, j)
    ensures BackAt(inp, i, j) <==> GoesBack(inp, i, j)
  {
    hide FollowsDraft, Path;
    var g, path := inp.grammars[i].value, PathTo(inp.layout, i, j);
    var n, q := |path|, Reversed(path);
    TakesAllIff(g, q);
    forall r: seq<int> {:trigger |r|} | |r| == n && forall k {:trigger r[k]} :: 0 <= k < n ==> r[k] == path[n - 1 - k]
      ensures r == q
    {
    }
    hide PathTo, TakesAll, Shaped;
  }

  /** The mask of token j of request i lies at its position. */
  ghost predicate Lies(inp: Input, masks: seq<Option<seq<int>>>, i: nat, j: nat)
    requires Sized(inp) && i < |inp.grammars| && IndexPerToken(inp.layout, i) && j < TokensOf(inp.layout, i)
  {
    Offset(inp.layout, i) + j < |masks| && masks[Offset(inp.layout, i) + j] == MaskOf(inp, i, j)
  }

  lemma {:induction false} RequestMasks(inp: Input, i: nat, n: nat, j: nat)
    requires Sized(inp) && i < |inp.grammars| && IndexPerToken(inp.layout, i) && j < n <= TokensOf(inp.layout, i)
    ensures MasksOf(inp, i, n)[j] == MaskOf(inp, i, j)
  {
    hide Sized, MaskOf, IndexPerToken;
    if j < n - 1 { RequestMasks(inp, i, n - 1, j); }
  }

  lemma {:induction false} MasksLie(inp: Input, n: nat, i: nat, j: nat)
    requires Sized(inp) && n <= |inp.grammars| && CheckedUpTo(inp, n)
    requires i < n && IndexPerToken(inp.layout, i) && j < TokensOf(inp.layout, i)
    ensures |Masks(inp, n)| == Offset(inp.layout, n) && Lies(inp, Masks(inp, n), i, j)
  {
    hide FollowsDraft, MaskOf, MasksOf, Masks, IndexPerToken;
    MasksLength(inp, n - 1);
    MasksLength(inp, n);
    MasksStep(inp, n - 1);
    ShapedStep(inp, n - 1);
    if i < n - 1 {
      MasksLie(inp, n - 1, i, j);
    } else {
      RequestMasks(inp, i, TokensOf(inp.layout, i), j);
    }
  }

  lemma {:induction false} MasksLength(inp: Input, n: nat)
    requires Sized(inp) && n <= |inp.grammars| && CheckedUpTo(inp, n)
    ensures |Masks(inp, n)| == Offset(inp.layout, n)
  {
    hide MaskOf, MasksOf, IndexPerToken, FollowsDraft;
    if n > 0 {
      MasksLength(inp, n - 1);
      ShapedStep(inp, n - 1);
    }
  }

  /** Every position of the batch belongs to a token. */
  lemma {:induction false} Locate(inp: Input, n: nat, p: nat) returns (i: nat, j: nat)
    requires Sized(inp) && n <= |inp.grammars| && p < Offset(inp.layout, n)
    ensures i < n && j < TokensOf(inp.layout, i) && p == Offset(inp.layout, i) + j
  {
    hide FollowsDraft;
    ShapedStep(inp, n - 1);
    if p < Offset(inp.layout, n - 1) {
      i, j := Locate(inp, n - 1, p);
    } else {
      i, j := n - 1, p - Offset(inp.layout, n - 1);
    }
  }

  lemma {:induction false} AllBackIff(inp: Input, n: nat)
    requires Sized(inp) && n <= |inp.grammars| && CheckedUpTo(inp, n)
    ensures AllBack(inp, n)
            <==> forall i: nat, j: nat {:trigger Asked(inp, i, j)} :: i < n && Asked(inp, i, j) ==> GoesBack(inp, i, j)
  {
    hide FollowsDraft, GoesBack, Restorable;
    if n > 0 {
      AllBackIff(inp, n - 1);
      assert IndexPerToken(inp.layout, n - 1);
      forall j: nat {:trigger BackAt(inp, n - 1, j)} {:trigger Asked(inp, n - 1, j)} | j < TokensOf(inp.layout, n - 1)
        ensures BackAt(inp, n - 1, j) <==> (Asked(inp, n - 1, j) ==> GoesBack(inp, n - 1, j))
      {
        if Asked(inp, n - 1, j) { BackIff(inp, n - 1, j); }
      }
    }
  }

  /** The masks of a batch that passes the checks. It succeeds with every matcher back at the
      tokens it had taken exactly if each draft path in front of a token with a grammar goes
      back. Then the masked positions stand in front in ascending order, and each mask is the
      one behind its path. */
  method UpdateWithMask(states: seq<Request>, cum: Option<seq<nat>>, draft: Drafting, batch: nat,
                        ids: array<int>, masks: array<seq<int>>)
    returns (ok: bool, count: nat)
    requires Sized(InputOf(states, cum, draft)) && batch <= ids.Length && batch <= masks.Length
    modifies states`matcher, ids, masks
    ensures ok ==> batch == Offset(LayoutOf(|states|, cum, draft), |states|)
    ensures
      var inp := old(InputOf(states, cum, draft));
      && (ok ==> forall i: nat {:trigger IndexPerToken(inp.layout, i)} :: i < |states| ==> IndexPerToken(inp.layout, i))
      && (batch == Offset(inp.layout, |states|)
          && (forall i: nat {:trigger IndexPerToken(inp.layout, i)} :: i < |states| ==>
              IndexPerToken(inp.layout, i)) ==>
            && (ok && GrammarsIn(states) == inp.grammars
                <==> forall i: nat, j: nat {:trigger Asked(inp, i, j)} :: Asked(inp, i, j) ==> GoesBack(inp, i, j))
            && (ok && GrammarsIn(states) == inp.grammars ==> ShowsMasks(inp, ids, masks, count)))
  {
    hide FollowsDraft, IndexPerToken, CheckedUpTo, Masks, Marked, Flags, AllBack, GoesBack, ShowsMasks, TokensOf;
    ghost var inp := InputOf(states, cum, draft);
    ok, count := FillMasks(states, cum, draft, batch, ids, masks);
    CheckedIff(inp);
    if batch == Offset(inp.layout, |states|) && CheckedUpTo(inp, |states|) {
      AllBackIff(inp, |states|);
      MasksLength(inp, |states|);
      if AllBack(inp, |states|) { MasksShown(inp, ids, masks, count); }
    }
  }

  lemma CheckedIff(inp: Input)
    requires Sized(inp)
    ensures CheckedUpTo(inp, |inp.grammars|)
            <==> forall i: nat {:trigger IndexPerToken(inp.layout, i)} :: i < |inp.grammars| ==>
                IndexPerToken(inp.layout, i)
  {
    hide IndexPerToken, FollowsDraft;
  }

  /** The first entries are the positions of the tokens that ask for a mask, ascending, and each
      of these has its mask. */
  ghost predicate ShowsMasks(inp: Input, ids: array<int>, masks: array<seq<int>>, count: nat)
    requires Sized(inp)
    reads ids, masks
  {
    && count <= ids.Length
    && (forall a, b {:trigger ids[a], ids[b]} :: 0 <= a < b < count ==> ids[a] < ids[b])
    && (forall i: nat, j: nat {:trigger Asked(inp, i, j)} :: Asked(inp, i, j) ==>
          Offset(inp.layout, i) + j in ids[..count] && MaskedAt(inp, i, j, masks))
    && (forall a {:trigger ids[a]} :: 0 <= a < count ==> ForToken(inp, ids[a]))
  }

  ghost predicate ForToken(inp: Input, p: int)
    requires Sized(inp)
  {
    exists i: nat, j: nat {:trigger Asked(inp, i, j)} :: Asked(inp, i, j) && p == Offset(inp.layout, i) + j
  }

  lemma MasksShown(inp: Input, ids: array<int>, masks: array<seq<int>>, count: nat)
    requires Sized(inp) && CheckedUpTo(inp, |inp.grammars|) && count <= ids.Length
    requires ids[..count] == Marked(Flags(Masks(inp, |inp.grammars|))) && |Masks(inp, |inp.grammars|)| <= masks.Length
    requires forall p: nat {:trigger masks[p]} ::
             p < |Masks(inp, |inp.grammars|)| && Masks(inp, |inp.grammars|)[p].Some? ==>
               masks[p] == Masks(inp, |inp.grammars|)[p].value
    ensures ShowsMasks(inp, ids, masks, count)
  {
    var n := |inp.grammars|;
    var all, flags, front := Masks(inp, n), Flags(Masks(inp, n)), ids[..count];
    MarkedFacts(flags);
    MasksLength(inp, n);
    hide FollowsDraft, Masks, Marked, Flags, MaskOf, MaskedAt, CheckedUpTo, IndexPerToken;
    assert forall a {:trigger ids[a]} :: 0 <= a < count ==> ids[a] == front[a];
    forall i: nat, j: nat {:trigger Asked(inp, i, j)} | Asked(inp, i, j)
      ensures Offset(inp.layout, i) + j in ids[..count] && MaskedAt(inp, i, j, masks)
    {
      MasksLie(inp, n, i, j);
      MaskMeans(inp, i, j, masks);
    }
    forall a {:trigger ids[a]} | 0 <= a < count ensures ForToken(inp, ids[a]) {
      assert front[a] in front;
      var i, j := Locate(inp, n, ids[a]);
      assert IndexPerToken(inp.layout, i);
      MasksLie(inp, n, i, j);
      MaskMeans(inp, i, j, masks);
    }
  }

  lemma MaskMeans(inp: Input, i: nat, j: nat, masks: array<seq<int>>)
    requires Sized(inp) && i < |inp.grammars| && IndexPerToken(inp.layout, i) && j < TokensOf(inp.layout, i)
    ensures MaskOf(inp, i, j).Some? <==> Asked(inp, i, j)
    ensures
      var p := Offset(inp.layout, i) + j;
      Asked(inp, i, j) && p < masks.Length && masks[p] == MaskOf(inp, i, j).value ==> MaskedAt(inp, i, j, masks)
  {
    hide FollowsDraft, Path, IndexPerToken;
  }

  /** The loops of the update: the flags and masks of all requests, then the compaction. */
  method FillMasks(states: seq<Request>, cum: Option<seq<nat>>, draft: Drafting, batch: nat,
                   ids: array<int>, masks: array<seq<int>>)
    returns (ok: bool, count: nat)
    requires Sized(InputOf(states, cum, draft)) && batch <= ids.Length && batch <= masks.Length
    modifies states`matcher, ids, masks
    ensures ok ==> batch == Offset(LayoutOf(|states|, cum, draft), |states|)
    ensures ok ==> CheckedUpTo(old(InputOf(states, cum, draft)), |states|)
    ensures
      var inp := old(InputOf(states, cum, draft));
      batch == Offset(inp.layout, |states|) && CheckedUpTo(inp, |states|) ==>
        && (ok && GrammarsIn(states) == inp.grammars <==> AllBack(inp, |states|))
        && (AllBack(inp, |states|) ==>
              && count <= batch && ids[..count] == Marked(Flags(Masks(inp, |states|)))
              && forall p: nat :: p < |Masks(inp, |states|)| <= batch && Masks(inp, |states|)[p].Some? ==>
                   masks[p] == Masks(inp, |states|)[p].value)
  {
    hide Shorter, AllBack, CheckedUpTo, Masks, Marked, Flags;
    ghost var inp := InputOf(states, cum, draft);
    count := 0;
    if batch != (if cum.None? then |states| else cum.value[|cum.value| - 1]) { return false, 0; }
    ClearFlags(ids, masks, batch);
    ok := MaskAll(inp, states, cum, draft, ids, masks, batch);
    ShorterDiffers(inp, states);
    if ok {
      if AllBack(inp, |states|) {
        FlagsBefore(ids, masks, batch, Masks(inp, |states|));
      }
      count := Compact(ids, batch);
    }
  }

  method ClearFlags(ids: array<int>, masks: array<seq<int>>, batch: nat)
    requires batch <= ids.Length && batch <= masks.Length
    modifies ids
    ensures Flagged(ids, masks, batch, [])
  {
    for p := 0 to batch
      invariant forall q :: 0 <= q < p ==> ids[q] == 0
    {
      ids[p] := 0;
    }
  }

  lemma FlagsBefore(ids: array<int>, masks: array<seq<int>>, batch: nat, expected: seq<Option<seq<int>>>)
    requires Flagged(ids, masks, batch, expected)
    ensures Marked(ids[..batch]) == Marked(Flags(expected))
  {
    assert ids[..batch] == Flags(expected) + Zeros(batch - |expected|);
    MarkedZeros(Flags(expected), batch - |expected|);
  }

  function Flags(expected: seq<Option<seq<int>>>): (r: seq<int>)
    ensures |r| == |expected|
  {
    seq(|expected|, p requires 0 <= p < |expected| => if expected[p].Some? then 1 else 0)
  }

  function Zeros(n: nat): seq<int> {
    seq(n, p => 0)
  }

  lemma {:induction false} MarkedZeros(flags: seq<int>, n: nat)
    ensures Marked(flags + Zeros(n)) == Marked(flags)
  {
    if n == 0 {
      assert flags + Zeros(0) == flags;
    } else {
      assert (flags + Zeros(n))[..|flags| + n - 1] == flags + Zeros(n - 1);
      MarkedZeros(flags, n - 1);
    }
  }

  lemma ShorterDiffers(inp: Input, states: seq<Request>)
    ensures Shorter(inp, states) ==> GrammarsIn(states) != inp.grammars
  {
  }
}
