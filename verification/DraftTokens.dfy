/** The tokens of one request under speculation: committed tokens with their counts and
    their grammar state, and the tree of draft tokens. */
module DraftTokens {
  import opened Options
  import opened Arithmetic
  import opened Sequences

  // ---------------------------------------------------------------- counts

  /** Occurrence counts of tokens; a token that does not occur has no entry. */
  type Counts = map<int, int>

  function CountsOf(tokens: seq<int>): Counts {
    map t | t in tokens :: multiset(tokens)[t]
  }

  ghost predicate Positive(m: Counts) {
    forall t {:trigger m[t]} :: t in m ==> m[t] > 0
  }

  function Plus(m: Counts, t: int): Counts {
    m[t := (if t in m then m[t] else 0) + 1]
  }

  /** One occurrence less; at zero the entry goes away. */
  function Minus(m: Counts, t: int): Counts {
    var left := (if t in m then m[t] else 0) - 1;
    if left == 0 then m - {t} else m[t := left]
  }

  function PlusAll(m: Counts, tokens: seq<int>): Counts
    decreases |tokens|
  {
    if tokens == [] then m else PlusAll(Plus(m, tokens[0]), tokens[1..])
  }

  function MinusAll(m: Counts, tokens: seq<int>): Counts
    decreases |tokens|
  {
    if tokens == [] then m else MinusAll(Minus(m, tokens[0]), tokens[1..])
  }

  lemma PlusMinus(m: Counts, t: int)
    requires Positive(m)
    ensures Minus(Plus(m, t), t) == m && Positive(Plus(m, t))
  {
    var p := Plus(m, t);
    assert t !in m ==> p[t] == 1;
    assert t in m ==> m[t] > 0 && p[t] > 1;
  }

  lemma {:induction false} PlusLast(m: Counts, t: int, tokens: seq<int>)
    ensures PlusAll(Plus(m, t), tokens) == Plus(PlusAll(m, tokens), t)
    decreases |tokens|
  {
    if tokens != [] {
      var a := tokens[0];
      assert Plus(Plus(m, t), a) == Plus(Plus(m, a), t);
      PlusLast(Plus(m, a), t, tokens[1..]);
    }
  }

  lemma {:induction false} PlusAllPositive(m: Counts, tokens: seq<int>)
    requires Positive(m)
    ensures Positive(PlusAll(m, tokens))
    decreases |tokens|
  {
    if tokens != [] {
      PlusMinus(m, tokens[0]);
      PlusAllPositive(Plus(m, tokens[0]), tokens[1..]);
    }
  }

  /** Taking a list of tokens off again, in the same order, gives back the very same map. */
  lemma {:induction false} CountsRestored(m: Counts, tokens: seq<int>)
    requires Positive(m)
    ensures MinusAll(PlusAll(m, tokens), tokens) == m
    decreases |tokens|
  {
    if tokens != [] {
      var a, rest := tokens[0], tokens[1..];
      PlusLast(m, a, rest);
      PlusAllPositive(m, rest);
      PlusMinus(PlusAll(m, rest), a);
      CountsRestored(m, rest);
    }
  }

  lemma CountsPush(tokens: seq<int>, t: int)
    ensures CountsOf(tokens + [t]) == Plus(CountsOf(tokens), t)
    ensures Positive(CountsOf(tokens))
  {
    assert multiset(tokens + [t]) == multiset(tokens) + multiset{t};
  }

  lemma CountsPop(tokens: seq<int>)
    requires tokens != []
    ensures
      var t := tokens[|tokens| - 1];
      t in CountsOf(tokens) && CountsOf(tokens)[t] > 0
      && CountsOf(tokens[..|tokens| - 1]) == Minus(CountsOf(tokens), t)
  {
    var front, t := tokens[..|tokens| - 1], tokens[|tokens| - 1];
    assert tokens == front + [t];
    CountsPush(front, t);
    PlusMinus(CountsOf(front), t);
  }

  /** Counts plus a path are the counts of the tokens followed by the path. */
  lemma {:induction false} CountsWithPath(tokens: seq<int>, path: seq<int>)
    ensures PlusAll(CountsOf(tokens), path) == CountsOf(tokens + path)
    decreases |path|
  {
    if path == [] {
      assert tokens + path == tokens;
    } else {
      CountsPush(tokens, path[0]);
      CountsWithPath(tokens + [path[0]], path[1..]);
      assert tokens + [path[0]] + path[1..] == tokens + path;
    }
  }

  // ---------------------------------------------------------------- the draft tree

  datatype Draft = Draft(tokens: seq<int>, slots: seq<int>, parents: seq<int>, firstChild: seq<int>)

  const NO_DRAFT := Draft([], [], [], [])

  /** Every draft token has an earlier parent or none, and knows its first child. */
  ghost predicate Tree(d: Draft) {
    && |d.slots| == |d.tokens| && |d.parents| == |d.tokens| && |d.firstChild| == |d.tokens|
    && (forall k {:trigger d.parents[k]} :: 0 <= k < |d.parents| ==> -1 <= d.parents[k] < k)
    && (forall k {:trigger d.firstChild[k]} :: 0 <= k < |d.firstChild| ==> IsFirstChild(d.parents, k, d.firstChild[k]))
  }

  /** c is the first entry with parent k, or -1 when there is none. */
  ghost predicate IsFirstChild(parents: seq<int>, k: int, c: int) {
    if c == -1 then k !in parents
    else 0 <= c < |parents| && parents[c] == k && k !in parents[..c]
  }

  function Added(d: Draft, token: int, slot: int, parent: int): Draft
    requires -1 <= parent < |d.tokens| == |d.firstChild|
  {
    var first := d.firstChild + [-1];
    Draft(d.tokens + [token], d.slots + [slot], d.parents + [parent],
          if parent != -1 && first[parent] == -1 then first[parent := |d.tokens|] else first)
  }

  lemma AddKeepsTree(d: Draft, token: int, slot: int, parent: int)
    requires Tree(d) && -1 <= parent < |d.tokens|
    ensures Tree(Added(d, token, slot, parent))
  {
    var u := Added(d, token, slot, parent);
    var n := |d.tokens|;
    forall k | 0 <= k < |u.firstChild|
      ensures IsFirstChild(u.parents, k, u.firstChild[k])
    {
      assert u.parents[n] == parent;
      assert forall c :: 0 <= c <= n ==> u.parents[..c] == d.parents[..c];
      assert u.parents[..n] == d.parents;
      if k == n {
        assert forall j :: 0 <= j <= n ==> u.parents[j] < n;
      } else {
        assert IsFirstChild(d.parents, k, d.firstChild[k]);
        if k == parent && d.firstChild[k] == -1 {
          assert u.firstChild[k] == n;
        }
      }
    }
  }

  /** The tokens from a draft token up to its root; -1 is above every root. */
  function Path(d: Draft, k: int): seq<int>
    requires Tree(d) && -1 <= k < |d.tokens|
    decreases k + 1
  {
    if k == -1 then [] else [d.tokens[k]] + Path(d, d.parents[k])
  }

  /** A new draft token does not change any earlier path, and its own path is its parent's
      with itself in front. */
  lemma PathsAfterAdd(d: Draft, token: int, slot: int, parent: int)
    requires Tree(d) && -1 <= parent < |d.tokens|
    ensures Tree(Added(d, token, slot, parent))
    ensures forall k :: -1 <= k < |d.tokens| ==> Path(Added(d, token, slot, parent), k) == Path(d, k)
    ensures Path(Added(d, token, slot, parent), |d.tokens|) == [token] + Path(d, parent)
  {
    AddKeepsTree(d, token, slot, parent);
    forall k | -1 <= k < |d.tokens| ensures Path(Added(d, token, slot, parent), k) == Path(d, k) {
      PathKept(d, token, slot, parent, k);
    }
  }

  lemma {:induction false} PathKept(d: Draft, token: int, slot: int, parent: int, k: int)
    requires Tree(d) && -1 <= parent < |d.tokens| && -1 <= k < |d.tokens| && Tree(Added(d, token, slot, parent))
    ensures Path(Added(d, token, slot, parent), k) == Path(d, k)
    decreases k + 1
  {
    if k >= 0 {
      assert Added(d, token, slot, parent).parents[k] == d.parents[k];
      PathKept(d, token, slot, parent, d.parents[k]);
    }
  }

  // ---------------------------------------------------------------- grammar

  /** A grammar: what it would take next, and what it has taken so far. */
  datatype Grammar = Grammar(takes: (seq<int>, int) -> bool, taken: seq<int>)

  /** A token the grammar refuses changes nothing. */
  function Accept(g: Grammar, t: int): Grammar {
    if g.takes(g.taken, t) then g.(taken := g.taken + [t]) else g
  }

  function Retract(g: Grammar, n: nat): Grammar
    requires n <= |g.taken|
  {
    g.(taken := g.taken[..|g.taken| - n])
  }

  function AcceptAll(g: Grammar, ts: seq<int>): Grammar {
    if ts == [] then g else Accept(AcceptAll(g, ts[..|ts| - 1]), ts[|ts| - 1])
  }

  /** The grammar takes every token of a list, one after the other. */
  predicate TakesAll(g: Grammar, ts: seq<int>) {
    ts == [] || (TakesAll(g, ts[..|ts| - 1]) && g.takes(g.taken + ts[..|ts| - 1], ts[|ts| - 1]))
  }

  lemma {:induction false} AcceptAllFacts(g: Grammar, ts: seq<int>)
    ensures AcceptAll(g, ts).takes == g.takes && g.taken <= AcceptAll(g, ts).taken
    ensures |AcceptAll(g, ts).taken| <= |g.taken| + |ts|
    ensures TakesAll(g, ts) <==> |AcceptAll(g, ts).taken| == |g.taken| + |ts|
    ensures TakesAll(g, ts) ==> AcceptAll(g, ts).taken == g.taken + ts
  {
    if ts != [] {
      var front := ts[..|ts| - 1];
      AcceptAllFacts(g, front);
      assert ts == front + [ts[|ts| - 1]];
    }
  }

  /** How many of its last tokens a matcher can give back at most. */
  const ROLLBACK_LIMIT: nat := 10

  /** A grammar and how many of its last tokens it can still give back. */
  datatype Matching = Matching(grammar: Grammar, kept: nat)

  type Matcher = m: Matching | m.kept <= ROLLBACK_LIMIT && m.kept <= |m.grammar.taken|
    witness Matching(Grammar((s, t) => true, []), 0)

  function NewMatcher(takes: (seq<int>, int) -> bool): Matcher {
    Matching(Grammar(takes, []), 0)
  }

  function Push(m: Matcher, t: int): Matcher {
    if m.grammar.takes(m.grammar.taken, t) then Matching(Accept(m.grammar, t), Min(m.kept + 1, ROLLBACK_LIMIT)) else m
  }

  function Pull(m: Matcher, n: nat): Matcher
    requires n <= m.kept
  {
    Matching(Retract(m.grammar, n), m.kept - n)
  }

  function PushAll(m: Matcher, ts: seq<int>): Matcher {
    if ts == [] then m else Push(PushAll(m, ts[..|ts| - 1]), ts[|ts| - 1])
  }

  lemma {:induction false} PushAllFacts(m: Matcher, ts: seq<int>)
    ensures PushAll(m, ts).grammar == AcceptAll(m.grammar, ts)
    ensures |m.grammar.taken| <= |AcceptAll(m.grammar, ts).taken|
    ensures PushAll(m, ts).kept == Min(m.kept + |AcceptAll(m.grammar, ts).taken| - |m.grammar.taken|, ROLLBACK_LIMIT)
  {
    if ts != [] { PushAllFacts(m, ts[..|ts| - 1]); }
  }

  function PullAll(m: Option<Matcher>, n: nat): Option<Matcher>
    requires m.Some? ==> n <= m.value.kept
  {
    if m.Some? then Some(Pull(m.value, n)) else None
  }

  lemma PullSteps(m: Option<Matcher>, n: nat)
    requires m.Some? ==> n <= m.value.kept
    ensures PullAll(m, 0) == m
    ensures (m.Some? ==> n < m.value.kept) ==> PullAll(PullAll(m, n), 1) == PullAll(m, n + 1)
  {
    if m.Some? {
      var s := m.value.grammar.taken;
      assert s[..|s| - 0] == s;
      if n < |s| { assert s[..|s| - n][..|s| - n - 1] == s[..|s| - (n + 1)]; }
    }
  }

  // ---------------------------------------------------------------- the request

  class Request {
    var committed: seq<int>
    var appeared: Counts
    var pending: int
    var tokens: seq<int>
    var slots: seq<int>
    var parents: seq<int>
    var firstChild: seq<int>
    var matcher: Option<Matcher>

    function Drafted(): Draft
      reads this`tokens, this`slots, this`parents, this`firstChild
    {
      Draft(tokens, slots, parents, firstChild)
    }

    /** Counts match the committed tokens, a matcher has taken at least those committed
        under it, and the draft is a tree. */
    ghost predicate Valid()
      reads this
    {
      && appeared == CountsOf(committed)
      && (matcher.Some? ==> |committed| <= |matcher.value.grammar.taken|)
      && Tree(Drafted())
    }

    constructor (grammar: Option<(seq<int>, int) -> bool>)
      ensures Valid() && committed == [] && Drafted() == NO_DRAFT
      ensures matcher == if grammar.Some? then Some(NewMatcher(grammar.value)) else None
    {
      committed, appeared, pending := [], map[], 0;
      tokens, slots, parents, firstChild := [], [], [], [];
      matcher := if grammar.Some? then Some(NewMatcher(grammar.value)) else None;
    }

    /** Commit one token. It is committed and counted even when the grammar refuses it,
        which is reported as an error. */
    method CommitToken(t: int) returns (ok: bool)
      requires appeared == CountsOf(committed)
      modifies this`committed, this`appeared, this`pending, this`matcher
      ensures committed == old(committed) + [t] && appeared == CountsOf(committed)
      ensures pending == old(pending) + 1
      ensures ok <==> (matcher.Some? ==>
                       old(matcher).Some? && old(matcher).value.grammar.takes(old(matcher).value.grammar.taken, t))
      ensures if old(matcher).Some? then matcher == Some(Push(old(matcher).value, t)) else matcher == None
      ensures old(Valid()) && ok ==> Valid()
    {
      CountsPush(committed, t);
      committed := committed + [t];
      appeared := appeared[t := (if t in appeared then appeared[t] else 0) + 1];
      pending := pending + 1;
      ok := true;
      if matcher.Some? {
        var m := matcher.value;
        ok := m.grammar.takes(m.grammar.taken, t);
        matcher := Some(Push(m, t));
      }
    }

    /** Take back the last token. The matcher gives it back last, and may be unable to. */
    method PopToken() returns (ok: bool)
      requires committed != [] && appeared == CountsOf(committed)
      modifies this`committed, this`appeared, this`matcher
      ensures committed == old(committed)[..|old(committed)| - 1] && appeared == CountsOf(committed)
      ensures ok <==> (old(matcher).Some? ==> old(matcher).value.kept > 0)
      ensures matcher == if ok then PullAll(old(matcher), 1) else old(matcher)
    {
      var t := committed[|committed| - 1];
      CountsPop(committed);
      hide CountsOf;
      appeared := appeared[t := appeared[t] - 1];
      if appeared[t] == 0 {
        appeared := appeared - {t};
      }
      committed := committed[..|committed| - 1];
      ok := true;
      if matcher.Some? {
        if matcher.value.kept == 0 { return false; }
        matcher := Some(Pull(matcher.value, 1));
      }
    }

    /** Take back the last tokens, one at a time; more than there are is an error that
        changes nothing. A matcher that cannot give back so many stops the rollback with
        one more token gone from the request than from the matcher. */
    method RollbackTokens(count: int) returns (ok: bool)
      requires Valid()
      modifies this`committed, this`appeared, this`matcher
      ensures Valid()
      ensures ok <==> (count <= |old(committed)|
                       && (old(matcher).Some? && count > 0 ==> count <= old(matcher).value.kept))
      ensures ok || count > |old(committed)| ==>
                var n := if ok && count > 0 then count else 0;
                committed == old(committed)[..|old(committed)| - n] && matcher == PullAll(old(matcher), n)
      ensures !ok && count <= |old(committed)| ==>
                var n := old(matcher).value.kept;
                committed == old(committed)[..|old(committed)| - n - 1] && matcher == PullAll(old(matcher), n)
    {
      hide Tree, CountsOf;
      PullSteps(matcher, 0);
      if count > |committed| { return false; }
      var i: nat := 0;
      while i < count
        invariant i <= |old(committed)| && (i <= count || i == 0)
        invariant old(matcher).Some? ==> i <= old(matcher).value.kept
        invariant committed == old(committed)[..|old(committed)| - i]
        invariant appeared == CountsOf(committed)
        invariant matcher == PullAll(old(matcher), i)
      {
        PullSteps(old(matcher), i);
        ok := PopToken();
        if !ok { return; }
        i := i + 1;
      }
      ok := true;
    }

    /** Add a draft token below an earlier one or as a root. */
    method AddDraftToken(token: int, slot: int, parent: int)
      requires Tree(Drafted()) && -1 <= parent < |tokens|
      modifies this`tokens, this`slots, this`parents, this`firstChild
      ensures Drafted() == Added(old(Drafted()), token, slot, parent) && Tree(Drafted())
      ensures tokens == old(tokens) + [token] && slots == old(slots) + [slot] && parents == old(parents) + [parent]
    {
      AddKeepsTree(Drafted(), token, slot, parent);
      tokens := tokens + [token];
      slots := slots + [slot];
      parents := parents + [parent];
      firstChild := firstChild + [-1];
      if parent != -1 && firstChild[parent] == -1 {
        firstChild := firstChild[parent := |tokens| - 1];
      }
    }

    /** Remove the whole draft; every slot it used comes back once. */
    method RemoveAllDraftTokens() returns (removed: seq<int>)
      modifies this`tokens, this`slots, this`parents, this`firstChild
      ensures Drafted() == NO_DRAFT
      ensures removed == Deduplicated(old(slots))
    {
      removed := [];
      var seen: set<int> := {};
      for i := 0 to |slots|
        invariant slots == old(slots)
        invariant removed == Deduplicated(slots[..i])
        invariant seen == set s | s in slots[..i]
      {
        hide Tree;
        DeduplicatedFacts(slots[..i]);
        assert slots[..i + 1][..i] == slots[..i] && slots[..i + 1] == slots[..i] + [slots[i]];
        if slots[i] !in seen {
          seen := seen + {slots[i]};
          removed := removed + [slots[i]];
        }
      }
      assert slots[..|slots|] == slots;
      tokens, slots, parents, firstChild := [], [], [], [];
    }
  }

  /** The first occurrence of every entry, in order. */
  function Deduplicated(s: seq<int>): seq<int> {
    if s == [] then []
    else
      var front := s[..|s| - 1];
      if s[|s| - 1] in front then Deduplicated(front) else Deduplicated(front) + [s[|s| - 1]]
  }

  lemma {:induction false} DeduplicatedFacts(s: seq<int>)
    ensures forall x :: x in Deduplicated(s) <==> x in s
    ensures NoRepeats(Deduplicated(s))
  {
    if s != [] {
      var front, x := s[..|s| - 1], s[|s| - 1];
      DeduplicatedFacts(front);
      assert s == front + [x];
      if x !in front { assert x !in Deduplicated(front); }
    }
  }

  /** The slots come in the order in which they first occur. */
  lemma {:induction false} DeduplicatedOrder(s: seq<int>, x: int, y: int, i: nat)
    requires i < |s| && s[i] == x && x !in s[..i] && y in s && y !in s[..i + 1]
    ensures exists a, b {:trigger Deduplicated(s)[a], Deduplicated(s)[b]} ::
              0 <= a < b < |Deduplicated(s)| && Deduplicated(s)[a] == x && Deduplicated(s)[b] == y
  {
    var n := |s| - 1;
    var front := s[..n];
    assert s == front + [s[n]] && front[..i] == s[..i] && x in front;
    DeduplicatedFacts(front);
    if y in front {
      assert front[..i + 1] == s[..i + 1];
      DeduplicatedOrder(front, x, y, i);
      var a, b :| 0 <= a < b < |Deduplicated(front)| && Deduplicated(front)[a] == x && Deduplicated(front)[b] == y;
      assert Deduplicated(s)[a] == x && Deduplicated(s)[b] == y;
    } else {
      var a :| 0 <= a < |Deduplicated(front)| && Deduplicated(front)[a] == x;
      assert Deduplicated(s) == Deduplicated(front) + [y];
      assert Deduplicated(s)[a] == x && Deduplicated(s)[|Deduplicated(front)|] == y;
    }
  }

  /** The grammar, if any, takes the tokens one after the other. */
  predicate TakenByAll(m: Option<Matcher>, ts: seq<int>) {
    m.Some? ==> TakesAll(m.value.grammar, ts)
  }

  lemma TakenNext(m: Option<Matcher>, ts: seq<int>, i: nat)
    requires i < |ts|
    ensures TakenByAll(m, ts[..i + 1])
            <==> TakenByAll(m, ts[..i])
                 && (m.Some? ==> m.value.grammar.takes(m.value.grammar.taken + ts[..i], ts[i]))
    ensures TakenByAll(m, ts[..0])
  {
    assert ts[..i + 1][..i] == ts[..i] && ts[..i + 1][i] == ts[i];
  }

  lemma {:induction false} TakenPrefix(m: Option<Matcher>, ts: seq<int>, i: nat)
    requires i <= |ts| && !TakenByAll(m, ts[..i])
    ensures !TakenByAll(m, ts)
    decreases |ts| - i
  {
    if i < |ts| {
      TakenNext(m, ts, i);
      TakenPrefix(m, ts, i + 1);
    } else {
      assert ts[..i] == ts;
    }
  }

  /** The matcher has taken these tokens behind those of m. */
  ghost predicate Ahead(m: Option<Matcher>, m': Option<Matcher>, ts: seq<int>) {
    if m.None? then m'.None?
    else
      && m'.Some? && m'.value.grammar == m.value.grammar.(taken := m.value.grammar.taken + ts)
      && m'.value.kept == Min(m.value.kept + |ts|, ROLLBACK_LIMIT)
  }

  lemma AheadNext(m: Option<Matcher>, m': Option<Matcher>, ts: seq<int>, i: nat)
    requires i < |ts| && Ahead(m, m', ts[..i]) && TakenByAll(m, ts[..i])
    ensures m'.Some? <==> m.Some?
    ensures TakenByAll(m, ts[..i + 1]) <==> (m.Some? ==> m'.value.grammar.takes(m'.value.grammar.taken, ts[i]))
    ensures TakenByAll(m, ts[..i + 1]) ==> Ahead(m, if m.Some? then Some(Push(m'.value, ts[i])) else None, ts[..i + 1])
  {
    TakenNext(m, ts, i);
    assert ts[..i + 1] == ts[..i] + [ts[i]];
    if m.Some? {
      assert m.value.grammar.taken + ts[..i + 1] == m.value.grammar.taken + ts[..i] + [ts[i]];
    }
  }

  /** A matcher that has given back the last n tokens it took: it is where it was, but can
      give back no more than the limit less n. */
  function Spent(m: Matcher, n: nat): Matcher
    requires n <= ROLLBACK_LIMIT
  {
    Matching(m.grammar, Min(m.kept, ROLLBACK_LIMIT - n))
  }

  lemma PulledBack(m: Option<Matcher>, m': Option<Matcher>, ts: seq<int>)
    requires Ahead(m, m', ts)
    ensures m'.Some? <==> m.Some?
    ensures m'.Some? && |ts| > 0 ==> (|ts| <= m'.value.kept <==> |ts| <= ROLLBACK_LIMIT)
    ensures m.None? && m'.None? ==> PullAll(m', |ts|) == None
    ensures m'.Some? && |ts| <= ROLLBACK_LIMIT ==>
              |ts| <= m'.value.kept && PullAll(m', |ts|) == Some(Spent(m.value, |ts|))
    ensures m'.Some? && |ts| > ROLLBACK_LIMIT ==> m'.value.kept == ROLLBACK_LIMIT
  {
    if m.Some? {
      var g := m.value.grammar;
      assert (g.taken + ts)[..|g.taken + ts| - |ts|] == g.taken;
    }
  }

  /** Committing tokens one by one and rolling the same number back. It succeeds exactly if
      the grammar takes the tokens and a matcher can give back so many, and then restores
      tokens, counts and what the matcher has taken; the matcher can give back less than
      before, and the number of tokens for the next decode stays raised. */
  method CommitThenRollback(r: Request, ts: seq<int>) returns (ok: bool)
    requires r.Valid()
    modifies r
    ensures ok <==> TakenByAll(old(r.matcher), ts) && (old(r.matcher).Some? ==> |ts| <= ROLLBACK_LIMIT)
    ensures ok ==> r.Valid()
    ensures ok ==> r.committed == old(r.committed) && r.appeared == old(r.appeared)
    ensures ok ==> r.matcher == if old(r.matcher).Some? then Some(Spent(old(r.matcher).value, |ts|)) else None
    ensures ok ==> r.pending == old(r.pending) + |ts|
    ensures r.Drafted() == old(r.Drafted())
    ensures !TakenByAll(old(r.matcher), ts) ==> exists k: nat ::
              && k < |ts| && r.committed == old(r.committed) + ts[..k + 1]
              && TakenByAll(old(r.matcher), ts[..k]) && !TakenByAll(old(r.matcher), ts[..k + 1])
    ensures TakenByAll(old(r.matcher), ts) && !ok ==>
              |ts| > ROLLBACK_LIMIT && r.committed == old(r.committed) + ts[..|ts| - ROLLBACK_LIMIT - 1]
  {
    hide Tree, CountsOf, TakenByAll, Ahead, PullAll;
    ghost var m := r.matcher;
    var i: nat := 0;
    StartAhead(m, ts);
    while i < |ts|
      invariant i <= |ts| && r.Valid()
      invariant r.committed == old(r.committed) + ts[..i]
      invariant r.Drafted() == old(r.Drafted()) && r.pending == old(r.pending) + i
      invariant Ahead(m, r.matcher, ts[..i]) && TakenByAll(m, ts[..i])
    {
      assert ts[..i + 1] == ts[..i] + [ts[i]];
      AheadNext(m, r.matcher, ts, i);
      ok := r.CommitToken(ts[i]);
      if !ok {
        TakenPrefix(m, ts, i + 1);
        return;
      }
      i := i + 1;
    }
    assert ts[..i] == ts;
    PulledBack(m, r.matcher, ts);
    ok := r.RollbackTokens(|ts|);
    assert old(r.committed) + ts[..|ts| - 0] == old(r.committed) + ts;
  }

  lemma StartAhead(m: Option<Matcher>, ts: seq<int>)
    ensures Ahead(m, m, ts[..0]) && TakenByAll(m, ts[..0])
  {
    if m.Some? { assert m.value.grammar.taken + [] == m.value.grammar.taken; }
  }
}
