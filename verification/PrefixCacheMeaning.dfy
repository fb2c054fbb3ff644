/** What the calls of the prefix cache do to those who use it: when an insertion reuses, forks
    or starts from nothing, what recycling and rolling back keep, and what is removed. */
module PrefixCacheMeaning {
  import opened RadixPages
  import opened RadixSearch
  import opened PrefixCacheSpec

  // ---------------------------------------------------------------- pending extensions

  /** The tokens a log appends to a sequence. */
  function Appended(log: seq<Extension>, id: SeqId): seq<Token> {
    if log == [] then []
    else Appended(log[..|log| - 1], id) + if log[|log| - 1].id == id then log[|log| - 1].tokens else []
  }

  /** After a commit every stored sequence ends with what was appended to it, in order. */
  lemma {:induction false} CommittedMeans(m: map<SeqId, seq<Token>>, log: seq<Extension>)
    ensures Committed(m, log).Keys == m.Keys
    ensures forall id :: id in m ==> Committed(m, log)[id] == m[id] + Appended(log, id)
  {
    CommittedKeys(m, log);
    if log == [] {
      assert forall id :: id in m ==> m[id] + [] == m[id];
    } else {
      var front, e := log[..|log| - 1], log[|log| - 1];
      CommittedMeans(m, front);
      assert log == front + [e];
      CommittedAppend(m, front, e);
    }
  }

  // ---------------------------------------------------------------- insertion

  /** Insertion when nothing stored starts like the text: an empty new sequence. */
  lemma InsertUnmatched(c: Cache, id: SeqId, tokens: seq<Token>, w: Window, r: MatchedResult, c': Cache)
    requires Inv(c) && Step(c, Insert(id, tokens, w, r), c')
    requires |tokens| > 1 ==> forall x :: x in Settled(c).contents && Settled(c).contents[x] != [] ==>
               Settled(c).contents[x][0] != tokens[0]
    ensures r == MatchedResult(0, -1, -1, 0)
  {
    var stored, text := Settled(c).contents, tokens[..|tokens| - 1];
    var m: nat :| Longest(stored, text, m);
    hide Inv, CanReuse, CanFork, Committed;
    if m > 0 {
      var x :| Attains(stored, text, m, x);
      ShareAt(stored[x], text, m, 0);
      assert false;
    }
    OnlyLongest(Settled(c), id, tokens, w, r, c', 0);
  }

  lemma OnlyLongest(s: Cache, id: SeqId, tokens: seq<Token>, w: Window, r: MatchedResult, c': Cache, m: nat)
    requires tokens != [] && Inserts(s, id, tokens, w, r, c') && Longest(s.contents, tokens[..|tokens| - 1], m)
    ensures
      var text := tokens[..|tokens| - 1];
      if m > 0 && exists x :: CanReuse(s, text, m, w, x) then
        r.prefilledOffset == m && r.forkedSeqId == -1 && CanReuse(s, text, m, w, r.reusedSeqId)
      else if m > 0 && exists x :: CanFork(s, text, m, w, x) then
        r == MatchedResult(m, r.forkedSeqId, -1, 0) && CanFork(s, text, m, w, r.forkedSeqId)
      else r == MatchedResult(0, -1, -1, 0)
  {
    var text := tokens[..|tokens| - 1];
    hide Longest, CanReuse, CanFork, Attains;
    forall k: nat | Longest(s.contents, text, k) ensures k == m { LongestUnique(s.contents, text, k, m); }
  }

  /** x starts with the first m of the tokens. */
  predicate StartsWith(stored: map<SeqId, seq<Token>>, x: SeqId, tokens: seq<Token>, m: nat) {
    x in stored && m <= |stored[x]| && m <= |tokens| && stored[x][..m] == tokens[..m]
  }

  /** Some stored sequence starts with the first m tokens, none with more, and the last token
      does not count. */
  ghost predicate BestMatch(stored: map<SeqId, seq<Token>>, tokens: seq<Token>, m: nat) {
    && 0 < m < |tokens|
    && (exists x :: StartsWith(stored, x, tokens, m))
    && (forall x, k: nat {:trigger StartsWith(stored, x, tokens, k)} ::
          m < k < |tokens| ==> !StartsWith(stored, x, tokens, k))
  }

  /** A recycling sequence with the same window whose tokens are the match, or without a
      window, are covered by it to more than nine tenths. */
  ghost predicate WorthReusing(c: Cache, tokens: seq<Token>, w: Window, m: nat, x: SeqId) {
    var stored := Settled(c).contents;
    && StartsWith(stored, x, tokens, m)
    && x in c.states && c.states[x] == Recycling && x in c.windows && c.windows[x] == w
    && if w.size == -1 then 10 * m > 9 * |stored[x]| else |stored[x]| == m
  }

  /** A sequence without a window, for an insertion without one; unless forks are allowed
      anywhere it has to end at the match. */
  ghost predicate WorthForking(c: Cache, tokens: seq<Token>, w: Window, m: nat, x: SeqId) {
    var stored := Settled(c).contents;
    && StartsWith(stored, x, tokens, m)
    && w.size == -1 && x in c.windows && c.windows[x].size == -1
    && (!c.nonTailForks ==> |stored[x]| == m)
  }

  lemma StartsIsAttains(stored: map<SeqId, seq<Token>>, tokens: seq<Token>, m: nat, x: SeqId)
    requires m < |tokens|
    ensures StartsWith(stored, x, tokens, m) <==> Attains(stored, tokens[..|tokens| - 1], m, x)
  {
    assert tokens[..|tokens| - 1][..m] == tokens[..m];
  }

  lemma BestIsLongest(stored: map<SeqId, seq<Token>>, tokens: seq<Token>, m: nat)
    requires BestMatch(stored, tokens, m)
    ensures Longest(stored, tokens[..|tokens| - 1], m)
  {
    var text := tokens[..|tokens| - 1];
    var x :| StartsWith(stored, x, tokens, m);
    StartsIsAttains(stored, tokens, m, x);
    forall y, k: nat | Attains(stored, text, k, y) ensures k <= m {
      StartsIsAttains(stored, tokens, k, y);
    }
  }

  /** Reuse in the words of a caller. */
  lemma ReuseIff(c: Cache, tokens: seq<Token>, w: Window, m: nat, x: SeqId)
    requires m < |tokens|
    ensures CanReuse(Settled(c), tokens[..|tokens| - 1], m, w, x)
            <==> WorthReusing(c, tokens, w, m, x)
                 && (w.size == -1 ==> forall y {:trigger Reusable(Settled(c), tokens[..|tokens| - 1], m, w, y)} ::
                       Reusable(Settled(c), tokens[..|tokens| - 1], m, w, y) ==>
                         |Settled(c).contents[x]| <= |Settled(c).contents[y]|)
  {
    StartsIsAttains(Settled(c).contents, tokens, m, x);
    hide Committed, Share, StartsWith;
  }

  lemma ForkIff(c: Cache, tokens: seq<Token>, w: Window, m: nat, x: SeqId)
    requires m < |tokens|
    ensures CanFork(Settled(c), tokens[..|tokens| - 1], m, w, x) <==> WorthForking(c, tokens, w, m, x)
  {
    StartsIsAttains(Settled(c).contents, tokens, m, x);
    hide Committed, Share, StartsWith;
  }

  /** If some candidate is worth reusing, a shortest one is, and it is no longer. */
  lemma ShortestIsWorth(c: Cache, tokens: seq<Token>, w: Window, m: nat, x: SeqId)
    requires m < |tokens| && WorthReusing(c, tokens, w, m, x)
    ensures
      var s, text := Settled(c), tokens[..|tokens| - 1];
      exists y :: CanReuse(s, text, m, w, y)
    decreases |Settled(c).contents[x]|
  {
    var s, text := Settled(c), tokens[..|tokens| - 1];
    ReuseIff(c, tokens, w, m, x);
    hide Committed, Share, StartsWith, CanReuse;
    if !CanReuse(s, text, m, w, x) {
      var y :| Reusable(s, text, m, w, y) && |s.contents[y]| < |s.contents[x]|;
      StartsIsAttains(s.contents, tokens, m, y);
      ShortestIsWorth(c, tokens, w, m, y);
    }
  }

  lemma NoShorter(c: Cache, tokens: seq<Token>, w: Window, m: nat, x: SeqId, y: SeqId)
    requires m < |tokens| && CanReuse(Settled(c), tokens[..|tokens| - 1], m, w, x) && WorthReusing(c, tokens, w, m, y)
    ensures x in Settled(c).contents && |Settled(c).contents[x]| <= |Settled(c).contents[y]|
  {
    ReuseIff(c, tokens, w, m, x);
    StartsIsAttains(Settled(c).contents, tokens, m, y);
    hide Committed, StartsWith, Share;
  }

  /** When an insertion reuses, when it forks, and when it starts from nothing, given the best
      match: reuse comes first and takes a shortest candidate; what it has beyond the match is
      popped. */
  lemma InsertExactly(c: Cache, id: SeqId, tokens: seq<Token>, w: Window, r: MatchedResult, c': Cache, m: nat)
    requires Inv(c) && Step(c, Insert(id, tokens, w, r), c')
    requires BestMatch(Settled(c).contents, tokens, m)
    ensures r.reusedSeqId != -1 <==> exists x :: WorthReusing(c, tokens, w, m, x)
    ensures r.forkedSeqId != -1 <==>
              r.reusedSeqId == -1 && exists x :: WorthForking(c, tokens, w, m, x)
    ensures r.prefilledOffset == if r.reusedSeqId == -1 && r.forkedSeqId == -1 then 0 else m
    ensures r.reusedSeqId != -1 ==>
              && WorthReusing(c, tokens, w, m, r.reusedSeqId)
              && r.poppedTokens == |Settled(c).contents[r.reusedSeqId]| - m
              && forall y {:trigger WorthReusing(c, tokens, w, m, y)} :: WorthReusing(c, tokens, w, m, y) ==>
                   |Settled(c).contents[r.reusedSeqId]| <= |Settled(c).contents[y]|
    ensures r.forkedSeqId != -1 ==> WorthForking(c, tokens, w, m, r.forkedSeqId)
    ensures r.reusedSeqId == -1 ==> r.poppedTokens == 0
  {
    hide Inv, Committed, StartsWith, Longest, CanReuse, CanFork, Share;
    var s, text := Settled(c), tokens[..|tokens| - 1];
    BestIsLongest(s.contents, tokens, m);
    OnlyLongest(s, id, tokens, w, r, c', m);
    NamesNatural(c, tokens, w, m);
    SettledInv(c);
    Popped(s, id, tokens, w, r, c');
    forall x | CanFork(s, text, m, w, x) || WorthForking(c, tokens, w, m, x)
      ensures CanFork(s, text, m, w, x) && WorthForking(c, tokens, w, m, x)
    {
      ForkIff(c, tokens, w, m, x);
    }
    forall x | CanReuse(s, text, m, w, x) ensures WorthReusing(c, tokens, w, m, x) { ReuseIff(c, tokens, w, m, x); }
    forall x | WorthReusing(c, tokens, w, m, x) ensures exists y :: CanReuse(s, text, m, w, y) {
      ShortestIsWorth(c, tokens, w, m, x);
    }
    forall x, y | CanReuse(s, text, m, w, x) && WorthReusing(c, tokens, w, m, y)
      ensures |s.contents[x]| <= |s.contents[y]|
    {
      NoShorter(c, tokens, w, m, x, y);
    }
    hide Inserts, Step;
  }

  lemma NamesNatural(c: Cache, tokens: seq<Token>, w: Window, m: nat)
    requires Inv(c)
    ensures forall x :: WorthReusing(c, tokens, w, m, x) ==> x >= 0
    ensures forall x :: WorthForking(c, tokens, w, m, x) ==> x >= 0
  {
    hide Committed, StartsWith, LruInverse, PendingLive;
  }

  lemma Popped(s: Cache, id: SeqId, tokens: seq<Token>, w: Window, r: MatchedResult, c': Cache)
    requires Inv(s) && tokens != [] && Inserts(s, id, tokens, w, r, c')
    ensures r.reusedSeqId != -1 ==>
              r.reusedSeqId in s.contents && r.poppedTokens == |s.contents[r.reusedSeqId]| - r.prefilledOffset
    ensures r.reusedSeqId == -1 ==> r.poppedTokens == 0
  {
    hide Longest;
  }

  /** What an insertion leaves: the new or reused sequence is active with its window and holds
      the prefilled tokens; every other sequence stays as it was, and nothing is removed. */
  lemma InsertLeaves(c: Cache, id: SeqId, tokens: seq<Token>, w: Window, r: MatchedResult, c': Cache)
    requires Inv(c) && Step(c, Insert(id, tokens, w, r), c')
    ensures r.prefilledOffset < |tokens|
    ensures
      var x := if r.reusedSeqId != -1 then r.reusedSeqId else id;
      && c'.contents == Settled(c).contents[x := tokens[..r.prefilledOffset]] && c'.pending == []
      && c'.states == c.states[x := Active] && c'.windows == c.windows[x := w]
      && c'.lrus == c.lrus - {x} && c'.counter == c.counter
      && c'.removed == c.removed && c'.maxRecycling == c.maxRecycling && c'.nonTailForks == c.nonTailForks
  {
    SettledInv(c);
    InsertedState(Settled(c), id, tokens, w, r, c');
    hide Inv, Inserts, Committed;
  }

  lemma InsertedState(s: Cache, id: SeqId, tokens: seq<Token>, w: Window, r: MatchedResult, c': Cache)
    requires Inv(s) && id >= 0 && id !in s.states && tokens != [] && Inserts(s, id, tokens, w, r, c')
    ensures r.prefilledOffset < |tokens|
    ensures
      var x := if r.reusedSeqId != -1 then r.reusedSeqId else id;
      && c'.contents == s.contents[x := tokens[..r.prefilledOffset]] && c'.pending == s.pending
      && c'.states == s.states[x := Active] && c'.windows == s.windows[x := w]
      && c'.lrus == s.lrus - {x} && c'.counter == s.counter
      && c'.removed == s.removed && c'.maxRecycling == s.maxRecycling && c'.nonTailForks == s.nonTailForks
  {
    InsertsShape(s, id, tokens, w, r, c');
    assert id !in s.lrus;
    hide Inserts, LruInverse, PendingLive;
    if r.reusedSeqId != -1 {
      assert s.windows[r.reusedSeqId := w] == s.windows;
    } else {
      assert s.lrus - {id} == s.lrus;
    }
  }

  lemma InsertsShape(s: Cache, id: SeqId, tokens: seq<Token>, w: Window, r: MatchedResult, c': Cache)
    requires Inv(s) && tokens != [] && Inserts(s, id, tokens, w, r, c')
    ensures r.prefilledOffset < |tokens|
    ensures r.reusedSeqId != -1 ==>
              && r.reusedSeqId in s.lrus && r.reusedSeqId in s.windows && s.windows[r.reusedSeqId] == w
              && c' == Reused(s, r.reusedSeqId, tokens[..r.prefilledOffset])
    ensures r.reusedSeqId == -1 ==> c' == Added(s, id, tokens[..r.prefilledOffset], w)
  {
    var text := tokens[..|tokens| - 1];
    assert forall k: nat :: k <= |text| ==> text[..k] == tokens[..k];
    hide LruInverse, PendingLive, Reused, Added, CanFork, Attains;
  }

  // ---------------------------------------------------------------- the other calls

  /** Recycling is for active sequences. Lazily, with room for recycling sequences, the sequence
      stays with its tokens and its window; otherwise it is removed and reported. */
  lemma RecycleKeeps(c: Cache, id: SeqId, lazy: bool, accepted: bool, c': Cache)
    requires Inv(c) && Step(c, Recycle(id, lazy, accepted), c')
    ensures accepted <==> id in c.states && c.states[id] == Active
    ensures !accepted ==> c' == Settled(c)
    ensures accepted && lazy && c.maxRecycling != 0 ==>
              && id in c'.states && c'.states[id] == Recycling
              && id in c'.windows && id in c.windows && c'.windows[id] == c.windows[id]
              && id in c'.contents && id in Settled(c).contents && c'.contents[id] == Settled(c).contents[id]
              && id in c'.lrus && c'.lrus[id] == c.counter + 1 && c'.counter == c.counter + 1
    ensures accepted && !(lazy && c.maxRecycling != 0) ==>
              && c'.contents == Settled(c).contents - {id} && c'.states == c.states - {id}
              && c'.windows == c.windows - {id} && c'.lrus == c.lrus && c'.removed == c.removed + [id]
  {
    SettledInv(c);
    hide LruInverse, PendingLive, Committed;
    assert id in Settled(c).states <==> id in c.states;
  }

  /** Lazily recycling into a full cache removes exactly one sequence that was recycling before,
      reports it, and changes no other; with room left nothing is removed. */
  lemma RecycleEvicts(c: Cache, id: SeqId, c': Cache)
    requires Inv(c) && Step(c, Recycle(id, true, true), c') && c.maxRecycling != 0
    ensures |c.lrus| != c.maxRecycling ==> c'.removed == c.removed && c'.contents == Settled(c).contents
    ensures |c.lrus| == c.maxRecycling ==> exists x {:trigger c.states[x]} ::
              && x in c.states && c.states[x] == Recycling && c'.removed == c.removed + [x]
              && c'.contents == Settled(c).contents - {x}
    ensures forall x :: x != id && x in c'.states ==>
              && x in c.states && c'.states[x] == c.states[x]
              && x in c'.windows && x in c.windows && c'.windows[x] == c.windows[x]
  {
    hide LruInverse, PendingLive, Committed, Stamped, Evicted;
    SettledInv(c);
    CommittedKeys(c.contents, c.pending);
    var s := Settled(c);
    if |c.lrus| == c.maxRecycling {
      var x :| x in s.lrus && c' == Stamped(Evicted(s, x), id);
      EvictedState(s, x, id);
      assert c.states[x] == Recycling;
    } else {
      StampedState(s, id);
    }
  }

  lemma StampedState(s: Cache, id: SeqId)
    ensures
      var d := Stamped(s, id);
      && d.contents == s.contents && d.windows == s.windows && d.removed == s.removed
      && d.states == s.states[id := Recycling]
  {
  }

  lemma EvictedState(s: Cache, x: SeqId, id: SeqId)
    requires x in s.lrus
    ensures
      var d := Stamped(Evicted(s, x), id);
      && d.contents == s.contents - {x} && d.windows == s.windows - {x} && d.removed == s.removed + [x]
      && d.states == (s.states - {x})[id := Recycling]
  {
  }

  /** A rollback drops exactly the last n tokens of an active sequence that has so many. */
  lemma RollBackDrops(c: Cache, id: SeqId, n: nat, done: bool, c': Cache)
    requires Inv(c) && Step(c, RollBack(id, n, done), c')
    ensures done <==>
              && id in c.states && c.states[id] == Active
              && id in Settled(c).contents && 0 < n <= |Settled(c).contents[id]|
    ensures
      var stored := Settled(c).contents;
      c' == c.(pending := [], contents := if done then stored[id := stored[id][..|stored[id]| - n]] else stored)
  {
    SettledInv(c);
    hide LruInverse, PendingLive, Committed;
  }

  /** Freeing memory removes exactly one recycling sequence if there is one. It is reported; the
      tokens of all others and the pending extensions stay. */
  lemma FreeRemoves(c: Cache, freed: bool, c': Cache)
    requires Inv(c) && Step(c, TryFree(freed), c')
    ensures freed <==> exists x {:trigger c.states[x]} :: x in c.states && c.states[x] == Recycling
    ensures !freed ==> c' == c
    ensures freed ==> exists x {:trigger c.states[x]} ::
              && x in c.states && c.states[x] == Recycling
              && c'.contents == c.contents - {x} && c'.states == c.states - {x} && c'.windows == c.windows - {x}
              && c'.lrus == c.lrus - {x} && c'.removed == c.removed + [x] && c'.pending == c.pending
              && c'.maxRecycling == c.maxRecycling && c'.nonTailForks == c.nonTailForks
  {
    hide LruInverse, PendingLive;
    if c.lrus != map[] { StampedIsRecycling(c); }
    if freed {
      var x :| x in c.lrus && c' == Evicted(c, x);
      assert c.states[x] == Recycling;
    }
  }

  lemma StampedIsRecycling(c: Cache)
    requires Inv(c) && c.lrus != map[]
    ensures exists x {:trigger c.states[x]} :: x in c.states && c.states[x] == Recycling
  {
    hide LruInverse, PendingLive;
    SomeStamp(c.lrus);
    var x :| x in c.lrus;
    assert c.states[x] == Recycling;
  }

  lemma SomeStamp(lrus: map<SeqId, nat>)
    ensures lrus == map[] || exists x :: x in lrus
  {
    if forall x :: x !in lrus { assert lrus == map[]; }
  }

  /** A commit makes the extensions and changes nothing else; an extension waits until then. */
  lemma ExtendWaits(c: Cache, e: Extension, c': Cache, d: Cache)
    requires Inv(c) && Step(c, Extend(e), c') && Step(c', Commit, d)
    ensures c'.contents == c.contents
    ensures d == c.(contents := d.contents, pending := []) && d.contents.Keys == c.contents.Keys
    ensures Settled(c).contents.Keys == c.contents.Keys
    ensures forall x :: x in c.contents ==>
              d.contents[x] == Settled(c).contents[x] + if x == e.id then e.tokens else []
  {
    CommittedKeys(c.contents, c.pending);
    CommittedAppend(c.contents, c.pending, e);
    hide Inv, Committed;
  }
}
