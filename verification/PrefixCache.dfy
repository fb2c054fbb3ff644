/** The prefix cache: the object that drives the paged radix tree and keeps the state, the
    window and the recycling time stamp of every sequence. Each method takes one step of
    the state machine in PrefixCacheSpec. */
module PrefixCache {
  import opened RadixPages
  import opened RadixSearch
  import opened RadixTree
  import opened PrefixCacheSpec

  /** The tree's answer, in the terms of the cache. */
  lemma MatchedMeaning(stored: map<SeqId, seq<Token>>, text: seq<Token>, m: nat, ids: seq<SeqId>)
    requires IsLongestMatch(stored, text, m, ids)
    ensures Longest(stored, text, m)
    ensures m > 0 ==> ids != [] && Matched(stored, text, m, ids)
    ensures m == 0 ==> ids == []
  {
    if m > 0 { assert Attains(stored, text, m, ids[0]) by { assert ids[0] in ids; } }
  }

  lemma CommitNext(m: map<SeqId, seq<Token>>, log: seq<Extension>, i: nat)
    requires i < |log|
    ensures Committed(m, log[i..]) == Committed(Extended(m, log[i]), log[i + 1..])
  {
    assert log[i..][0] == log[i] && log[i..][1..] == log[i + 1..];
  }

  class RadixPrefixCache {
    const tree: PagedRadixTree
    var pending: seq<Extension>
    var states: map<SeqId, SeqState>
    var windows: map<SeqId, Window>
    var lrus: map<SeqId, nat>
    var reversed: map<nat, SeqId>
    var lruCounter: nat
    /** The calls of the remove callback so far. */
    var removed: seq<SeqId>
    const maxRecycling: int
    const nonTailForks: bool

    ghost function Abs(): Cache
      reads this, tree
    {
      Cache(tree.Contents(), pending, states, windows, lrus, reversed, lruCounter, removed, maxRecycling, nonTailForks)
    }

    ghost predicate Valid()
      reads this, tree
    {
      tree.Valid() && Inv(Abs())
    }

    constructor (maxRecycling: int, nonTailForks: bool)
      ensures Valid() && fresh(tree)
      ensures Abs() == Empty(maxRecycling, nonTailForks)
    {
      hide PagedRadixTree.Valid, PagedRadixTree.Contents, Inv;
      EmptyInv(maxRecycling, nonTailForks);
      tree := new PagedRadixTree();
      pending, states, windows, lrus, reversed, lruCounter, removed := [], map[], map[], map[], map[], 0, [];
      this.maxRecycling, this.nonTailForks := maxRecycling, nonTailForks;
    }

    /** Remember an extension; it is made at the next commit. */
    method ExtendSequence(id: SeqId, tokens: seq<Token>)
      requires Valid() && (id in states ==> states[id] == Active)
      modifies this`pending
      ensures Valid() && Step(old(Abs()), Extend(Extension(id, tokens)), Abs())
    {
      hide PagedRadixTree.Valid, PagedRadixTree.Contents, Inv;
      OnlyRecyclingStamped(Abs(), id);
      pending := pending + [Extension(id, tokens)];
      ghost var c := old(Abs());
      assert Abs() == c.(pending := c.pending + [Extension(id, tokens)]);
      StepInv(c, Extend(Extension(id, tokens)), Abs());
    }

    /** Make all pending extensions. */
    method CommitSequenceExtention()
      requires Valid()
      modifies this`pending, tree
      ensures Valid() && Abs() == Settled(old(Abs()))
    {
      hide PagedRadixTree.Valid, PagedRadixTree.Contents, Inv, Committed;
      ghost var c := Abs();
      SettledInv(c);
      ghost var m := tree.Contents();
      var i := 0;
      assert pending[0..] == pending;
      while i < |pending|
        invariant i <= |pending| && pending == c.pending && tree.Valid()
        invariant Committed(tree.Contents(), pending[i..]) == Committed(m, pending)
      {
        CommitNext(tree.Contents(), pending, i);
        var stored := tree.HasSequence(pending[i].id);
        if stored {
          var extended := tree.ExtendSequence(pending[i].id, pending[i].tokens);
        }
        i := i + 1;
      }
      assert pending[i..] == [];
      NothingPending(tree.Contents());
      pending := [];
      assert Abs() == Settled(c);
    }

    /** Roll back an active sequence; fails if it is not active or the tree refuses. */
    method RollBackSequence(id: SeqId, count: nat) returns (done: bool)
      requires Valid()
      modifies this`pending, tree
      ensures Valid() && Step(old(Abs()), RollBack(id, count, done), Abs())
    {
      hide PagedRadixTree.Valid, PagedRadixTree.Contents, Inv;
      ghost var c := Abs();
      CommitSequenceExtention();
      ghost var s := Abs();
      OnlyRecyclingStamped(s, id);
      if id !in states || states[id] != Active {
        return false;
      }
      done := tree.RollBackSequence(id, count);
      StepInv(c, RollBack(id, count, done), Abs());
    }

    /** Let go of an active sequence: keep it for reuse, or remove it at once. */
    method RecycleSequence(id: SeqId, lazy: bool) returns (accepted: bool)
      requires Valid()
      modifies this, tree
      ensures Valid() && Step(old(Abs()), Recycle(id, lazy, accepted), Abs())
    {
      hide PagedRadixTree.Valid, PagedRadixTree.Contents, Inv;
      ghost var c := Abs();
      CommitSequenceExtention();
      ghost var s := Abs();
      OnlyRecyclingStamped(s, id);
      if id !in states || states[id] != Active {
        return false;
      }
      if lazy && maxRecycling != 0 {
        if |lrus| == maxRecycling {
          FullIsNotEmpty(s);
          var freed := TryFreeMemory();
          assert freed;
        }
        Stamp(id);
      } else {
        RemoveNow(id);
      }
      StepInv(c, Recycle(id, lazy, true), Abs());
      return true;
    }

    /** Give a sequence the next recycling time stamp. */
    method Stamp(id: SeqId)
      modifies this`states, this`lrus, this`reversed, this`lruCounter
      ensures Abs() == Stamped(old(Abs()), id)
    {
      hide PagedRadixTree.Contents;
      states := states[id := Recycling];
      lruCounter := lruCounter + 1;
      lrus := lrus[id := lruCounter];
      reversed := reversed[lruCounter := id];
    }

    /** Remove a stored sequence and tell the callback. */
    method RemoveNow(id: SeqId)
      requires tree.Valid() && id in tree.Contents()
      modifies this`states, this`windows, this`removed, tree
      ensures tree.Valid() && Abs() == Gone(old(Abs()), id)
    {
      hide PagedRadixTree.Valid, PagedRadixTree.Contents;
      tree.RemoveSequence(id);
      removed := removed + [id];
      states := states - {id};
      windows := windows - {id};
    }

    /** Remove some recycling sequence, if there is one. */
    method TryFreeMemory() returns (freed: bool)
      requires Valid()
      modifies this`states, this`windows, this`lrus, this`reversed, this`removed, tree
      ensures Valid() && Step(old(Abs()), TryFree(freed), Abs())
    {
      hide PagedRadixTree.Valid, PagedRadixTree.Contents, Inv, Gone;
      ghost var c := Abs();
      SomeStamp(c);
      if reversed == map[] {
        return false;
      }
      var lru :| lru in reversed;
      var id := reversed[lru];
      StampedIsStored(c, lru);
      RemoveNow(id);
      lrus := lrus - {id};
      reversed := reversed - {lru};
      EvictedInv(c, id);
      GoneLrus(c, id);
      return true;
    }

    /** Make a recycling sequence active again. */
    method ReuseRecyclingSequence(id: SeqId)
      requires Valid() && id in lrus
      modifies this`states, this`lrus, this`reversed
      ensures Valid() && id in old(tree.Contents()) && Abs() == Reused(old(Abs()), id, old(tree.Contents())[id])
    {
      hide PagedRadixTree.Valid, PagedRadixTree.Contents, Inv;
      ghost var c := Abs();
      OnlyRecyclingStamped(c, id);
      ReusedInv(c, id, c.contents[id]);
      var lru := lrus[id];
      states := states[id := Active];
      lrus := lrus - {id};
      reversed := reversed - {lru};
      assert c.contents[id := c.contents[id]] == c.contents;
    }

    // -------------------------------------------------------------- insertion

    /** Insert a sequence, reusing or forking a stored one where that saves prefilling.
        Rejected when the window is malformed, the id is taken or there is no token. */
    method InsertSequence(id: SeqId, tokens: seq<Token>, w: Window) returns (accepted: bool, r: MatchedResult)
      requires Valid() && id >= 0
      modifies this, tree
      ensures Valid()
      ensures accepted <==> w.size != 0 && w.sink >= 0 && id !in old(states) && id !in old(windows) && tokens != []
      ensures Step(old(Abs()), if accepted then Insert(id, tokens, w, r) else RejectedInsert, Abs())
    {
      hide PagedRadixTree.Valid, PagedRadixTree.Contents, Inv, Inserts, Committed;
      ghost var c := Abs();
      r := MatchedResult(0, -1, -1, 0);
      if w.size == 0 || w.sink < 0 || id in states || id in windows || tokens == [] {
        return false, r;
      }
      CommitSequenceExtention();
      r := InsertCommitted(id, tokens, w);
      StepInv(c, Insert(id, tokens, w, r), Abs());
      return true, r;
    }

    method InsertCommitted(id: SeqId, tokens: seq<Token>, w: Window) returns (r: MatchedResult)
      requires Valid() && id >= 0 && id !in states && w.size != 0 && tokens != [] && pending == []
      modifies this, tree
      ensures tree.Valid() && Inserts(old(Abs()), id, tokens, w, r, Abs())
    {
      hide PagedRadixTree.Valid, PagedRadixTree.Contents, Inv, CanReuse, CanFork, Reusable, Longest,
        IsLongestMatch, Attains, Inserts, Reused, Added, NoReuse, NoFork, IsShortest, Matched;
      ghost var c := Abs();
      var text := tokens[..|tokens| - 1];
      var m, matched := tree.MatchPrefix(text);
      MatchedMeaning(c.contents, text, m, matched);
      OnlyRecyclingStamped(c, id);
      if m > 0 {
        LongestFits(c.contents, text, m);
        var done;
        if w.size != -1 {
          done, r := ReuseWithWindow(id, tokens, text, w, m, matched);
        } else {
          done, r := ReuseOrFork(id, tokens, text, w, m, matched);
        }
        if done { return; }
      }
      Add(id, w);
      ByAdd(c, id, tokens, text, w, m, Abs());
      return MatchedResult(0, -1, -1, 0);
    }

    /** With a sliding window only a recycling sequence with the same window that ends at the
        match can be used. */
    method ReuseWithWindow(id: SeqId, ghost tokens: seq<Token>, text: seq<Token>, w: Window, m: nat,
                           matched: seq<SeqId>)
      returns (done: bool, r: MatchedResult)
      requires Valid() && id >= 0 && id !in states && w.size != -1
      requires tokens != [] && text == tokens[..|tokens| - 1] && 0 < m < |tokens| && Longest(Abs().contents, text, m)
      requires Matched(Abs().contents, text, m, matched)
      modifies this, tree
      ensures tree.Valid() && (done ==> Inserts(old(Abs()), id, tokens, w, r, Abs()))
      ensures !done ==> Abs() == old(Abs()) && NoReuse(Abs(), text, m, w) && NoFork(Abs(), text, m, w)
    {
      hide PagedRadixTree.Valid, PagedRadixTree.Contents, Inv, CanReuse, CanFork, Reusable, Longest,
        IsLongestMatch, Attains, Inserts, Reused, Added, NoReuse, NoFork, IsShortest, Matched;
      ghost var c := Abs();
      r := MatchedResult(0, -1, -1, 0);
      NoForkWithWindow(c, text, m, w);
      var x := FindExact(text, m, matched, w);
      done := x != -1;
      if done {
        Reuse(x, m, m, text, w);
        ByReuse(c, id, tokens, text, w, m, x, Abs());
        r := MatchedResult(m, -1, x, 0);
      }
    }

    /** Without a window: reuse the shortest recycling match if at least nine tenths of it
        match, or else fork a match. */
    method ReuseOrFork(id: SeqId, ghost tokens: seq<Token>, text: seq<Token>, w: Window, m: nat, matched: seq<SeqId>)
      returns (done: bool, r: MatchedResult)
      requires Valid() && id >= 0 && id !in states && w.size == -1
      requires tokens != [] && text == tokens[..|tokens| - 1] && 0 < m < |tokens| && Longest(Abs().contents, text, m)
      requires Matched(Abs().contents, text, m, matched)
      modifies this, tree
      ensures tree.Valid() && (done ==> Inserts(old(Abs()), id, tokens, w, r, Abs()))
      ensures !done ==> Abs() == old(Abs()) && NoReuse(Abs(), text, m, w) && NoFork(Abs(), text, m, w)
    {
      hide PagedRadixTree.Valid, PagedRadixTree.Contents, Inv, CanReuse, CanFork, Reusable, Longest,
        IsLongestMatch, Attains, Inserts, Reused, Added, NoReuse, NoFork, IsShortest, Matched;
      ghost var c := Abs();
      var x, length := FindShortest(text, m, matched, w);
      ShortestReuse(c, text, m, w, x);
      if x != -1 && 10 * m > 9 * length {
        Reuse(x, m, length, text, w);
        ByReuse(c, id, tokens, text, w, m, x, Abs());
        return true, MatchedResult(m, -1, x, length - m);
      }
      x := FindFork(text, m, matched, w);
      if x != -1 {
        Fork(id, x, m, text, w);
        ByFork(c, id, tokens, text, w, m, x, Abs());
        return true, MatchedResult(m, x, -1, 0);
      }
      return false, MatchedResult(0, -1, -1, 0);
    }

    /** The first matched recycling sequence with the same window and no more tokens than
        the match, or -1. */
    method FindExact(text: seq<Token>, m: nat, matched: seq<SeqId>, w: Window) returns (x: SeqId)
      requires Valid() && w.size != -1 && Matched(Abs().contents, text, m, matched)
      ensures x == -1 ==> NoReuse(Abs(), text, m, w)
      ensures x != -1 ==> CanReuse(Abs(), text, m, w, x) && x in Abs().contents && |Abs().contents[x]| == m
    {
      hide PagedRadixTree.Valid, PagedRadixTree.Contents, Inv;
      ghost var c := Abs();
      var i := 0;
      while i < |matched|
        invariant i <= |matched|
        invariant forall k :: 0 <= k < i ==> !CanReuse(c, text, m, w, matched[k])
      {
        x := matched[i];
        assert x in matched;
        OnlyRecyclingStamped(c, x);
        if states[x] == Recycling && windows[x] == w {
          var length := tree.GetSequenceLength(x);
          if length == m {
            NamesAreNotNegative(c, x);
            return;
          }
        }
        i := i + 1;
      }
      forall y ensures !CanReuse(c, text, m, w, y) {
        if y in matched { var k :| 0 <= k < |matched| && matched[k] == y; }
      }
      x := -1;
    }

    /** The shortest matched recycling sequence with the same window, or -1. */
    method FindShortest(text: seq<Token>, m: nat, matched: seq<SeqId>, w: Window) returns (x: SeqId, length: nat)
      requires Valid() && Matched(Abs().contents, text, m, matched)
      ensures IsShortest(Abs(), text, m, w, x)
      ensures x != -1 ==> x in Abs().contents && length == |Abs().contents[x]|
    {
      hide PagedRadixTree.Valid, PagedRadixTree.Contents, Inv;
      ghost var c := Abs();
      x, length := -1, 0;
      var i := 0;
      while i < |matched|
        invariant i <= |matched|
        invariant x == -1 ==> forall k :: 0 <= k < i ==> !Reusable(c, text, m, w, matched[k])
        invariant x != -1 ==> Reusable(c, text, m, w, x) && length == |c.contents[x]|
        invariant x != -1 ==>
                    forall k :: 0 <= k < i && Reusable(c, text, m, w, matched[k]) ==> length <= |c.contents[matched[k]]|
      {
        var y := matched[i];
        assert y in matched;
        OnlyRecyclingStamped(c, y);
        if states[y] == Recycling && windows[y] == w {
          var n := tree.GetSequenceLength(y);
          NamesAreNotNegative(c, y);
          if x == -1 || n < length {
            x, length := y, n;
          }
        }
        i := i + 1;
      }
      forall y | Reusable(c, text, m, w, y) ensures exists k :: 0 <= k < |matched| && matched[k] == y {
        assert y in matched;
      }
    }

    /** The first matched sequence that may be forked at the match, or -1. */
    method FindFork(text: seq<Token>, m: nat, matched: seq<SeqId>, w: Window) returns (x: SeqId)
      requires Valid() && w.size == -1 && 0 < m && Matched(Abs().contents, text, m, matched)
      ensures x == -1 ==> NoFork(Abs(), text, m, w)
      ensures x != -1 ==> CanFork(Abs(), text, m, w, x)
    {
      hide PagedRadixTree.Valid, PagedRadixTree.Contents, Inv;
      ghost var c := Abs();
      x := -1;
      var longest := 0;
      var i := 0;
      while i < |matched|
        invariant i <= |matched|
        invariant x == -1 ==> longest == 0 && forall k :: 0 <= k < i ==> !CanFork(c, text, m, w, matched[k])
        invariant x != -1 ==> longest == m && CanFork(c, text, m, w, x)
      {
        var y := matched[i];
        assert y in matched;
        OnlyRecyclingStamped(c, y);
        NamesAreNotNegative(c, y);
        if windows[y].size == -1 {
          var length := tree.GetSequenceLength(y);
          if (nonTailForks || m == length) && m > longest {
            longest := m;
            x := y;
          }
        }
        i := i + 1;
      }
      forall y | CanFork(c, text, m, w, y) ensures exists k :: 0 <= k < |matched| && matched[k] == y {
        assert y in matched;
      }
    }

    /** Take over a recycling sequence, rolling back what it has beyond the match. */
    method Reuse(x: SeqId, m: nat, length: nat, text: seq<Token>, w: Window)
      requires Valid() && CanReuse(Abs(), text, m, w, x) && 0 < m <= |text| && length == |Abs().contents[x]|
      modifies this, tree
      ensures tree.Valid()
      ensures m <= length && x in old(lrus) && Abs() == Reused(old(Abs()), x, text[..m])
    {
      hide PagedRadixTree.Valid, PagedRadixTree.Contents, Inv;
      ghost var c := Abs();
      OnlyRecyclingStamped(c, x);
      ReuseRecyclingSequence(x);
      if length > m {
        var done := tree.RollBackSequence(x, length - m);
        assert length - (length - m) == m;
      } else {
        assert c.contents[x][..m] == c.contents[x];
      }
    }

    /** Fork a stored sequence at the match. */
    method Fork(id: SeqId, x: SeqId, m: nat, text: seq<Token>, w: Window)
      requires Valid() && CanFork(Abs(), text, m, w, x) && 0 < m <= |text| && id !in states
      modifies this`states, this`windows, tree
      ensures tree.Valid() && Abs() == Added(old(Abs()), id, text[..m], w)
    {
      hide PagedRadixTree.Valid, PagedRadixTree.Contents, Inv;
      OnlyRecyclingStamped(Abs(), id);
      var forked := tree.ForkSequence(id, x, m);
      states := states[id := Active];
      windows := windows[id := w];
    }

    /** Add an empty sequence. */
    method Add(id: SeqId, w: Window)
      requires Valid() && id !in states
      modifies this`states, this`windows, tree
      ensures tree.Valid() && Abs() == Added(old(Abs()), id, [], w)
    {
      hide PagedRadixTree.Valid, PagedRadixTree.Contents, Inv;
      OnlyRecyclingStamped(Abs(), id);
      var added := tree.AddSequence(id);
      states := states[id := Active];
      windows := windows[id := w];
    }
  }

  lemma NamesAreNotNegative(c: Cache, id: SeqId)
    requires Inv(c) && id in c.states
    ensures id != -1
  {
  }

  lemma LongestFits(stored: map<SeqId, seq<Token>>, text: seq<Token>, m: nat)
    requires Longest(stored, text, m)
    ensures m <= |text|
  {
  }

  lemma ByReuse(c: Cache, id: SeqId, tokens: seq<Token>, text: seq<Token>, w: Window, m: nat, x: SeqId, c': Cache)
    requires tokens != [] && text == tokens[..|tokens| - 1] && 0 < m < |tokens| && Longest(c.contents, text, m)
    requires CanReuse(c, text, m, w, x) && x in c.lrus
    requires c' == Reused(c, x, text[..m])
    ensures m <= |c.contents[x]|
    ensures Inserts(c, id, tokens, w, MatchedResult(m, -1, x, |c.contents[x]| - m), c')
  {
  }

  lemma ByFork(c: Cache, id: SeqId, tokens: seq<Token>, text: seq<Token>, w: Window, m: nat, x: SeqId, c': Cache)
    requires tokens != [] && text == tokens[..|tokens| - 1] && 0 < m < |tokens| && Longest(c.contents, text, m)
    requires NoReuse(c, text, m, w)
    requires CanFork(c, text, m, w, x)
    requires c' == Added(c, id, text[..m], w)
    ensures Inserts(c, id, tokens, w, MatchedResult(m, x, -1, 0), c')
  {
  }

  lemma ByAdd(c: Cache, id: SeqId, tokens: seq<Token>, text: seq<Token>, w: Window, m: nat, c': Cache)
    requires tokens != [] && text == tokens[..|tokens| - 1] && Longest(c.contents, text, m)
    requires m > 0 ==> NoReuse(c, text, m, w) && NoFork(c, text, m, w)
    requires c' == Added(c, id, [], w)
    ensures Inserts(c, id, tokens, w, MatchedResult(0, -1, -1, 0), c')
  {
  }

  lemma NoForkWithWindow(c: Cache, text: seq<Token>, m: nat, w: Window)
    requires w.size != -1
    ensures NoFork(c, text, m, w)
  {
  }

  /** The list holds exactly the sequences that match m tokens. */
  ghost predicate Matched(contents: map<SeqId, seq<Token>>, text: seq<Token>, m: nat, matched: seq<SeqId>) {
    forall y {:trigger y in matched} {:trigger Attains(contents, text, m, y)} ::
      y in matched <==> Attains(contents, text, m, y)
  }

  ghost predicate NoReuse(c: Cache, text: seq<Token>, m: nat, w: Window) {
    forall y {:trigger CanReuse(c, text, m, w, y)} :: !CanReuse(c, text, m, w, y)
  }

  ghost predicate NoFork(c: Cache, text: seq<Token>, m: nat, w: Window) {
    forall y {:trigger CanFork(c, text, m, w, y)} :: !CanFork(c, text, m, w, y)
  }

  /** x is a shortest candidate for reuse, or -1 if there is none. */
  ghost predicate IsShortest(c: Cache, text: seq<Token>, m: nat, w: Window, x: SeqId) {
    if x == -1 then forall y {:trigger Reusable(c, text, m, w, y)} :: !Reusable(c, text, m, w, y)
    else
      && x in c.contents && Reusable(c, text, m, w, x)
      && forall y {:trigger Reusable(c, text, m, w, y)} :: Reusable(c, text, m, w, y) ==>
           y in c.contents && |c.contents[x]| <= |c.contents[y]|
  }

  /** Only the shortest candidate can pass the nine-tenths test if any does. */
  lemma ShortestReuse(c: Cache, text: seq<Token>, m: nat, w: Window, x: SeqId)
    requires w.size == -1 && IsShortest(c, text, m, w, x)
    ensures x != -1 && x in c.contents && 10 * m > 9 * |c.contents[x]| ==> CanReuse(c, text, m, w, x)
    ensures x == -1 || (x in c.contents && 10 * m <= 9 * |c.contents[x]|) ==> NoReuse(c, text, m, w)
  {
  }

  lemma NothingPending(m: map<SeqId, seq<Token>>)
    ensures Committed(m, []) == m
  {
  }

  lemma FullIsNotEmpty(c: Cache)
    requires |c.lrus| == c.maxRecycling && c.maxRecycling != 0
    ensures c.lrus != map[]
  {
  }

  /** Exactly the recycling sequences have a time stamp, and all of them are stored. */
  lemma OnlyRecyclingStamped(c: Cache, id: SeqId)
    requires Inv(c)
    ensures id in c.lrus <==> id in c.states && c.states[id] == Recycling
    ensures id in c.states <==> id in c.contents
    ensures id in c.states <==> id in c.windows
  {
    assert id in c.windows.Keys <==> id in c.states.Keys;
    assert id in c.contents.Keys <==> id in c.states.Keys;
  }

  lemma GoneLrus(c: Cache, id: SeqId)
    ensures Gone(c, id).lrus == c.lrus && Gone(c, id).reversed == c.reversed
  {
  }

  lemma StampedIsStored(c: Cache, l: nat)
    requires Inv(c) && l in c.reversed
    ensures c.reversed[l] in c.lrus && c.lrus[c.reversed[l]] == l && c.reversed[l] in c.contents
  {
    OnlyRecyclingStamped(c, c.reversed[l]);
  }

  lemma StampedBothWays(c: Cache)
    requires Inv(c)
    ensures forall id :: id in c.lrus ==> c.lrus[id] in c.reversed
    ensures forall l :: l in c.reversed ==> c.reversed[l] in c.lrus
  {
  }

  lemma SomeStamp(c: Cache)
    requires Inv(c)
    ensures c.lrus == map[] <==> c.reversed == map[]
  {
    hide Inv, LruInverse;
    forall id | id in c.lrus ensures c.reversed != map[] { StampedBothWays(c); }
    forall l | l in c.reversed ensures c.lrus != map[] { StampedBothWays(c); }
  }
}
