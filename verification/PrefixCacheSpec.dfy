/** The prefix cache as a state machine over the map from sequences to tokens: which
    steps it can take, what every run keeps, and why the lazily committed extensions
    cannot be told apart from extensions made at once. */
module PrefixCacheSpec {
  import opened RadixPages
  import opened RadixSearch

  datatype SeqState = Active | Recycling

  /** Sliding window size (-1 when there is no window) and attention sink size. */
  datatype Window = Window(size: int, sink: int)

  datatype Extension = Extension(id: SeqId, tokens: seq<Token>)

  /** `contents` is the tree, `pending` the extensions not yet committed to it, `lrus` and
      `reversed` the recycling sequences with their time stamps, and `removed` the ids
      handed to the remove callback so far. */
  datatype Cache = Cache(contents: map<SeqId, seq<Token>>, pending: seq<Extension>,
                         states: map<SeqId, SeqState>, windows: map<SeqId, Window>,
                         lrus: map<SeqId, nat>, reversed: map<nat, SeqId>, counter: nat,
                         removed: seq<SeqId>, maxRecycling: int, nonTailForks: bool)

  datatype MatchedResult = MatchedResult(prefilledOffset: nat, forkedSeqId: int, reusedSeqId: int, poppedTokens: nat)

  /** The calls of the cache, with what they returned. */
  datatype Call =
    | Insert(id: SeqId, tokens: seq<Token>, window: Window, result: MatchedResult)
    | RejectedInsert
    | Extend(ext: Extension)
    | Commit
    | RollBack(rid: SeqId, count: nat, done: bool)
    | Recycle(cid: SeqId, lazy: bool, accepted: bool)
    | TryFree(freed: bool)

  // ---------------------------------------------------------------- pending extensions

  function Extended(m: map<SeqId, seq<Token>>, e: Extension): map<SeqId, seq<Token>> {
    if e.id in m then m[e.id := m[e.id] + e.tokens] else m
  }

  /** The contents once all pending extensions are made, oldest first. */
  function Committed(m: map<SeqId, seq<Token>>, log: seq<Extension>): map<SeqId, seq<Token>> {
    if log == [] then m else Committed(Extended(m, log[0]), log[1..])
  }

  lemma {:induction false} CommittedKeys(m: map<SeqId, seq<Token>>, log: seq<Extension>)
    ensures Committed(m, log).Keys == m.Keys
  {
    if log != [] {
      CommittedKeys(Extended(m, log[0]), log[1..]);
    }
  }

  lemma {:induction false} CommittedAppend(m: map<SeqId, seq<Token>>, log: seq<Extension>, e: Extension)
    ensures Committed(m, log + [e]) == Extended(Committed(m, log), e)
  {
    if log == [] {
      assert (log + [e])[1..] == [];
    } else {
      assert (log + [e])[1..] == log[1..] + [e];
      CommittedAppend(Extended(m, log[0]), log[1..], e);
    }
  }

  /** Removing a sequence that has no pending extension commutes with committing. */
  lemma {:induction false} CommittedWithout(m: map<SeqId, seq<Token>>, log: seq<Extension>, id: SeqId)
    requires forall i :: 0 <= i < |log| ==> log[i].id != id
    ensures Committed(m - {id}, log) == Committed(m, log) - {id}
  {
    if log != [] {
      assert log[0].id != id;
      assert Extended(m - {id}, log[0]) == Extended(m, log[0]) - {id};
      CommittedWithout(Extended(m, log[0]), log[1..], id);
    }
  }

  // ---------------------------------------------------------------- invariant

  ghost predicate LruInverse(lrus: map<SeqId, nat>, reversed: map<nat, SeqId>) {
    && (forall id {:trigger lrus[id]} :: id in lrus ==> lrus[id] in reversed && reversed[lrus[id]] == id)
    && (forall l {:trigger reversed[l]} :: l in reversed ==> reversed[l] in lrus && lrus[reversed[l]] == l)
  }

  ghost predicate Inv(c: Cache) {
    && c.contents.Keys == c.states.Keys && c.windows.Keys == c.states.Keys
    && LruInverse(c.lrus, c.reversed)
    && (forall id {:trigger c.lrus[id]} :: id in c.lrus ==> c.lrus[id] <= c.counter)
    && (forall id {:trigger id in c.lrus} {:trigger c.states[id]} ::
          id in c.lrus <==> id in c.states && c.states[id] == Recycling)
    && (forall id {:trigger id in c.states} :: id in c.states ==> id >= 0)
    && (c.maxRecycling >= 0 ==> |c.lrus| <= c.maxRecycling)
    && PendingLive(c)
  }

  /** No sequence with a pending extension is recycling. */
  ghost predicate PendingLive(c: Cache) {
    forall i {:trigger c.pending[i]} :: 0 <= i < |c.pending| ==> c.pending[i].id !in c.lrus
  }

  function Empty(maxRecycling: int, nonTailForks: bool): Cache {
    Cache(map[], [], map[], map[], map[], map[], 0, [], maxRecycling, nonTailForks)
  }

  // ---------------------------------------------------------------- steps

  /** The cache with its pending extensions made. */
  function Settled(c: Cache): Cache {
    c.(contents := Committed(c.contents, c.pending), pending := [])
  }

  /** m is the length of the longest common prefix of the text with a stored sequence. */
  ghost predicate Longest(stored: map<SeqId, seq<Token>>, text: seq<Token>, m: nat) {
    && m <= |text|
    && (m > 0 ==> exists id :: Attains(stored, text, m, id))
    && (forall id, k: nat :: Attains(stored, text, k, id) ==> k <= m)
  }

  predicate Attains(stored: map<SeqId, seq<Token>>, text: seq<Token>, m: nat, id: SeqId) {
    id in stored && Share(stored[id], text, m)
  }

  /** A recycling sequence with the same window that starts with the matched prefix. */
  ghost predicate Reusable(c: Cache, text: seq<Token>, m: nat, w: Window, x: SeqId) {
    && Attains(c.contents, text, m, x)
    && x in c.states && c.states[x] == Recycling
    && x in c.windows && c.windows[x] == w
  }

  /** With a sliding window only an exact match is reused; without one, the shortest
      candidate, if the match covers more than nine tenths of it. */
  ghost predicate CanReuse(c: Cache, text: seq<Token>, m: nat, w: Window, x: SeqId) {
    && Reusable(c, text, m, w, x)
    && if w.size != -1 then |c.contents[x]| == m
       else 10 * m > 9 * |c.contents[x]|
            && forall y :: Reusable(c, text, m, w, y) ==> |c.contents[x]| <= |c.contents[y]|
  }

  ghost predicate CanFork(c: Cache, text: seq<Token>, m: nat, w: Window, x: SeqId) {
    && w.size == -1 && Attains(c.contents, text, m, x)
    && x in c.windows && c.windows[x].size == -1
    && (c.nonTailForks || |c.contents[x]| == m)
  }

  function Added(c: Cache, id: SeqId, tokens: seq<Token>, w: Window): Cache {
    c.(contents := c.contents[id := tokens], states := c.states[id := Active], windows := c.windows[id := w])
  }

  function Reused(c: Cache, x: SeqId, tokens: seq<Token>): Cache
    requires x in c.lrus
  {
    c.(contents := c.contents[x := tokens], states := c.states[x := Active],
       lrus := c.lrus - {x}, reversed := c.reversed - {c.lrus[x]})
  }

  /** Inserting into a cache whose extensions are all committed. The last token is never
      matched, so that one token is left to prefill. */
  ghost predicate Inserts(c: Cache, id: SeqId, tokens: seq<Token>, w: Window, r: MatchedResult, c': Cache)
    requires tokens != []
  {
    var text := tokens[..|tokens| - 1];
    exists m: nat ::
      && Longest(c.contents, text, m)
      && if m > 0 && exists x :: CanReuse(c, text, m, w, x) then
           && r.prefilledOffset == m && r.forkedSeqId == -1 && CanReuse(c, text, m, w, r.reusedSeqId)
           && r.poppedTokens == |c.contents[r.reusedSeqId]| - m
           && r.reusedSeqId in c.lrus && c' == Reused(c, r.reusedSeqId, text[..m])
         else if m > 0 && exists x :: CanFork(c, text, m, w, x) then
           && r == MatchedResult(m, r.forkedSeqId, -1, 0) && CanFork(c, text, m, w, r.forkedSeqId)
           && c' == Added(c, id, text[..m], w)
         else
           r == MatchedResult(0, -1, -1, 0) && c' == Added(c, id, [], w)
  }

  function Gone(c: Cache, id: SeqId): Cache {
    c.(contents := c.contents - {id}, states := c.states - {id}, windows := c.windows - {id},
       removed := c.removed + [id])
  }

  /** Evicting a recycling sequence. */
  function Evicted(c: Cache, id: SeqId): Cache
    requires id in c.lrus
  {
    Gone(c, id).(lrus := c.lrus - {id}, reversed := c.reversed - {c.lrus[id]})
  }

  function Stamped(c: Cache, id: SeqId): Cache {
    c.(states := c.states[id := Recycling], counter := c.counter + 1,
       lrus := c.lrus[id := c.counter + 1], reversed := c.reversed[c.counter + 1 := id])
  }

  /** Recycling an active sequence of a committed cache: it is removed at once when asked
      to or when the cache keeps none; otherwise it is kept, and when the cache is full
      some recycling sequence makes room. */
  ghost predicate Recycles(c: Cache, id: SeqId, lazy: bool, c': Cache) {
    if lazy && c.maxRecycling != 0 then
      if |c.lrus| == c.maxRecycling then
        exists victim :: victim in c.lrus && c' == Stamped(Evicted(c, victim), id)
      else c' == Stamped(c, id)
    else c' == Gone(c, id)
  }

  ghost predicate Step(c: Cache, call: Call, c': Cache) {
    match call
    case Insert(id, tokens, w, r) =>
      && id >= 0 && id !in c.states && tokens != [] && w.size != 0 && w.sink >= 0
      && Inserts(Settled(c), id, tokens, w, r, c')
    case RejectedInsert => c' == c
    case Extend(e) => e.id !in c.lrus && c' == c.(pending := c.pending + [e])
    case Commit => c' == Settled(c)
    case RollBack(id, n, done) =>
      var s := Settled(c);
      && (done <==> id in s.contents && id !in s.lrus && 0 < n <= |s.contents[id]|)
      && c' == if done then s.(contents := s.contents[id := s.contents[id][..|s.contents[id]| - n]]) else s
    case Recycle(id, lazy, accepted) =>
      && (accepted <==> id in c.states && id !in c.lrus)
      && if accepted then Recycles(Settled(c), id, lazy, c') else c' == Settled(c)
    case TryFree(freed) =>
      && (freed <==> c.lrus != map[])
      && if freed then exists id :: id in c.lrus && c' == Evicted(c, id) else c' == c
  }

  // ---------------------------------------------------------------- every step keeps the invariant

  lemma EmptyInv(maxRecycling: int, nonTailForks: bool)
    ensures Inv(Empty(maxRecycling, nonTailForks))
  {
  }

  lemma SettledInv(c: Cache)
    requires Inv(c)
    ensures Inv(Settled(c))
  {
    CommittedKeys(c.contents, c.pending);
  }

  lemma AddedInv(c: Cache, id: SeqId, tokens: seq<Token>, w: Window)
    requires Inv(c) && id !in c.states && id >= 0
    ensures Inv(Added(c, id, tokens, w))
  {
    assert id !in c.lrus;
  }

  lemma ReusedInv(c: Cache, x: SeqId, tokens: seq<Token>)
    requires Inv(c) && x in c.lrus
    ensures Inv(Reused(c, x, tokens))
  {
    assert x in c.states;
    DropLru(c.lrus, c.reversed, x);
  }

  lemma DropLru(lrus: map<SeqId, nat>, reversed: map<nat, SeqId>, x: SeqId)
    requires LruInverse(lrus, reversed) && x in lrus
    ensures LruInverse(lrus - {x}, reversed - {lrus[x]})
    ensures |lrus - {x}| == |lrus| - 1
  {
    assert (lrus - {x}).Keys == lrus.Keys - {x};
    assert |(lrus - {x}).Keys| == |lrus.Keys| - 1;
  }

  lemma EvictedInv(c: Cache, id: SeqId)
    requires Inv(c) && id in c.lrus
    ensures Inv(Evicted(c, id)) && |Evicted(c, id).lrus| == |c.lrus| - 1
  {
    DropLru(c.lrus, c.reversed, id);
  }

  lemma StampedInv(c: Cache, id: SeqId)
    requires Inv(c) && id in c.states && id !in c.lrus && c.pending == []
    requires c.maxRecycling >= 0 ==> |c.lrus| < c.maxRecycling
    ensures Inv(Stamped(c, id)) && |Stamped(c, id).lrus| == |c.lrus| + 1
  {
    FreshStamp(c);
    PutLru(c.lrus, c.reversed, id, c.counter + 1);
    NobodyPending(Stamped(c, id));
    hide LruInverse, PendingLive;
  }

  lemma NobodyPending(c: Cache)
    requires c.pending == []
    ensures PendingLive(c)
  {
  }

  lemma FreshStamp(c: Cache)
    requires Inv(c)
    ensures c.counter + 1 !in c.reversed
  {
    forall l | l in c.reversed ensures l <= c.counter {
      var x := c.reversed[l];
      assert x in c.lrus && c.lrus[x] == l;
    }
  }

  /** A new stamp for a sequence without one. */
  lemma PutLru(lrus: map<SeqId, nat>, reversed: map<nat, SeqId>, x: SeqId, stamp: nat)
    requires LruInverse(lrus, reversed) && x !in lrus && stamp !in reversed
    ensures LruInverse(lrus[x := stamp], reversed[stamp := x])
    ensures |lrus[x := stamp]| == |lrus| + 1
  {
    assert (lrus[x := stamp]).Keys == lrus.Keys + {x};
    assert |lrus.Keys + {x}| == |lrus| + 1;
  }

  lemma GoneInv(c: Cache, id: SeqId)
    requires Inv(c) && id in c.states && id !in c.lrus
    ensures Inv(Gone(c, id))
  {
  }

  lemma ExtendInv(c: Cache, e: Extension)
    requires Inv(c) && e.id !in c.lrus
    ensures Inv(c.(pending := c.pending + [e]))
  {
  }

  lemma RewriteInv(c: Cache, id: SeqId, tokens: seq<Token>)
    requires Inv(c) && id in c.contents
    ensures Inv(c.(contents := c.contents[id := tokens]))
  {
  }

  lemma StepInv(c: Cache, call: Call, c': Cache)
    requires Inv(c) && Step(c, call, c')
    ensures Inv(c')
  {
    hide Inv, Inserts, Recycles, Evicted;
    var s := Settled(c);
    SettledInv(c);
    match call
    case Insert(id, tokens, w, r) =>
      InsertInv(s, id, tokens, w, r, c');
    case RejectedInsert =>
    case Extend(e) =>
      ExtendInv(c, e);
    case Commit =>
    case RollBack(id, n, done) =>
      if done { RewriteInv(s, id, s.contents[id][..|s.contents[id]| - n]); }
    case Recycle(id, lazy, accepted) =>
      if accepted { RecycleInv(s, id, lazy, c'); }
    case TryFree(freed) =>
      if freed {
        var id :| id in c.lrus && c' == Evicted(c, id);
        EvictedInv(c, id);
      }
  }

  lemma InsertInv(c: Cache, id: SeqId, tokens: seq<Token>, w: Window, r: MatchedResult, c': Cache)
    requires Inv(c) && id !in c.states && id >= 0 && tokens != [] && Inserts(c, id, tokens, w, r, c')
    ensures Inv(c')
  {
    var text := tokens[..|tokens| - 1];
    if r.reusedSeqId in c.lrus && c' == Reused(c, r.reusedSeqId, text[..r.prefilledOffset]) {
      ReusedInv(c, r.reusedSeqId, text[..r.prefilledOffset]);
    } else {
      AddedInv(c, id, text[..r.prefilledOffset], w);
    }
  }

  lemma RecycleInv(c: Cache, id: SeqId, lazy: bool, c': Cache)
    requires Inv(c) && id in c.states && id !in c.lrus && c.pending == [] && Recycles(c, id, lazy, c')
    ensures Inv(c')
  {
    hide Inv, Stamped;
    if lazy && c.maxRecycling != 0 {
      if |c.lrus| == c.maxRecycling {
        var victim :| victim in c.lrus && c' == Stamped(Evicted(c, victim), id);
        EvictedInv(c, victim);
        StampedInv(Evicted(c, victim), id);
      } else {
        RoomLeft(c);
        StampedInv(c, id);
      }
    } else {
      GoneInv(c, id);
    }
  }

  lemma RoomLeft(c: Cache)
    requires Inv(c) && |c.lrus| != c.maxRecycling
    ensures c.maxRecycling >= 0 ==> |c.lrus| < c.maxRecycling
  {
  }

  // ---------------------------------------------------------------- runs

  /** A run: the calls made, and the states before, between and after them. */
  ghost predicate Run(calls: seq<Call>, states: seq<Cache>) {
    && |states| == |calls| + 1
    && forall i {:trigger calls[i]} :: 0 <= i < |calls| ==> Step(states[i], calls[i], states[i + 1])
  }

  /** Every state of every run satisfies the invariant. */
  lemma {:induction false} RunInv(calls: seq<Call>, states: seq<Cache>, i: nat)
    requires Run(calls, states) && Inv(states[0]) && i <= |calls|
    ensures Inv(states[i])
    decreases i
  {
    hide Inv, Step;
    if i > 0 {
      RunInv(calls, states, i - 1);
      assert Step(states[i - 1], calls[i - 1], states[i]);
      StepInv(states[i - 1], calls[i - 1], states[i]);
    }
  }

  // ---------------------------------------------------------------- callbacks

  /** The id a call adds to the cache, if any: a reuse adds none. */
  function AddedIds(call: Call): multiset<SeqId> {
    if call.Insert? && call.result.reusedSeqId == -1 then multiset{call.id} else multiset{}
  }

  function AllAddedIds(calls: seq<Call>): multiset<SeqId> {
    if calls == [] then multiset{} else AllAddedIds(calls[..|calls| - 1]) + AddedIds(calls[|calls| - 1])
  }

  /** What was there plus what is added equals what is there plus what the callback was
      told since. */
  ghost predicate Balanced(before: set<SeqId>, told: seq<SeqId>, added: multiset<SeqId>, after: set<SeqId>,
                           told': seq<SeqId>) {
    told <= told' && multiset(before) + added == multiset(after) + multiset(told'[|told|..])
  }

  lemma BalancedSame(ids: set<SeqId>, told: seq<SeqId>)
    ensures Balanced(ids, told, multiset{}, ids, told)
  {
    assert told[|told|..] == [];
  }

  lemma BalancedIn(ids: set<SeqId>, told: seq<SeqId>, id: SeqId)
    requires id !in ids
    ensures Balanced(ids, told, multiset{id}, ids + {id}, told)
  {
    assert told[|told|..] == [];
  }

  lemma BalancedOut(ids: set<SeqId>, told: seq<SeqId>, id: SeqId)
    requires id in ids
    ensures Balanced(ids, told, multiset{}, ids - {id}, told + [id])
  {
    assert (told + [id])[|told|..] == [id];
  }

  /** In one step ids and callbacks balance. */
  lemma StepConserves(c: Cache, call: Call, c': Cache)
    requires Inv(c) && Step(c, call, c')
    ensures Balanced(c.states.Keys, c.removed, AddedIds(call), c'.states.Keys, c'.removed)
  {
    hide *;
    match call
    case Insert(id, tokens, w, r) => StepInsertConserves(c, id, tokens, w, r, c');
    case Recycle(id, lazy, accepted) => StepRecycleConserves(c, id, lazy, accepted, c');
    case TryFree(freed) => StepFreeConserves(c, freed, c');
    case _ => QuietStep(c, call, c');
  }

  lemma StepInsertConserves(c: Cache, id: SeqId, tokens: seq<Token>, w: Window, r: MatchedResult, c': Cache)
    requires Inv(c) && Step(c, Insert(id, tokens, w, r), c')
    ensures Balanced(c.states.Keys, c.removed, AddedIds(Insert(id, tokens, w, r)), c'.states.Keys, c'.removed)
  {
    SettledInv(c);
    hide Balanced, Inserts, Inv;
    InsertConserves(Settled(c), id, tokens, w, r, c');
  }

  lemma StepRecycleConserves(c: Cache, id: SeqId, lazy: bool, accepted: bool, c': Cache)
    requires Inv(c) && Step(c, Recycle(id, lazy, accepted), c')
    ensures Balanced(c.states.Keys, c.removed, AddedIds(Recycle(id, lazy, accepted)), c'.states.Keys, c'.removed)
  {
    SettledInv(c);
    hide Balanced, Recycles, Committed;
    BalancedSame(c.states.Keys, c.removed);
    if accepted { RecycleConserves(Settled(c), id, lazy, c'); }
  }

  lemma StepFreeConserves(c: Cache, freed: bool, c': Cache)
    requires Inv(c) && Step(c, TryFree(freed), c')
    ensures Balanced(c.states.Keys, c.removed, AddedIds(TryFree(freed)), c'.states.Keys, c'.removed)
  {
    hide Balanced;
    BalancedSame(c.states.Keys, c.removed);
    if freed {
      var id :| id in c.lrus && c' == Evicted(c, id);
      GoneConserves(c, id);
    }
  }

  /** The other calls neither add nor remove a sequence. */
  lemma QuietStep(c: Cache, call: Call, c': Cache)
    requires Step(c, call, c') && !call.Insert? && !call.Recycle? && !call.TryFree?
    ensures Balanced(c.states.Keys, c.removed, AddedIds(call), c'.states.Keys, c'.removed)
  {
    hide Balanced, Committed;
    BalancedSame(c.states.Keys, c.removed);
  }

  lemma GoneConserves(c: Cache, id: SeqId)
    requires id in c.states
    ensures (c.states - {id}).Keys == c.states.Keys - {id}
    ensures Balanced(c.states.Keys, c.removed, multiset{}, (c.states - {id}).Keys, c.removed + [id])
  {
    assert (c.states - {id}).Keys == c.states.Keys - {id};
    BalancedOut(c.states.Keys, c.removed, id);
  }

  lemma InsertConserves(c: Cache, id: SeqId, tokens: seq<Token>, w: Window, r: MatchedResult, c': Cache)
    requires Inv(c) && id !in c.states && id >= 0 && tokens != [] && Inserts(c, id, tokens, w, r, c')
    ensures Balanced(c.states.Keys, c.removed, if r.reusedSeqId == -1 then multiset{id} else multiset{},
                     c'.states.Keys, c'.removed)
  {
    hide *;
    InsertStates(c, id, tokens, w, r, c');
    if r.reusedSeqId == -1 {
      assert c'.states.Keys == c.states.Keys + {id};
      BalancedIn(c.states.Keys, c.removed, id);
    } else {
      BalancedSame(c.states.Keys, c.removed);
    }
  }

  lemma InsertStates(c: Cache, id: SeqId, tokens: seq<Token>, w: Window, r: MatchedResult, c': Cache)
    requires Inv(c) && id !in c.states && id >= 0 && tokens != [] && Inserts(c, id, tokens, w, r, c')
    ensures c'.removed == c.removed
    ensures if r.reusedSeqId == -1 then c'.states == c.states[id := Active] else c'.states.Keys == c.states.Keys
  {
    assert r.reusedSeqId == -1 ==> r.reusedSeqId !in c.lrus;
  }

  lemma RecycleConserves(c: Cache, id: SeqId, lazy: bool, c': Cache)
    requires id in c.states && id !in c.lrus && Recycles(c, id, lazy, c')
    requires forall x :: x in c.lrus ==> x in c.states
    ensures Balanced(c.states.Keys, c.removed, multiset{}, c'.states.Keys, c'.removed)
  {
    hide Balanced;
    if lazy && c.maxRecycling != 0 {
      if |c.lrus| == c.maxRecycling {
        var victim :| victim in c.lrus && c' == Stamped(Evicted(c, victim), id);
        GoneConserves(c, victim);
        EvictStamp(c, victim, id);
      } else {
        assert Stamped(c, id).states.Keys == c.states.Keys;
        BalancedSame(c.states.Keys, c.removed);
      }
    } else {
      GoneConserves(c, id);
    }
  }

  lemma EvictStamp(c: Cache, victim: SeqId, id: SeqId)
    requires id in c.states && id !in c.lrus && victim in c.lrus
    ensures Stamped(Evicted(c, victim), id).states.Keys == (c.states - {victim}).Keys
    ensures Stamped(Evicted(c, victim), id).removed == c.removed + [victim]
  {
  }

  /** Over every run each sequence that leaves is reported to the callback exactly as often
      as it leaves. */
  lemma {:induction false} RunConserves(calls: seq<Call>, states: seq<Cache>)
    requires Run(calls, states) && Inv(states[0])
    ensures states[0].removed <= states[|calls|].removed
    ensures multiset(states[0].states.Keys) + AllAddedIds(calls)
            == multiset(states[|calls|].states.Keys) + multiset(states[|calls|].removed[|states[0].removed|..])
  {
    hide Inv, Step;
    var n := |calls|;
    if n > 0 {
      var calls', states' := calls[..n - 1], states[..n];
      assert Run(calls', states') by { assert forall i :: 0 <= i < |calls'| ==> calls'[i] == calls[i]; }
      RunConserves(calls', states');
      RunInv(calls, states, n - 1);
      assert Step(states[n - 1], calls[n - 1], states[n]);
      StepConserves(states[n - 1], calls[n - 1], states[n]);
      LogSplits(states[0].removed, states[n - 1].removed, states[n].removed);
      Chained(multiset(states[0].states.Keys), AllAddedIds(calls'), multiset(states[n - 1].states.Keys),
              multiset(states[n - 1].removed[|states[0].removed|..]), AddedIds(calls[n - 1]),
              multiset(states[n].states.Keys), multiset(states[n].removed[|states[n - 1].removed|..]));
    } else {
      assert calls == [] && AllAddedIds(calls) == multiset{};
      assert multiset(states[0].removed[|states[0].removed|..]) == multiset{};
    }
  }

  lemma Chained(x: multiset<SeqId>, a: multiset<SeqId>, k: multiset<SeqId>, r: multiset<SeqId>,
                a': multiset<SeqId>, k': multiset<SeqId>, r': multiset<SeqId>)
    requires x + a == k + r && k + a' == k' + r'
    ensures x + (a + a') == k' + (r + r')
  {
    assert x + (a + a') == (k + r) + a' == (k + a') + r == k' + (r + r');
  }

  lemma LogSplits(a: seq<SeqId>, b: seq<SeqId>, d: seq<SeqId>)
    requires a <= b <= d
    ensures multiset(d[|a|..]) == multiset(b[|a|..]) + multiset(d[|b|..])
  {
    assert d[|a|..] == b[|a|..] + d[|b|..];
  }

  // ---------------------------------------------------------------- the eager cache

  /** A cache that makes every extension at once; committing does nothing. */
  ghost predicate EagerStep(e: Cache, call: Call, e': Cache) {
    match call
    case Extend(ext) => ext.id !in e.lrus && e' == e.(contents := Extended(e.contents, ext))
    case Commit => e' == e
    case _ => Step(e, call, e')
  }

  /** What a client of the lazy cache believes: every step is a step of the eager cache. */
  lemma LazyRefinesEager(c: Cache, call: Call, c': Cache)
    requires Inv(c) && Step(c, call, c')
    ensures EagerStep(Settled(c), call, Settled(c'))
  {
    hide *;
    match call
    case Insert(id, tokens, w, r) => LazyInsert(c, id, tokens, w, r, c');
    case Recycle(id, lazy, accepted) => LazyRecycle(c, id, lazy, accepted, c');
    case TryFree(freed) => LazyFree(c, freed, c');
    case _ => LazyOther(c, call, c');
  }

  lemma LazyInsert(c: Cache, id: SeqId, tokens: seq<Token>, w: Window, r: MatchedResult, c': Cache)
    requires Step(c, Insert(id, tokens, w, r), c')
    ensures EagerStep(Settled(c), Insert(id, tokens, w, r), Settled(c'))
  {
    InsertSettled(Settled(c), id, tokens, w, r, c');
    hide Inserts, Committed;
    assert Settled(Settled(c)) == Settled(c);
  }

  lemma LazyRecycle(c: Cache, id: SeqId, lazy: bool, accepted: bool, c': Cache)
    requires Step(c, Recycle(id, lazy, accepted), c')
    ensures EagerStep(Settled(c), Recycle(id, lazy, accepted), Settled(c'))
  {
    if accepted { RecycleSettled(Settled(c), id, lazy, c'); }
    hide Recycles, Committed;
    SettledTwice(c);
  }

  lemma SettledTwice(c: Cache)
    ensures Settled(Settled(c)) == Settled(c)
  {
  }

  lemma LazyFree(c: Cache, freed: bool, c': Cache)
    requires Inv(c) && Step(c, TryFree(freed), c')
    ensures EagerStep(Settled(c), TryFree(freed), Settled(c'))
  {
    CommittedKeys(c.contents, c.pending);
    if freed {
      var id :| id in c.lrus && c' == Evicted(c, id);
      CommittedWithout(c.contents, c.pending, id);
      assert Settled(c') == Evicted(Settled(c), id);
    }
  }

  lemma LazyOther(c: Cache, call: Call, c': Cache)
    requires Inv(c) && Step(c, call, c') && !call.Insert? && !call.Recycle? && !call.TryFree?
    ensures EagerStep(Settled(c), call, Settled(c'))
  {
    CommittedKeys(c.contents, c.pending);
    match call
    case Extend(e) => CommittedAppend(c.contents, c.pending, e);
    case _ => SettledTwice(c);
  }

  lemma InsertSettled(c: Cache, id: SeqId, tokens: seq<Token>, w: Window, r: MatchedResult, c': Cache)
    requires tokens != [] && Inserts(c, id, tokens, w, r, c') && c.pending == []
    ensures Settled(c') == c' && Settled(c) == c
  {
  }

  lemma RecycleSettled(c: Cache, id: SeqId, lazy: bool, c': Cache)
    requires Recycles(c, id, lazy, c') && c.pending == []
    ensures Settled(c') == c' && Settled(c) == c
  {
  }

  ghost predicate EagerRun(calls: seq<Call>, states: seq<Cache>) {
    && |states| == |calls| + 1
    && forall i {:trigger calls[i]} :: 0 <= i < |calls| ==> EagerStep(states[i], calls[i], states[i + 1])
  }

  /** Every run of the lazy cache is, seen through the commit, a run of the eager one with
      the same calls and the same answers. */
  lemma RunRefinesEager(calls: seq<Call>, states: seq<Cache>)
    requires Run(calls, states) && Inv(states[0])
    ensures EagerRun(calls, seq(|states|, i requires 0 <= i < |states| => Settled(states[i])))
  {
    var eager := seq(|states|, i requires 0 <= i < |states| => Settled(states[i]));
    forall i | 0 <= i < |calls| ensures EagerStep(eager[i], calls[i], eager[i + 1]) {
      RunInv(calls, states, i);
      LazyRefinesEager(states[i], calls[i], states[i + 1]);
    }
  }

  // ---------------------------------------------------------------- what an insertion promises

  lemma LongestUnique(stored: map<SeqId, seq<Token>>, text: seq<Token>, m: nat, n: nat)
    requires Longest(stored, text, m) && Longest(stored, text, n)
    ensures m == n
  {
    if m > 0 { var x :| Attains(stored, text, m, x); }
    if n > 0 { var y :| Attains(stored, text, n, y); }
  }

  /** The answer to an insertion: the prefilled offset is zero or the longest match over
      all but the last token, at least one token is left to prefill, and the sequence the
      caller continues with holds exactly the prefilled tokens. */
  lemma InsertPromise(c: Cache, id: SeqId, tokens: seq<Token>, w: Window, r: MatchedResult, c': Cache)
    requires Inv(c) && Step(c, Insert(id, tokens, w, r), c')
    ensures r.prefilledOffset < |tokens|
    ensures r.prefilledOffset == 0 || Longest(Settled(c).contents, tokens[..|tokens| - 1], r.prefilledOffset)
    ensures
      var current := if r.reusedSeqId == -1 then id else r.reusedSeqId;
      && current in c'.contents && c'.contents[current] == tokens[..r.prefilledOffset]
      && c'.states[current] == Active && c'.windows[current] == w
      && (forall x :: x != current ==> (x in c'.contents <==> x in c.contents))
      && (forall x :: x != current && x in c.contents ==>
          x in Settled(c).contents && c'.contents[x] == Settled(c).contents[x])
    ensures r.reusedSeqId != -1 ==>
              && r.reusedSeqId in c.lrus && r.forkedSeqId == -1
              && r.poppedTokens + r.prefilledOffset == |Settled(c).contents[r.reusedSeqId]|
              && (w.size != -1 ==> r.poppedTokens == 0)
    ensures r.forkedSeqId != -1 ==>
              && r.forkedSeqId in c.windows && c.windows[r.forkedSeqId].size == -1 && w.size == -1
              && Share(Settled(c).contents[r.forkedSeqId], tokens, r.prefilledOffset)
              && (!c.nonTailForks ==> r.prefilledOffset == |Settled(c).contents[r.forkedSeqId]|)
  {
    var s := Settled(c);
    SettledInv(c);
    InsertedCurrent(s, id, tokens, w, r, c');
    InsertedSource(s, id, tokens, w, r, c');
    assert forall x :: x in s.contents <==> x in c.contents;
    hide Inv, Inserts, Longest, Share, Committed;
  }

  lemma InsertedCurrent(s: Cache, id: SeqId, tokens: seq<Token>, w: Window, r: MatchedResult, c': Cache)
    requires Inv(s) && id !in s.states && id >= 0 && tokens != [] && Inserts(s, id, tokens, w, r, c')
    ensures r.prefilledOffset < |tokens|
    ensures r.prefilledOffset == 0 || Longest(s.contents, tokens[..|tokens| - 1], r.prefilledOffset)
    ensures
      var current := if r.reusedSeqId == -1 then id else r.reusedSeqId;
      && current in c'.contents && c'.contents[current] == tokens[..r.prefilledOffset]
      && current in c'.states && c'.states[current] == Active && current in c'.windows && c'.windows[current] == w
      && (forall x :: x != current ==> (x in c'.contents <==> x in s.contents))
      && (forall x :: x != current && x in s.contents ==> c'.contents[x] == s.contents[x])
  {
    var text := tokens[..|tokens| - 1];
    assert forall k: nat :: k <= |text| ==> text[..k] == tokens[..k];
    hide Longest;
  }

  lemma InsertedSource(s: Cache, id: SeqId, tokens: seq<Token>, w: Window, r: MatchedResult, c': Cache)
    requires Inv(s) && id !in s.states && id >= 0 && tokens != [] && Inserts(s, id, tokens, w, r, c')
    ensures r.reusedSeqId != -1 ==>
              && r.reusedSeqId in s.lrus && r.reusedSeqId in s.contents && r.forkedSeqId == -1
              && r.poppedTokens + r.prefilledOffset == |s.contents[r.reusedSeqId]|
              && (w.size != -1 ==> r.poppedTokens == 0)
    ensures r.forkedSeqId != -1 ==>
              && r.forkedSeqId in s.windows && s.windows[r.forkedSeqId].size == -1 && w.size == -1
              && r.forkedSeqId in s.contents && Share(s.contents[r.forkedSeqId], tokens, r.prefilledOffset)
              && (!s.nonTailForks ==> r.prefilledOffset == |s.contents[r.forkedSeqId]|)
  {
    var text := tokens[..|tokens| - 1];
    assert forall k: nat :: k <= |text| ==> text[..k] == tokens[..k];
  }
}
