/** All workers of the multi-GPU loader running their scripts together: sends meet receives
    and groups meet in collectives. Every meeting is about one parameter, the system never
    deadlocks, and every worker ends with exactly its group's parameters. */
module MultiGpuRun {
  import opened Options
  import opened Arithmetic
  import opened MultiGpuLoader

  /** What each worker has left to do, the tensor each first worker received last, and
      what each worker holds. `at` is a history: how many of the job's rendezvous lie
      behind each worker. */
  datatype Sys = Sys(todo: seq<seq<Op>>, full: seq<nat>, held: seq<map<nat, Piece>>, at: seq<nat>)

  /** A transfer from worker 0 to the first worker of a group, or a collective of a group. */
  datatype Move = Transfer(group: nat) | Gather(group: nat)

  function AllEvents(job: Job): seq<Event> {
    Events(job, job.records)
  }

  function Initial(job: Job): Sys
    requires job.size > 0
  {
    var n := Workers(job);
    Sys(seq(n, w requires 0 <= w < n => Project(job, w, AllEvents(job))), seq(n, w => 0), seq(n, w => map[]),
        seq(n, w => 0))
  }

  predicate Sized(job: Job, s: Sys) {
    |s.todo| == Workers(job) && |s.full| == Workers(job) && |s.held| == Workers(job) && |s.at| == Workers(job)
  }

  // ---------------------------------------------------------------- moves

  /** The index of the next rendezvous of worker w. */
  function NextIndex(job: Job, w: nat, es: seq<Event>, f: nat): nat
    requires job.size > 0 && f <= |es|
    decreases |es| - f
  {
    if f == |es| then f else if Takes(job, w, es[f]) then f else NextIndex(job, w, es, f + 1)
  }

  ghost predicate Enabled(job: Job, s: Sys, m: Move)
    requires job.size > 0
  {
    Sized(job, s) &&
    match m
    case Transfer(g) =>
      && 0 < First(job, g) < Workers(job)
      && s.todo[0] != [] && s.todo[0][0].SendTo? && s.todo[0][0].group == g
      && s.todo[First(job, g)] != [] && s.todo[First(job, g)][0].RecvFull?
    case Gather(g) =>
      && First(job, g) < Workers(job)
      && forall w {:trigger s.todo[w]} :: 0 <= w < Workers(job) && GroupOf(job, w) == g ==>
           s.todo[w] != [] && s.todo[w][0].Collect?
  }

  /** Worker w takes part in the move. */
  predicate Moves(job: Job, w: nat, m: Move)
    requires job.size > 0
  {
    match m
    case Transfer(g) => w == 0 || w == First(job, g)
    case Gather(g) => GroupOf(job, w) == g
  }

  /** The tensor the first worker of a group puts into the collective. */
  function RootTensor(job: Job, s: Sys, g: nat): nat
    requires Sized(job, s) && First(job, g) < Workers(job)
    requires s.todo[First(job, g)] != [] && s.todo[First(job, g)][0].Collect?
  {
    if g == 0 then s.todo[0][0].param else s.full[First(job, g)]
  }

  /** What rank r gets out of a collective on a tensor, for a parameter it expects. */
  function PieceOf(job: Job, expected: nat, tensor: nat, rank: nat): Piece {
    if expected < |job.params| && job.params[expected].sharded then Shard(tensor, rank) else Whole(tensor)
  }

  function Advance(job: Job, es: seq<Event>, w: nat, f: nat): nat
    requires job.size > 0
  {
    if f <= |es| && NextIndex(job, w, es, f) < |es| then NextIndex(job, w, es, f) + 1 else f
  }

  function TodoAfter(job: Job, s: Sys, m: Move, w: nat): seq<Op>
    requires job.size > 0 && Sized(job, s) && w < Workers(job)
  {
    if Moves(job, w, m) && s.todo[w] != [] then s.todo[w][1..] else s.todo[w]
  }

  /** A receiver keeps the tensor that worker 0 sends. */
  function FullAfter(job: Job, s: Sys, m: Move, w: nat): nat
    requires job.size > 0 && Sized(job, s) && w < Workers(job)
  {
    if m.Transfer? && w == First(job, m.group) && s.todo[0] != [] then s.todo[0][0].param else s.full[w]
  }

  /** A collecting worker stores its piece under the parameter of its own call. */
  ghost function HeldAfter(job: Job, s: Sys, m: Move, w: nat): map<nat, Piece>
    requires job.size > 0 && Enabled(job, s, m) && w < Workers(job)
  {
    if m.Gather? && Moves(job, w, m) && s.todo[w] != [] && s.todo[w][0].Collect? then
      RootIsThere(job, s, m);
      s.held[w][s.todo[w][0].param := PieceOf(job, s.todo[w][0].param, RootTensor(job, s, m.group), w % job.size)]
    else s.held[w]
  }

  function AtAfter(job: Job, s: Sys, m: Move, w: nat): nat
    requires job.size > 0 && Sized(job, s) && w < Workers(job)
  {
    if Moves(job, w, m) then Advance(job, AllEvents(job), w, s.at[w]) else s.at[w]
  }

  /** Every worker that takes part drops its first call. */
  ghost function Apply(job: Job, s: Sys, m: Move): Sys
    requires job.size > 0 && Enabled(job, s, m)
  {
    var n := Workers(job);
    Sys(seq(n, w requires 0 <= w < n => TodoAfter(job, s, m, w)),
        seq(n, w requires 0 <= w < n => FullAfter(job, s, m, w)),
        seq(n, w requires 0 <= w < n => HeldAfter(job, s, m, w)),
        seq(n, w requires 0 <= w < n => AtAfter(job, s, m, w)))
  }

  lemma AfterWorker(job: Job, s: Sys, m: Move, w: nat)
    requires job.size > 0 && Enabled(job, s, m) && w < Workers(job)
    ensures Sized(job, Apply(job, s, m))
    ensures Apply(job, s, m).todo[w] == TodoAfter(job, s, m, w)
    ensures Apply(job, s, m).full[w] == FullAfter(job, s, m, w)
    ensures Apply(job, s, m).held[w] == HeldAfter(job, s, m, w)
    ensures Apply(job, s, m).at[w] == AtAfter(job, s, m, w)
  {
    hide TodoAfter, FullAfter, HeldAfter, AtAfter, Workers, Enabled;
  }

  lemma RootIsThere(job: Job, s: Sys, m: Move)
    requires job.size > 0 && Enabled(job, s, m)
    ensures m.Gather? ==> s.todo[First(job, m.group)] != [] && s.todo[First(job, m.group)][0].Collect?
  {
    GroupOfFirst(job.size, m.group, 0);
  }

  // ---------------------------------------------------------------- projections at an index

  lemma {:induction false} NextFacts(job: Job, w: nat, es: seq<Event>, f: nat)
    requires job.size > 0 && f <= |es|
    ensures f <= NextIndex(job, w, es, f) <= |es|
    ensures forall i :: f <= i < NextIndex(job, w, es, f) ==> !Takes(job, w, es[i])
    ensures NextIndex(job, w, es, f) == |es| <==> Project(job, w, es[f..]) == []
    ensures NextIndex(job, w, es, f) < |es| ==>
              var n := NextIndex(job, w, es, f);
              Takes(job, w, es[n]) && Project(job, w, es[f..]) == [OpOf(w, es[n])] + Project(job, w, es[n + 1..])
    decreases |es| - f
  {
    if f < |es| {
      assert es[f..][0] == es[f] && es[f..][1..] == es[f + 1..];
      if !Takes(job, w, es[f]) { NextFacts(job, w, es, f + 1); }
    }
  }

  /** What worker w should hold after a list of rendezvous. */
  function Expected(job: Job, w: nat, es: seq<Event>): map<nat, Piece>
    requires job.size > 0
  {
    if es == [] then map[]
    else
      var e := es[|es| - 1];
      var m := Expected(job, w, es[..|es| - 1]);
      if !e.send && Takes(job, w, e) then m[e.param := PieceOf(job, e.param, e.param, w % job.size)] else m
  }

  lemma {:induction false} ExpectedSkips(job: Job, w: nat, es: seq<Event>, f: nat, n: nat)
    requires job.size > 0 && f <= n <= |es| && forall i :: f <= i < n ==> !Takes(job, w, es[i])
    ensures Expected(job, w, es[..n]) == Expected(job, w, es[..f])
    decreases n
  {
    if f < n {
      ExpectedSkips(job, w, es, f, n - 1);
      assert es[..n][..n - 1] == es[..n - 1];
    }
  }

  // ---------------------------------------------------------------- invariant

  /** Each worker's remaining script is its part of the rendezvous ahead of it. */
  ghost predicate OnScript(job: Job, s: Sys)
    requires job.size > 0 && Sized(job, s)
  {
    forall w {:trigger s.at[w]} {:trigger s.todo[w]} :: 0 <= w < Workers(job) ==>
      s.at[w] <= |AllEvents(job)| && s.todo[w] == Project(job, w, AllEvents(job)[s.at[w]..])
  }

  /** The takers of a rendezvous agree on whether it has happened. */
  ghost predicate Agreed(job: Job, s: Sys)
    requires job.size > 0 && Sized(job, s)
  {
    forall i, w, v {:trigger AllEvents(job)[i], s.at[w], s.at[v]} ::
      (0 <= i < |AllEvents(job)| && 0 <= w < Workers(job) && 0 <= v < Workers(job)
       && Takes(job, w, AllEvents(job)[i]) && Takes(job, v, AllEvents(job)[i])) ==>
        (i < s.at[w] <==> i < s.at[v])
  }

  /** A worker that has just received holds the tensor of that rendezvous. */
  ghost predicate TensorInHand(job: Job, s: Sys)
    requires job.size > 0 && Sized(job, s)
  {
    forall w {:trigger s.full[w]} {:trigger HasTensor(job, s, w)} :: 0 < w < Workers(job) ==> HasTensor(job, s, w)
  }

  ghost predicate HoldsExpected(job: Job, s: Sys)
    requires job.size > 0 && Sized(job, s)
  {
    forall w {:trigger s.held[w]} :: 0 <= w < Workers(job) ==>
      s.at[w] <= |AllEvents(job)| && s.held[w] == Expected(job, w, AllEvents(job)[..s.at[w]])
  }

  ghost predicate Inv(job: Job, s: Sys) {
    && JobOk(job) && Sized(job, s)
    && OnScript(job, s) && Agreed(job, s) && TensorInHand(job, s) && HoldsExpected(job, s)
  }

  lemma InitialInv(job: Job)
    requires JobOk(job)
    ensures Inv(job, Initial(job))
  {
    var es := AllEvents(job);
    assert es[0..] == es && es[..0] == [];
  }

  // ---------------------------------------------------------------- meetings match

  /** The next rendezvous of worker w, as an index. */
  ghost function Upcoming(job: Job, s: Sys, w: nat): nat
    requires Inv(job, s) && w < Workers(job)
  {
    NextIndex(job, w, AllEvents(job), s.at[w])
  }

  /** A worker that also takes the upcoming rendezvous of another is not past it. */
  lemma NotPast(job: Job, s: Sys, w: nat, v: nat)
    requires Inv(job, s) && w < Workers(job) && v < Workers(job) && s.todo[w] != []
    ensures
      var a := Upcoming(job, s, w);
      && a < |AllEvents(job)| && Takes(job, w, AllEvents(job)[a]) && s.todo[w][0] == OpOf(w, AllEvents(job)[a])
      && (Takes(job, v, AllEvents(job)[a]) ==> Upcoming(job, s, v) <= a)
  {
    var es := AllEvents(job);
    NextFacts(job, w, es, s.at[w]);
    NextFacts(job, v, es, s.at[v]);
    var a := Upcoming(job, s, w);
    assert es[a] == es[a];
  }

  /** Who takes part in the rendezvous behind a move: exactly the workers that move, and
      all of them are about to do the same one. */
  lemma SameRendezvous(job: Job, s: Sys, m: Move, w: nat)
    requires Inv(job, s) && Enabled(job, s, m) && w < Workers(job)
    ensures
      var a := Upcoming(job, s, First(job, m.group));
      && a < |AllEvents(job)| && AllEvents(job)[a].group == m.group && AllEvents(job)[a].send == m.Transfer?
      && (Moves(job, w, m) <==> Takes(job, w, AllEvents(job)[a]))
      && (Moves(job, w, m) ==>
          s.todo[w] != [] && Upcoming(job, s, w) == a && s.todo[w][0] == OpOf(w, AllEvents(job)[a]))
  {
    var f := First(job, m.group);
    GroupOfFirst(job.size, m.group, w);
    RootIsThere(job, s, m);
    NotPast(job, s, f, w);
    if m.Transfer? {
      NotPast(job, s, f, 0);
      NotPast(job, s, 0, f);
      FirstDetermines(job, AllEvents(job)[Upcoming(job, s, f)].group, m.group);
    } else if Moves(job, w, m) {
      NotPast(job, s, w, f);
    }
  }

  lemma FirstDetermines(job: Job, g: nat, h: nat)
    requires job.size > 0
    ensures First(job, g) == First(job, h) ==> g == h
  {
    GroupOfFirst(job.size, g, 0);
    GroupOfFirst(job.size, h, 0);
  }

  /** In every meeting all workers mean the same parameter. */
  lemma MeetingsMatch(job: Job, s: Sys, m: Move, w: nat, v: nat)
    requires Inv(job, s) && Enabled(job, s, m) && w < Workers(job) && v < Workers(job)
    requires Moves(job, w, m) && Moves(job, v, m)
    ensures s.todo[w] != [] && s.todo[v] != [] && s.todo[w][0].param == s.todo[v][0].param
  {
    SameRendezvous(job, s, m, w);
    SameRendezvous(job, s, m, v);
  }

  // ---------------------------------------------------------------- every move keeps the invariant

  /** A worker takes part with its next call, which belongs to the rendezvous at `a`. */
  ghost predicate StepsOver(job: Job, w: nat, at: nat, a: nat)
    requires job.size > 0
  {
    && at <= a < |AllEvents(job)|
    && (forall i {:trigger AllEvents(job)[i]} :: at <= i < a ==> !Takes(job, w, AllEvents(job)[i]))
    && Takes(job, w, AllEvents(job)[a])
  }

  /** What a move does to one worker. */
  lemma MoveOne(job: Job, s: Sys, m: Move, w: nat)
    requires Inv(job, s) && Enabled(job, s, m) && w < Workers(job)
    ensures Sized(job, Apply(job, s, m))
    ensures !Moves(job, w, m) ==> Apply(job, s, m).at[w] == s.at[w] && Apply(job, s, m).todo[w] == s.todo[w]
    ensures Moves(job, w, m) ==>
              var a := Upcoming(job, s, First(job, m.group));
              && StepsOver(job, w, s.at[w], a)
              && Apply(job, s, m).at[w] == a + 1
              && Apply(job, s, m).todo[w] == Project(job, w, AllEvents(job)[a + 1..])
  {
    hide Apply, Agreed, TensorInHand, HoldsExpected, Enabled, Moves, Project, AllEvents, Takes, NextIndex, Workers,
         OpOf;
    AfterWorker(job, s, m, w);
    if Moves(job, w, m) {
      SameRendezvous(job, s, m, w);
      NextFacts(job, w, AllEvents(job), s.at[w]);
      assert s.todo[w] == Project(job, w, AllEvents(job)[s.at[w]..]);
    }
  }

  lemma MoveOnScript(job: Job, s: Sys, m: Move)
    requires Inv(job, s) && Enabled(job, s, m)
    ensures Sized(job, Apply(job, s, m)) && OnScript(job, Apply(job, s, m))
  {
    AfterWorker(job, s, m, 0);
    forall w: nat | w < Workers(job)
      ensures
        var u := Apply(job, s, m);
        w < |u.at| && w < |u.todo| && u.at[w] <= |AllEvents(job)|
          && u.todo[w] == Project(job, w, AllEvents(job)[u.at[w]..])
    {
      hide Apply, OnScript, Agreed, TensorInHand, HoldsExpected, Enabled, Moves, Project, AllEvents, Takes, NextIndex;
      MoveOne(job, s, m, w);
      StayOnScript(job, s, w);
    }
    hide Apply, Agreed, TensorInHand, HoldsExpected, Enabled, Moves, Project, AllEvents, Takes, NextIndex;
  }

  lemma StayOnScript(job: Job, s: Sys, w: nat)
    requires Inv(job, s) && w < Workers(job)
    ensures s.at[w] <= |AllEvents(job)| && s.todo[w] == Project(job, w, AllEvents(job)[s.at[w]..])
  {
    hide Agreed, TensorInHand, HoldsExpected, Project, AllEvents;
  }

  /** A rendezvous before the one of the move is behind a mover exactly if it was. */
  lemma BehindAfter(job: Job, s: Sys, m: Move, w: nat, i: nat)
    requires Inv(job, s) && Enabled(job, s, m) && w < Workers(job)
    requires i < |AllEvents(job)| && Takes(job, w, AllEvents(job)[i])
    ensures
      var a := Upcoming(job, s, First(job, m.group));
      var u := Apply(job, s, m);
      && (i == a ==> Moves(job, w, m) && i < u.at[w])
      && (i != a ==> (i < u.at[w] <==> i < s.at[w]))
  {
    MoveOne(job, s, m, w);
    SameRendezvous(job, s, m, w);
  }

  lemma MoveAgreed(job: Job, s: Sys, m: Move)
    requires Inv(job, s) && Enabled(job, s, m)
    ensures Sized(job, Apply(job, s, m)) && Agreed(job, Apply(job, s, m))
  {
    var u := Apply(job, s, m);
    forall i: nat, w: nat, v: nat |
      i < |AllEvents(job)| && w < Workers(job) && v < Workers(job)
      && Takes(job, w, AllEvents(job)[i]) && Takes(job, v, AllEvents(job)[i])
      ensures i < u.at[w] <==> i < u.at[v]
    {
      BehindAfter(job, s, m, w, i);
      BehindAfter(job, s, m, v, i);
      assert i < s.at[w] <==> i < s.at[v];
    }
  }

  lemma MoveTensor(job: Job, s: Sys, m: Move)
    requires Inv(job, s) && Enabled(job, s, m)
    ensures Sized(job, Apply(job, s, m)) && TensorInHand(job, Apply(job, s, m))
  {
    AfterWorker(job, s, m, 0);
    forall w: nat | 0 < w < Workers(job)
      ensures HasTensor(job, Apply(job, s, m), w)
    {
      TensorOne(job, s, m, w);
    }
    hide Apply, Agreed, OnScript, HoldsExpected, Enabled, Moves, Project, AllEvents, Takes, NextIndex;
  }

  /** If worker w has just received, it holds the tensor of that rendezvous. */
  ghost predicate HasTensor(job: Job, s: Sys, w: nat)
    requires job.size > 0 && Sized(job, s) && w < Workers(job)
  {
    0 < s.at[w] <= |AllEvents(job)| ==>
      var e := AllEvents(job)[s.at[w] - 1];
      e.send && Takes(job, w, e) ==> s.full[w] == e.param
  }

  lemma TensorOne(job: Job, s: Sys, m: Move, w: nat)
    requires Inv(job, s) && Enabled(job, s, m) && 0 < w < Workers(job)
    ensures Sized(job, Apply(job, s, m)) && HasTensor(job, Apply(job, s, m), w)
  {
    AfterWorker(job, s, m, w);
    MoveOne(job, s, m, w);
    SameRendezvous(job, s, m, w);
    SameRendezvous(job, s, m, 0);
    hide Apply, Agreed, OnScript, HoldsExpected, AllEvents, Project, NextIndex, Upcoming, AtAfter, TodoAfter, HeldAfter;
    assert HasTensor(job, s, w);
  }

  // ---------------------------------------------------------------- the tensor of a collective

  /** In another group than 0 each collective comes right after the transfer of the same
      parameter to that group. */
  ghost predicate Paired(es: seq<Event>) {
    forall i {:trigger es[i]} :: 0 <= i < |es| && !es[i].send && es[i].group != 0 ==>
      i > 0 && es[i - 1] == Event(es[i].param, es[i].group, true)
  }

  lemma {:induction false} StagePaired(p: nat, stages: seq<nat>)
    ensures Paired(StageEvents(p, stages))
  {
    if stages != [] {
      StagePaired(p, stages[1..]);
      PairedConcat(if stages[0] == 0 then [Event(p, 0, false)]
                   else [Event(p, stages[0], true), Event(p, stages[0], false)],
                   StageEvents(p, stages[1..]));
    }
  }

  lemma PairedConcat(a: seq<Event>, b: seq<Event>)
    requires Paired(a) && Paired(b)
    ensures Paired(a + b)
  {
    forall i | 0 <= i < |a + b| && !(a + b)[i].send && (a + b)[i].group != 0
      ensures i > 0 && (a + b)[i - 1] == Event((a + b)[i].param, (a + b)[i].group, true)
    {
      if i < |a| { assert (a + b)[i] == a[i]; } else { assert (a + b)[i] == b[i - |a|]; }
    }
  }

  lemma {:induction false} AllPaired(job: Job, records: seq<nat>)
    ensures Paired(Events(job, records))
  {
    if records != [] {
      StagePaired(records[0], StagesOf(job, records[0]));
      AllPaired(job, records[1..]);
      PairedConcat(StageEvents(records[0], StagesOf(job, records[0])), Events(job, records[1..]));
    }
  }

  /** The tensor put into a collective is the one of the parameter collected. */
  lemma RightTensor(job: Job, s: Sys, m: Move)
    requires Inv(job, s) && Enabled(job, s, m) && m.Gather?
    ensures s.todo[First(job, m.group)] != [] && s.todo[First(job, m.group)][0].Collect?
    ensures Upcoming(job, s, First(job, m.group)) < |AllEvents(job)|
    ensures RootTensor(job, s, m.group) == AllEvents(job)[Upcoming(job, s, First(job, m.group))].param
  {
    var f := First(job, m.group);
    var es := AllEvents(job);
    RootIsThere(job, s, m);
    GroupOfFirst(job.size, m.group, f);
    SameRendezvous(job, s, m, f);
    MoveOne(job, s, m, f);
    var a := Upcoming(job, s, f);
    if m.group != 0 {
      AllPaired(job, job.records);
      assert es[a - 1] == Event(es[a].param, m.group, true);
      assert s.at[f] == a;
      FirstPositive(job, m.group);
      assert s.full[f] == es[a - 1].param;
    }
  }

  lemma FirstPositive(job: Job, g: nat)
    requires job.size > 0 && g > 0
    ensures First(job, g) > 0
  {
    TimesGrows(g, job.size);
  }

  lemma MoveHolds(job: Job, s: Sys, m: Move)
    requires Inv(job, s) && Enabled(job, s, m)
    ensures Sized(job, Apply(job, s, m)) && HoldsExpected(job, Apply(job, s, m))
  {
    var u := Apply(job, s, m);
    forall w: nat | w < Workers(job)
      ensures u.at[w] <= |AllEvents(job)| && u.held[w] == Expected(job, w, AllEvents(job)[..u.at[w]])
    {
      MoveOne(job, s, m, w);
      if Moves(job, w, m) { HoldsOne(job, s, m, w); } else { assert u.held[w] == s.held[w]; }
    }
  }

  lemma HoldsOne(job: Job, s: Sys, m: Move, w: nat)
    requires Inv(job, s) && Enabled(job, s, m) && w < Workers(job) && Moves(job, w, m)
    ensures Sized(job, Apply(job, s, m)) && Apply(job, s, m).at[w] <= |AllEvents(job)|
    ensures Apply(job, s, m).held[w] == Expected(job, w, AllEvents(job)[..Apply(job, s, m).at[w]])
  {
    hide Apply, Agreed, TensorInHand, Moves, Project, AllEvents, NextIndex, Workers, Expected, PieceOf;
    RootIsThere(job, s, m);
    var es := AllEvents(job);
    var a := Upcoming(job, s, First(job, m.group));
    MoveOne(job, s, m, w);
    AfterWorker(job, s, m, w);
    SameRendezvous(job, s, m, w);
    assert s.held[w] == Expected(job, w, es[..s.at[w]]);
    ExpectedSkips(job, w, es, s.at[w], a);
    ExpectedStep(job, w, es, a);
    if m.Gather? { RightTensor(job, s, m); }
  }

  lemma ExpectedStep(job: Job, w: nat, es: seq<Event>, a: nat)
    requires job.size > 0 && a < |es|
    ensures Expected(job, w, es[..a + 1])
            == if !es[a].send && Takes(job, w, es[a])
               then Expected(job, w, es[..a])[es[a].param := PieceOf(job, es[a].param, es[a].param, w % job.size)]
               else Expected(job, w, es[..a])
  {
    assert es[..a + 1][..a] == es[..a] && es[..a + 1][a] == es[a];
  }

  lemma MoveInv(job: Job, s: Sys, m: Move)
    requires Inv(job, s) && Enabled(job, s, m)
    ensures Inv(job, Apply(job, s, m))
  {
    hide OnScript, Agreed, TensorInHand, HoldsExpected, Apply, Enabled;
    MoveOnScript(job, s, m);
    MoveAgreed(job, s, m);
    MoveTensor(job, s, m);
    MoveHolds(job, s, m);
  }

  // ---------------------------------------------------------------- runs

  ghost predicate Run(job: Job, moves: seq<Move>, states: seq<Sys>)
    requires job.size > 0
  {
    && |states| == |moves| + 1
    && forall i {:trigger moves[i]} :: 0 <= i < |moves| ==>
         Enabled(job, states[i], moves[i]) && states[i + 1] == Apply(job, states[i], moves[i])
  }

  lemma {:induction false} RunInv(job: Job, moves: seq<Move>, states: seq<Sys>, i: nat)
    requires JobOk(job) && Run(job, moves, states) && states[0] == Initial(job) && i <= |moves|
    ensures Inv(job, states[i])
  {
    hide Inv, Apply, Enabled;
    if i == 0 {
      InitialInv(job);
    } else {
      RunInv(job, moves, states, i - 1);
      var m := moves[i - 1];
      MoveInv(job, states[i - 1], m);
    }
  }

  // ---------------------------------------------------------------- no deadlock

  /** Starting from a worker with work left, the earliest outstanding rendezvous can happen. */
  lemma {:induction false} SomeMove(job: Job, s: Sys, w: nat) returns (m: Move)
    requires Inv(job, s) && w < Workers(job) && s.todo[w] != []
    ensures Enabled(job, s, m)
    decreases Upcoming(job, s, w)
  {
    var es := AllEvents(job);
    NotPast(job, s, w, w);
    var a := Upcoming(job, s, w);
    var e := es[a];
    EventInRange(job, a);
    if v: nat :| v < Workers(job) && Takes(job, v, e) && Upcoming(job, s, v) != a {
      NotPast(job, s, w, v);
      NextFacts(job, v, es, s.at[v]);
      m := SomeMove(job, s, v);
    } else {
      m := if e.send then Transfer(e.group) else Gather(e.group);
      AllReady(job, s, a, m);
    }
  }

  /** If all takers of a rendezvous are about to do it, the move is enabled. */
  lemma AllReady(job: Job, s: Sys, a: nat, m: Move)
    requires Inv(job, s) && a < |AllEvents(job)| && First(job, AllEvents(job)[a].group) < Workers(job)
    requires AllEvents(job)[a].send ==> 0 < First(job, AllEvents(job)[a].group)
    requires m == if AllEvents(job)[a].send then Transfer(AllEvents(job)[a].group) else Gather(AllEvents(job)[a].group)
    requires forall v: nat :: v < Workers(job) && Takes(job, v, AllEvents(job)[a]) ==> Upcoming(job, s, v) == a
    ensures Enabled(job, s, m)
  {
    var e := AllEvents(job)[a];
    forall v: nat | v < Workers(job) && Takes(job, v, e)
      ensures s.todo[v] != [] && s.todo[v][0] == OpOf(v, e)
    {
      NextFacts(job, v, AllEvents(job), s.at[v]);
    }
    if e.send {
      assert Takes(job, 0, e) && Takes(job, First(job, e.group), e);
    }
  }

  /** Every rendezvous is for a group of the job, and transfers go to other groups. */
  ghost predicate InRange(job: Job, es: seq<Event>) {
    forall i {:trigger es[i]} :: 0 <= i < |es| ==> es[i].group < job.groups && (es[i].send ==> es[i].group > 0)
  }

  lemma {:induction false} StageInRange(job: Job, p: nat, stages: seq<nat>)
    requires forall j :: 0 <= j < |stages| ==> stages[j] < job.groups
    ensures InRange(job, StageEvents(p, stages))
  {
    if stages != [] {
      StageInRange(job, p, stages[1..]);
    }
  }

  lemma {:induction false} AllInRange(job: Job, records: seq<nat>)
    requires JobOk(job)
    ensures InRange(job, Events(job, records))
  {
    if records != [] {
      StageInRange(job, records[0], StagesOf(job, records[0]));
      AllInRange(job, records[1..]);
    }
  }

  lemma EventInRange(job: Job, a: nat)
    requires JobOk(job) && a < |AllEvents(job)|
    ensures First(job, AllEvents(job)[a].group) < Workers(job)
    ensures AllEvents(job)[a].send ==> 0 < First(job, AllEvents(job)[a].group)
  {
    AllInRange(job, job.records);
    var g := AllEvents(job)[a].group;
    TimesGrows(job.groups - g, job.size);
    assert job.groups * job.size == g * job.size + (job.groups - g) * job.size;
    if g > 0 { FirstPositive(job, g); }
  }

  /** In every reachable state where some worker has work left, some meeting can happen. */
  lemma NoDeadlock(job: Job, moves: seq<Move>, states: seq<Sys>, i: nat, w: nat)
    requires JobOk(job) && Run(job, moves, states) && states[0] == Initial(job) && i <= |moves|
    requires w < Workers(job) && Sized(job, states[i]) && states[i].todo[w] != []
    ensures exists m :: Enabled(job, states[i], m)
  {
    RunInv(job, moves, states, i);
    var m := SomeMove(job, states[i], w);
  }

  // ---------------------------------------------------------------- what every worker ends with

  /** The job gives parameter p to worker w: it is in the files and its group needs it. */
  predicate Belongs(job: Job, w: nat, p: nat)
    requires job.size > 0
  {
    p in job.records && GroupOf(job, w) in StagesOf(job, p)
  }

  /** Worker w holds exactly the parameters of the files that its group needs: its own shard
      of one that is sharded, and any other one whole. */
  ghost predicate HoldsExactly(job: Job, w: nat, held: map<nat, Piece>)
    requires job.size > 0
  {
    forall p: nat {:trigger p in held} {:trigger p in job.records} ::
      && (p in held <==> p in job.records && p < |job.params| && w / job.size in job.params[p].stages)
      && (p in held && job.params[p].sharded ==> held[p] == Shard(p, w % job.size))
      && (p in held && !job.params[p].sharded ==> held[p] == Whole(p))
  }

  /** When its script is done, a worker holds exactly its parameters. */
  lemma LoadedExactly(job: Job, moves: seq<Move>, states: seq<Sys>, w: nat)
    requires JobOk(job) && Run(job, moves, states) && states[0] == Initial(job)
    requires w < Workers(job) && Sized(job, states[|moves|]) && states[|moves|].todo[w] == []
    ensures HoldsExactly(job, w, states[|moves|].held[w])
  {
    hide Agreed, TensorInHand, Expected, Project, AllEvents, Takes, Initial, Belongs, GroupOf, Workers, HoldsExactly;
    RunInv(job, moves, states, |moves|);
    DoneHolds(job, states[|moves|], w);
  }

  /** When both are done, two workers of one group hold the same parameters: different shards
      of one that is sharded, and the same of any other. */
  lemma GroupShares(job: Job, moves: seq<Move>, states: seq<Sys>, v: nat, w: nat, p: nat)
    requires JobOk(job) && Run(job, moves, states) && states[0] == Initial(job)
    requires v < Workers(job) && w < Workers(job) && v != w && v / job.size == w / job.size
    requires Sized(job, states[|moves|]) && states[|moves|].todo[v] == [] && states[|moves|].todo[w] == []
    ensures
      var a, b := states[|moves|].held[v], states[|moves|].held[w];
      && (p in a <==> p in b)
      && (p in a ==> p < |job.params| && (a[p] == b[p] <==> !job.params[p].sharded))
  {
    LoadedExactly(job, moves, states, v);
    LoadedExactly(job, moves, states, w);
    assert v == (v / job.size) * job.size + v % job.size && w == (w / job.size) * job.size + w % job.size;
    hide Run, Initial, JobOk, Sized;
  }

  lemma DoneHolds(job: Job, s: Sys, w: nat)
    requires Inv(job, s) && w < Workers(job) && s.todo[w] == []
    ensures HoldsExactly(job, w, s.held[w])
  {
    hide Agreed, TensorInHand, Expected, Project, AllEvents, Takes, GroupOf, Workers;
    var es := AllEvents(job);
    NextFacts(job, w, es, s.at[w]);
    ExpectedSkips(job, w, es, s.at[w], |es|);
    assert es[..|es|] == es;
    assert s.held[w] == Expected(job, w, es);
    forall p: nat
      ensures p in s.held[w] <==> p in job.records && p < |job.params| && w / job.size in job.params[p].stages
      ensures p in s.held[w] ==> s.held[w][p] == if job.params[p].sharded then Shard(p, w % job.size) else Whole(p)
    {
      ExpectedMeaning(job, w, es, p);
      AllCollectsFor(job, w, p);
      BelongsMeans(job, w, p);
    }
  }

  lemma BelongsMeans(job: Job, w: nat, p: nat)
    requires job.size > 0
    ensures Belongs(job, w, p) <==> p in job.records && p < |job.params| && w / job.size in job.params[p].stages
  {
  }

  lemma AllCollectsFor(job: Job, w: nat, p: nat)
    requires job.size > 0
    ensures Collects(job, w, AllEvents(job), p) <==> Belongs(job, w, p)
  {
    CollectsFor(job, job.records, w, p);
  }

  /** The last loop of the loader: what the worker holds, in the order of the metadata. */
  method Reorder(job: Job, w: nat, held: map<nat, Piece>) returns (shards: seq<Option<Piece>>)
    requires job.size > 0 && HoldsExactly(job, w, held)
    ensures |shards| == |job.params|
    ensures forall p :: 0 <= p < |shards| ==>
              (shards[p].None? <==> !(p in job.records && w / job.size in job.params[p].stages))
    ensures forall p :: 0 <= p < |shards| && shards[p].Some? ==>
              shards[p].value == if job.params[p].sharded then Shard(p, w % job.size) else Whole(p)
  {
    hide HoldsExactly;
    shards := [];
    for p := 0 to |job.params|
      invariant |shards| == p
      invariant forall q :: 0 <= q < p ==> shards[q] == if q in held then Some(held[q]) else None
    {
      shards := shards + [if p in held then Some(held[p]) else None];
    }
    forall p: nat | p < |shards|
      ensures shards[p].None? <==> !(p in job.records && w / job.size in job.params[p].stages)
      ensures shards[p].Some? ==> shards[p].value == if job.params[p].sharded then Shard(p, w % job.size) else Whole(p)
    {
      HeldAt(job, w, held, p);
    }
  }

  lemma HeldAt(job: Job, w: nat, held: map<nat, Piece>, p: nat)
    requires job.size > 0 && HoldsExactly(job, w, held) && p < |job.params|
    ensures p in held <==> p in job.records && w / job.size in job.params[p].stages
    ensures p in held ==> held[p] == if job.params[p].sharded then Shard(p, w % job.size) else Whole(p)
  {
  }

  ghost predicate Collects(job: Job, w: nat, es: seq<Event>, p: nat)
    requires job.size > 0
  {
    exists i {:trigger es[i]} :: 0 <= i < |es| && !es[i].send && es[i].param == p && Takes(job, w, es[i])
  }

  lemma {:induction false} ExpectedMeaning(job: Job, w: nat, es: seq<Event>, p: nat)
    requires job.size > 0
    ensures p in Expected(job, w, es) <==> Collects(job, w, es, p)
    ensures p in Expected(job, w, es) ==> Expected(job, w, es)[p] == PieceOf(job, p, p, w % job.size)
  {
    if es != [] {
      var rest, e := es[..|es| - 1], es[|es| - 1];
      ExpectedMeaning(job, w, rest, p);
      if Collects(job, w, rest, p) {
        var i :| 0 <= i < |rest| && !rest[i].send && rest[i].param == p && Takes(job, w, rest[i]);
        assert es[i] == rest[i];
      }
      if Collects(job, w, es, p) {
        var i :| 0 <= i < |es| && !es[i].send && es[i].param == p && Takes(job, w, es[i]);
        if i < |rest| { assert rest[i] == es[i]; }
      }
    }
  }

  lemma CollectsConcat(job: Job, w: nat, a: seq<Event>, b: seq<Event>, p: nat)
    requires job.size > 0
    ensures Collects(job, w, a + b, p) <==> Collects(job, w, a, p) || Collects(job, w, b, p)
  {
    if Collects(job, w, a, p) {
      var i :| 0 <= i < |a| && !a[i].send && a[i].param == p && Takes(job, w, a[i]);
      assert (a + b)[i] == a[i];
    }
    if Collects(job, w, b, p) {
      var i :| 0 <= i < |b| && !b[i].send && b[i].param == p && Takes(job, w, b[i]);
      assert (a + b)[|a| + i] == b[i];
    }
    if Collects(job, w, a + b, p) {
      var i :| 0 <= i < |a + b| && !(a + b)[i].send && (a + b)[i].param == p && Takes(job, w, (a + b)[i]);
      if i < |a| { assert a[i] == (a + b)[i]; } else { assert b[i - |a|] == (a + b)[i]; }
    }
  }

  lemma {:induction false} StageCollects(job: Job, w: nat, q: nat, stages: seq<nat>, p: nat)
    requires job.size > 0
    ensures Collects(job, w, StageEvents(q, stages), p) <==> q == p && GroupOf(job, w) in stages
  {
    if stages != [] {
      var g := stages[0];
      var head := if g == 0 then [Event(q, 0, false)] else [Event(q, g, true), Event(q, g, false)];
      StageCollects(job, w, q, stages[1..], p);
      CollectsConcat(job, w, head, StageEvents(q, stages[1..]), p);
      assert head[|head| - 1] == Event(q, g, false);
      assert Collects(job, w, head, p) <==> q == p && GroupOf(job, w) == g;
    }
  }

  lemma {:induction false} CollectsFor(job: Job, records: seq<nat>, w: nat, p: nat)
    requires job.size > 0
    ensures Collects(job, w, Events(job, records), p) <==> p in records && GroupOf(job, w) in StagesOf(job, p)
  {
    if records != [] {
      StageCollects(job, w, records[0], StagesOf(job, records[0]), p);
      CollectsFor(job, records[1..], w, p);
      CollectsConcat(job, w, StageEvents(records[0], StagesOf(job, records[0])), Events(job, records[1..]), p);
    }
  }

  // ---------------------------------------------------------------- termination

  function Remaining(todo: seq<seq<Op>>): nat {
    if todo == [] then 0 else |todo[0]| + Remaining(todo[1..])
  }

  lemma {:induction false} RemainingShrinks(a: seq<seq<Op>>, b: seq<seq<Op>>, k: nat)
    requires |a| == |b| && k < |a| && |b[k]| < |a[k]|
    requires forall i :: 0 <= i < |a| ==> |b[i]| <= |a[i]|
    ensures Remaining(b) < Remaining(a)
  {
    if k > 0 { RemainingShrinks(a[1..], b[1..], k - 1); } else { RemainingKeeps(a[1..], b[1..]); }
  }

  lemma {:induction false} RemainingKeeps(a: seq<seq<Op>>, b: seq<seq<Op>>)
    requires |a| == |b| && forall i :: 0 <= i < |a| ==> |b[i]| <= |a[i]|
    ensures Remaining(b) <= Remaining(a)
  {
    if a != [] { RemainingKeeps(a[1..], b[1..]); }
  }

  /** No run is longer than the scripts together, so every run ends, and by NoDeadlock it
      can only end when all scripts are done. */
  lemma {:induction false} RunBounded(job: Job, moves: seq<Move>, states: seq<Sys>, i: nat)
    requires JobOk(job) && Run(job, moves, states) && states[0] == Initial(job) && i <= |moves|
    ensures i + Remaining(states[i].todo) <= Remaining(Initial(job).todo)
  {
    if i > 0 {
      RunBounded(job, moves, states, i - 1);
      RunInv(job, moves, states, i - 1);
      var s, m := states[i - 1], moves[i - 1];
      var f := First(job, m.group);
      GroupOfFirst(job.size, m.group, f);
      RootIsThere(job, s, m);
      RemainingShrinks(s.todo, states[i].todo, f);
    }
  }
}
