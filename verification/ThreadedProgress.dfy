/** What is certain to happen in the threaded engine, and what never will: which instructions
    are still executed, after how many steps of the loop, and which calls still return. */
module ThreadedProgress {
  import opened ThreadedEngine

  // ---------------------------------------------------------------- instructions left behind

  /** After an exit the loop takes no more instructions once it is here. */
  predicate LastBatch(pc: LoopPc) {
    || pc == Top || pc == Clearing || pc == Releasing || pc == Working
    || pc == TellingUnloaded || pc == Reloading || pc == TellingDone || pc == Stepping || pc == Done
  }

  /** The exit came too early for instruction j: it is not in the last batch, nor executed. */
  predicate Missed(s: Sys, j: nat) {
    s.exitNow && LastBatch(s.loop) && j >= |s.executed| + |s.local|
  }

  lemma ClientMissed(s: Sys, t: nat, j: nat)
    requires t < |s.clients| && ClientCanStep(s, s.clients[t])
    ensures Missed(s, j) ==> Missed(ApplyClient(s, t), j)
    ensures s.exitNow && !Missed(s, j) ==> !Missed(ApplyClient(s, t), j)
  {
  }

  lemma LoopMissed(s: Sys, busy: bool, j: nat)
    requires Inv(s) && LoopCanStep(s)
    ensures Missed(s, j) ==> Missed(ApplyLoop(s, busy), j)
    ensures !Missed(s, j) && j < |s.enqueued| ==> !Missed(ApplyLoop(s, busy), j)
  {
    TakenWhenEmpty(s);
    assert |s.enqueued| == |s.executed| + |s.local| + |s.queue|;
    hide Exclusive, WakeupOwed, Handshake, Counted, Told;
  }

  /** An instruction that is left behind stays so, and after the exit no other is. */
  lemma MissedStays(s: Sys, a: Action, j: nat)
    requires Inv(s) && Enabled(s, a)
    ensures Missed(s, j) ==> Missed(Apply(s, a), j)
    ensures s.exitNow && !Missed(s, j) && j < |s.enqueued| ==> !Missed(Apply(s, a), j)
  {
    match a
    case StepClient(t) => ClientMissed(s, t, j);
    case StepLoop(busy) => LoopMissed(s, busy, j);
    case _ => hide Inv, ApplyClient, ApplyLoop;
  }

  // ---------------------------------------------------------------- the steps still to come

  /** The steps of the loop from here to where it works on the batch that matters. */
  function StepsAhead(pc: LoopPc, inBatch: bool): nat {
    match pc
    case Clearing => if inBatch then 4 else 14
    case Releasing => if inBatch then 3 else 13
    case Working => if inBatch then 2 else 12
    case TellingUnloaded => if inBatch then 1 else 11
    case Reloading => if inBatch then 0 else 10
    case TellingDone => if inBatch then 3 else 13
    case Stepping => 11
    case Top => 10
    case Acquiring => 9
    case Asleep => 9
    case Announcing => 8
    case Reacquiring => 8
    case Testing => 7
    case Retracting => 6
    case Taking => 5
    case Done => 0
  }

  /** The loop executes instruction j within this number of its own steps. */
  function StepsToExecute(s: Sys, j: nat): nat {
    if j < |s.executed| then 0
    else 4 * (j + 1 - |s.executed|) + StepsAhead(s.loop, j < |s.executed| + |s.local|)
  }

  predicate ByLoop(a: Action) {
    a.StepLoop? || a.WakeLoop?
  }

  /** With an instruction in the queue the loop does not go to sleep. */
  lemma StaysAwake(s: Sys)
    requires Inv(s) && s.queue != []
    ensures !FallsAsleep(s)
  {
    hide Handshake, WakeupOwed;
  }

  lemma LoopAdvances(s: Sys, busy: bool, j: nat)
    requires Inv(s) && LoopCanStep(s) && |s.executed| <= j < |s.enqueued| && !Missed(s, j)
    ensures StepsToExecute(ApplyLoop(s, busy), j) < StepsToExecute(s, j)
  {
    if s.queue != [] { StaysAwake(s); }
    LocalMeans(s);
    hide Inv, Told, HasWork;
  }

  /** Where the instructions are that are not executed yet. */
  lemma LocalMeans(s: Sys)
    requires Inv(s)
    ensures |s.enqueued| == |s.executed| + |s.local| + |s.queue|
    ensures LocalFits(s.loop, s.local)
  {
    hide Exclusive, WakeupOwed, Handshake, Counted;
  }

  /** Every step of the loop brings a pending instruction closer, and no step of another
      thread sets it back. */
  lemma StepAdvances(s: Sys, a: Action, j: nat)
    requires Inv(s) && Enabled(s, a) && j < |s.enqueued| && !Missed(s, j)
    ensures StepsToExecute(Apply(s, a), j) <= StepsToExecute(s, j)
    ensures ByLoop(a) && j >= |s.executed| ==> StepsToExecute(Apply(s, a), j) < StepsToExecute(s, j)
    ensures j < |Apply(s, a).enqueued|
  {
    match a
    case StepLoop(busy) =>
      if j >= |s.executed| { LoopAdvances(s, busy, j); }
    case _ =>
  }

  /** The steps of the loop from state i to state k of a run. */
  function LoopSteps(actions: seq<Action>, i: nat, k: nat): nat
    requires i <= k <= |actions|
  {
    if i == k then 0 else LoopSteps(actions, i, k - 1) + if ByLoop(actions[k - 1]) then 1 else 0
  }

  /** From s to u, n steps of the loop have brought instruction j closer, or it is executed or
      left behind; after an exit it is left behind in both states or in neither. */
  ghost predicate Closer(s: Sys, u: Sys, j: nat, n: nat) {
    && j < |u.enqueued| && |s.executed| <= |u.executed|
    && (Missed(u, j) || j < |u.executed| || n + StepsToExecute(u, j) <= StepsToExecute(s, j))
    && (Missed(s, j) ==> Missed(u, j))
    && (s.exitNow ==> u.exitNow && (Missed(u, j) ==> Missed(s, j)))
  }

  lemma NotYetCloser(s: Sys, j: nat)
    requires j < |s.enqueued|
    ensures Closer(s, s, j, 0)
  {
  }

  lemma OneCloser(s: Sys, u: Sys, a: Action, j: nat, n: nat)
    requires Closer(s, u, j, n) && Inv(u) && Enabled(u, a)
    ensures Closer(s, Apply(u, a), j, n + if ByLoop(a) then 1 else 0)
  {
    hide Inv, Enabled, Apply, Missed, StepsToExecute, ByLoop;
    MissedStays(u, a, j);
    ExecutedGrows(u, a);
    if !Missed(u, j) { StepAdvances(u, a, j); }
  }

  lemma RunStep(actions: seq<Action>, states: seq<Sys>, k: nat)
    requires Run(actions, states) && 0 < k <= |actions|
    ensures |states| == |actions| + 1 && Enabled(states[k - 1], actions[k - 1])
    ensures states[k] == Apply(states[k - 1], actions[k - 1])
  {
    hide Enabled, Apply;
    assert Enabled(states[k - 1], actions[k - 1]);
  }

  lemma {:induction false} RunAdvances(actions: seq<Action>, states: seq<Sys>, threads: nat, i: nat, k: nat, j: nat)
    requires Run(actions, states) && states[0] == Initial(threads) && i <= k <= |actions| && j < |states[i].enqueued|
    ensures Closer(states[i], states[k], j, LoopSteps(actions, i, k))
    decreases k
  {
    hide Inv, Enabled, Apply, Closer, ByLoop, Initial;
    if i == k {
      NotYetCloser(states[i], j);
    } else {
      var s, u, a, n := states[i], states[k - 1], actions[k - 1], LoopSteps(actions, i, k - 1);
      RunAdvances(actions, states, threads, i, k - 1, j);
      RunInv(actions, states, threads, k - 1);
      RunStep(actions, states, k);
      assert LoopSteps(actions, i, k) == n + if ByLoop(a) then 1 else 0;
      OneCloser(s, u, a, j, n);
    }
  }

  lemma ExecutedGrows(s: Sys, a: Action)
    requires Enabled(s, a)
    ensures |s.executed| <= |Apply(s, a).executed| && |s.enqueued| <= |Apply(s, a).enqueued|
    ensures s.exitNow ==> Apply(s, a).exitNow
  {
    match a
    case StepLoop(busy) => hide Told, NextLoop, FallsAsleep;
    case StepClient(t) => hide NextPc, ClientCanStep;
    case _ => hide ApplyClient, ApplyLoop;
  }

  lemma EnoughSteps(s: Sys, u: Sys, j: nat, n: nat)
    requires Closer(s, u, j, n) && n >= 4 * (j + 1 - |s.executed|) + 14
    ensures j < |u.executed| <==> !Missed(u, j)
    ensures !u.exitNow ==> !Missed(u, j)
    ensures s.exitNow ==> (Missed(s, j) <==> Missed(u, j))
  {
  }

  /** Progress: once the loop has made the steps it needs, an instruction is executed exactly
      unless an exit came too early for it. Whether one did is settled at the exit. */
  lemma EnqueuedIsExecuted(actions: seq<Action>, states: seq<Sys>, threads: nat, i: nat, k: nat, j: nat)
    requires Run(actions, states) && states[0] == Initial(threads) && i <= k <= |actions| && j < |states[i].enqueued|
    requires LoopSteps(actions, i, k) >= 4 * (j + 1 - |states[i].executed|) + 14
    ensures j < |states[k].executed| <==> !Missed(states[k], j)
    ensures !states[k].exitNow ==> j < |states[k].executed|
    ensures states[i].exitNow ==> (j < |states[k].executed| <==> !Missed(states[i], j))
  {
    var s, u, n := states[i], states[k], LoopSteps(actions, i, k);
    RunAdvances(actions, states, threads, i, k, j);
    EnoughSteps(s, u, j, n);
    hide *;
  }

  // ---------------------------------------------------------------- the loop is never blocked for long

  /** The steps of its own until a thread lets the mutex go. */
  function StepsToRelease(pc: ClientPc): nat {
    match pc
    case Pushing(_) => 4
    case Counting(_) => 3
    case Reading(_) => 2
    case Unlocking(_, _) => 1
    case ExitSetting => 2
    case ExitUnlocking => 1
    case _ => 0
  }

  lemma {:induction false} ReleasedAlone(s: Sys, t: nat)
    requires t < |s.clients| && HoldsLock(s.clients[t])
    ensures Alone(s, t, StepsToRelease(s.clients[t])).holder == Free
    decreases StepsToRelease(s.clients[t])
  {
    var u := ApplyClient(s, t);
    if StepsToRelease(s.clients[t]) > 1 {
      ReleasedAlone(u, t);
    } else {
      assert Alone(u, t, 0) == u;
    }
  }

  /** What a thread does alone changes neither the loop, nor what was executed or taken, nor
      where other threads are. */
  lemma {:induction false} AloneKeeps(s: Sys, t: nat, n: nat)
    requires t < |s.clients|
    ensures
      var u := Alone(s, t, n);
      && u.loop == s.loop && u.executed == s.executed && u.local == s.local && s.enqueued <= u.enqueued
      && (forall q {:trigger u.clients[q]} :: 0 <= q < |s.clients| && q != t ==> u.clients[q] == s.clients[q])
    decreases n
  {
    if n > 0 && ClientCanStep(s, s.clients[t]) { AloneKeeps(ApplyClient(s, t), t, n - 1); }
  }

  /** While an instruction is waiting the loop can go on, or can after at most four steps of
      one thread that nothing can block. */
  lemma LoopUnblocked(s: Sys) returns (t: nat, n: nat)
    requires Inv(s) && s.queue != [] && s.loop != Done
    ensures n <= 4
    ensures LoopCanStep(s) || (t < |s.clients| && LoopCanStep(Alone(s, t, n)))
  {
    hide Handshake, ReplyOwed;
    t, n := 0, 0;
    if LoopCanStep(s) { return; }
    if s.loop == Asleep {
      t, n := AsleepOwed(s);
    } else {
      t := s.holder.tid;
      n := StepsToRelease(s.clients[t]);
      ReleasedAlone(s, t);
      AloneKeeps(s, t, n);
    }
  }

  lemma AsleepOwed(s: Sys) returns (t: nat, n: nat)
    requires Inv(s) && s.queue != [] && s.loop == Asleep && !s.signalled
    ensures n <= 4 && t < |s.clients| && Alone(s, t, n).signalled && Alone(s, t, n).loop == Asleep
  {
    hide Handshake, ReplyOwed, Conserved;
    if HasWork(s) {
      t :| 0 <= t < |s.clients| && Owes(s.clients[t]);
      n := StepsToNotify(s.clients[t]);
      OwedIsPaid(s, t);
    } else {
      t, n := s.holder.tid, 4;
      var u := ApplyClient(s, t);
      OwedIsPaid(u, t);
    }
    AloneKeeps(s, t, n);
  }

  // ---------------------------------------------------------------- the engine goes on

  /** While the engine has something left to do and no exit was asked for, the loop can go on,
      or can after at most four steps of the thread that holds the mutex. */
  lemma BusyUnblocked(s: Sys) returns (t: nat, n: nat)
    requires Inv(s) && s.busy && !s.exitNow
    ensures n <= 4
    ensures LoopCanStep(s) || (t < |s.clients| && LoopCanStep(Alone(s, t, n)))
  {
    hide Handshake, ReplyOwed, WakeupOwed, Conserved, Counted;
    t, n := 0, 0;
    if !LoopCanStep(s) {
      t := s.holder.tid;
      n := StepsToRelease(s.clients[t]);
      ReleasedAlone(s, t);
      AloneKeeps(s, t, n);
    }
  }

  /** The steps of the loop to the engine's step, not counting instructions. */
  function StepsToEngine(pc: LoopPc): (r: nat)
    ensures r <= 10
  {
    if pc == Stepping then 0 else StepsAhead(pc, true)
  }

  /** What the engine has left to do can change only when the loop executes an instruction, unloads
      for a reload or steps the engine, and then it can change to anything. */
  lemma BusyChanges(s: Sys, a: Action)
    requires Inv(s) && Enabled(s, a)
    ensures
      var u := Apply(s, a);
      && (u.busy != s.busy ==>
            a.StepLoop? && (|u.executed| > |s.executed| || u.loop == TellingUnloaded || s.loop == Stepping))
      && (a.StepLoop? && (|u.executed| > |s.executed| || s.loop == Stepping) ==> u.busy == a.busy)
  {
    match a
    case StepLoop(busy) =>
      LocalMeans(s);
      hide Inv, Told, FallsAsleep, HasWork;
    case StepClient(t) => hide Inv, NextPc, ClientCanStep;
    case _ => hide Inv, ApplyClient, ApplyLoop;
  }

  /** A reload unloads the old engine and says so before it loads the new one; an unload says so at
      once. The flag of a reload goes up with the new engine. */
  lemma FlagsGoUp(s: Sys, busy: bool)
    requires Inv(s) && LoopCanStep(s)
    ensures
      var u := ApplyLoop(s, busy);
      && (s.loop == Working && s.local != [] && s.local[0] == ReloadEngine ==>
            u.unloadFinished && u.loop == TellingUnloaded && u.executed == s.executed)
      && (s.loop == Working && s.local != [] && s.local[0] == UnloadEngine ==>
            u.unloadFinished && u.loop == TellingDone && u.executed == s.executed + [UnloadEngine])
      && (s.loop == Reloading ==>
          u.reloadFinished && u.loop == TellingDone && u.executed == s.executed + [ReloadEngine])
  {
    LocalMeans(s);
    hide Inv, Told, FallsAsleep, HasWork;
  }

  /** Which steps wake a sleeping loop: the notification after an exit, and the one after a call
      that read the waiting flag while it was up. */
  lemma SignalIff(s: Sys, a: Action)
    requires Inv(s) && Enabled(s, a) && s.loop == Asleep && !s.signalled
    ensures
      Apply(s, a).signalled <==>
        a.StepClient? && (s.clients[a.tid] == ExitNotifying || (s.clients[a.tid].Notifying? && s.clients[a.tid].need))
    ensures a.StepClient? && s.clients[a.tid].Reading? ==>
              Apply(s, a).clients[a.tid] == Unlocking(s.clients[a.tid].k, s.waiting)
  {
    hide Inv, Told, NextLoop;
  }

  /** The engine still has something to do, or the loop is past the test for it. */
  predicate GoesOn(s: Sys) {
    || s.loop == Retracting || s.loop == Taking || s.loop == Clearing || s.loop == Releasing
    || s.loop == Working || s.loop == TellingUnloaded || s.loop == Reloading || s.loop == TellingDone
    || (s.busy && s.loop != Asleep && s.loop != Reacquiring)
  }

  lemma LoopNearer(s: Sys, busy: bool)
    requires LocalFits(s.loop, s.local) && LoopCanStep(s) && GoesOn(s) && s.loop != Stepping && !s.exitNow
    ensures
      var u := ApplyLoop(s, busy);
      && (GoesOn(u) || u.loop == Stepping) && |s.executed| <= |u.executed|
      && StepsToEngine(u.loop) + 1 <= StepsToEngine(s.loop) + 4 * (|u.executed| - |s.executed|)
  {
    hide Told;
  }

  lemma EngineNearer(s: Sys, a: Action)
    requires Inv(s) && Enabled(s, a) && GoesOn(s) && s.loop != Stepping && !s.exitNow
    ensures
      var u := Apply(s, a);
      && (GoesOn(u) || u.loop == Stepping) && |s.executed| <= |u.executed|
      && StepsToEngine(u.loop) + (if ByLoop(a) then 1 else 0) <= StepsToEngine(s.loop)
         + 4 * (|u.executed| - |s.executed|)
  {
    LocalMeans(s);
    match a
    case StepLoop(busy) =>
      LoopNearer(s, busy);
      hide Inv, ApplyLoop, GoesOn, StepsToEngine;
    case StepClient(t) => hide Inv, NextPc, ClientCanStep, StepsToEngine;
    case _ => hide Inv, ApplyClient, ApplyLoop, StepsToEngine;
  }

  /** From s to u the engine went on without a step of its own. */
  ghost predicate Nearer(s: Sys, u: Sys, n: nat) {
    && (GoesOn(u) || u.loop == Stepping) && |s.executed| <= |u.executed|
    && n + StepsToEngine(u.loop) <= StepsToEngine(s.loop) + 4 * (|u.executed| - |s.executed|)
  }

  lemma OneNearer(s: Sys, u: Sys, a: Action, n: nat)
    requires Nearer(s, u, n) && Inv(u) && Enabled(u, a) && u.loop != Stepping && !u.exitNow
    ensures Nearer(s, Apply(u, a), n + if ByLoop(a) then 1 else 0)
  {
    hide Inv, Enabled, Apply, StepsToEngine, GoesOn, ByLoop;
    EngineNearer(u, a);
  }

  lemma NearerSelf(s: Sys)
    requires Inv(s) && s.busy && !s.exitNow
    ensures Nearer(s, s, 0)
  {
    hide Exclusive, FlagRight, Conserved, Counted, WakeupOwed, Handshake, ReplyOwed;
  }

  lemma {:induction false} RunNearer(actions: seq<Action>, states: seq<Sys>, threads: nat, i: nat, k: nat)
    requires Run(actions, states) && states[0] == Initial(threads) && i <= k <= |actions|
    requires states[i].busy && !states[k].exitNow
    requires forall q {:trigger states[q]} :: i <= q < k ==> states[q].loop != Stepping
    ensures Nearer(states[i], states[k], LoopSteps(actions, i, k))
    ensures forall q {:trigger states[q]} :: i <= q <= k ==> !states[q].exitNow
    decreases k
  {
    hide Inv, Enabled, Apply, Nearer, ByLoop, Initial;
    RunInv(actions, states, threads, i);
    if i == k {
      NearerSelf(states[i]);
    } else {
      var s, u, a, n := states[i], states[k - 1], actions[k - 1], LoopSteps(actions, i, k - 1);
      RunStep(actions, states, k);
      ExecutedGrows(u, a);
      RunNearer(actions, states, threads, i, k - 1);
      RunInv(actions, states, threads, k - 1);
      assert LoopSteps(actions, i, k) == n + if ByLoop(a) then 1 else 0;
      OneNearer(s, u, a, n);
    }
  }

  /** An engine with something left to do is stepped again: without an exit, the loop comes to
      the step of the engine within ten of its own steps and four for each instruction it
      executes on the way. */
  lemma EngineStepsAgain(actions: seq<Action>, states: seq<Sys>, threads: nat, i: nat, k: nat)
    requires Run(actions, states) && states[0] == Initial(threads) && i <= k <= |actions|
    requires states[i].busy && !states[k].exitNow
    requires LoopSteps(actions, i, k) > 10 + 4 * (|states[k].executed| - |states[i].executed|)
    ensures exists q {:trigger states[q]} :: i <= q < k && states[q].loop == Stepping
  {
    if forall q {:trigger states[q]} :: i <= q < k ==> states[q].loop != Stepping {
      RunNearer(actions, states, threads, i, k);
    }
  }

  // ---------------------------------------------------------------- continuations

  /** No thread wakes for no reason. */
  ghost predicate Unaided(actions: seq<Action>) {
    forall i {:trigger actions[i]} :: 0 <= i < |actions| ==> !actions[i].WakeClient? && !actions[i].WakeLoop?
  }

  /** Some continuation of s comes to u. */
  ghost predicate Reaches(s: Sys, u: Sys) {
    exists actions, states {:trigger Run(actions, states)} ::
      Run(actions, states) && Unaided(actions) && states[0] == s && states[|actions|] == u
  }

  lemma ReachesItself(s: Sys)
    ensures Reaches(s, s)
  {
    EmptyRun(s);
    assert Unaided([]);
  }

  /** One step on. */
  lemma Move(s: Sys, u: Sys, a: Action) returns (v: Sys)
    requires Reaches(s, u) && Inv(u) && Enabled(u, a) && !a.WakeClient? && !a.WakeLoop?
    ensures v == Apply(u, a) && Reaches(s, v) && Inv(v)
  {
    hide Inv, Enabled, Apply;
    var actions, states :| Run(actions, states) && Unaided(actions) && states[0] == s && states[|actions|] == u;
    var actions', states' := Then(actions, states, a);
    assert Unaided(actions');
    v := Apply(u, a);
    StepInv(u, a);
  }

  /** Thread t goes on alone. */
  lemma {:induction false} MoveAlone(s: Sys, u: Sys, t: nat, n: nat)
    requires Reaches(s, u) && Inv(u) && t < |u.clients|
    ensures Reaches(s, Alone(u, t, n)) && Inv(Alone(u, t, n))
    decreases n
  {
    hide Inv, Reaches;
    if n > 0 && ClientCanStep(u, u.clients[t]) {
      var v := Move(s, u, StepClient(t));
      MoveAlone(s, v, t, n - 1);
    }
  }

  /** Thread 0 is in a call whose instruction is number j. */
  predicate Waits(s: Sys, j: nat) {
    s.clients != [] && InFlight(s.clients[0]) && s.ticket == j
  }

  lemma WaitsOn(s: Sys, a: Action, j: nat)
    requires Inv(s) && Enabled(s, a) && Waits(s, j) && j >= |s.executed|
    ensures Waits(Apply(s, a), j)
  {
    hide Exclusive, Conserved, Counted, WakeupOwed, ReplyOwed;
  }

  lemma {:induction false} WaitsAlone(s: Sys, t: nat, n: nat, j: nat)
    requires Inv(s) && t < |s.clients| && Waits(s, j) && j >= |s.executed|
    ensures Waits(Alone(s, t, n), j)
    decreases n
  {
    hide Inv;
    if n > 0 && ClientCanStep(s, s.clients[t]) {
      WaitsOn(s, StepClient(t), j);
      StepInv(s, StepClient(t));
      WaitsAlone(ApplyClient(s, t), t, n - 1, j);
    }
  }

  /** The loop comes to where it can go on; a pending instruction is as far away as before. */
  lemma Unblock(s: Sys, u: Sys, j: nat) returns (v: Sys)
    requires Reaches(s, u) && Inv(u) && |u.executed| <= j < |u.enqueued| && !Missed(u, j)
    ensures Reaches(s, v) && Inv(v) && LoopCanStep(v) && |v.executed| <= j < |v.enqueued| && !Missed(v, j)
    ensures StepsToExecute(v, j) == StepsToExecute(u, j)
    ensures Waits(u, j) ==> Waits(v, j)
  {
    hide Inv, Reaches, Alone, LoopCanStep, Waits;
    if LoopCanStep(u) { return u; }
    PendingMeans(u, j);
    var t, n := LoopUnblocked(u);
    MoveAlone(s, u, t, n);
    AloneKeeps(u, t, n);
    if Waits(u, j) { WaitsAlone(u, t, n, j); }
    v := Alone(u, t, n);
  }

  /** A step of the loop towards a pending instruction. */
  lemma Advance(s: Sys, u: Sys, j: nat) returns (v: Sys)
    requires Reaches(s, u) && Inv(u) && LoopCanStep(u) && |u.executed| <= j < |u.enqueued| && !Missed(u, j)
    ensures Reaches(s, v) && Inv(v) && j < |v.enqueued| && !Missed(v, j)
    ensures StepsToExecute(v, j) < StepsToExecute(u, j)
    ensures Waits(u, j) ==> Waits(v, j)
  {
    hide Inv, Reaches, Missed, StepsToExecute, LoopCanStep, ApplyLoop, Waits;
    if Waits(u, j) { WaitsOn(u, StepLoop(false), j); }
    LoopMissed(u, false, j);
    StepAdvances(u, StepLoop(false), j);
    v := Move(s, u, StepLoop(false));
  }

  /** An instruction that is not left behind can still be executed. Thread 0 waits until then,
      if it waits for this one. */
  lemma {:induction false} CanBeExecuted(s: Sys, u: Sys, j: nat) returns (v: Sys)
    requires Reaches(s, u) && Inv(u) && j < |u.enqueued| && !Missed(u, j)
    ensures Reaches(s, v) && Inv(v) && j < |v.executed|
    ensures Waits(u, j) ==> Waits(v, j)
    decreases StepsToExecute(u, j)
  {
    hide *;
    if j < |u.executed| { return u; }
    v := Unblock(s, u, j);
    v := Advance(s, v, j);
    if j >= |v.executed| { v := CanBeExecuted(s, v, j); }
  }

  lemma PendingMeans(s: Sys, j: nat)
    requires Inv(s) && |s.executed| <= j < |s.enqueued| && !Missed(s, j) && !LoopCanStep(s)
    ensures s.queue != [] && s.loop != Done && !LastBatch(s.loop)
  {
    hide Exclusive, Counted, WakeupOwed, Handshake, ReplyOwed;
    assert |s.enqueued| == |s.executed| + |s.local| + |s.queue|;
  }

  /** No continuation executes an instruction that is left behind. */
  lemma {:induction false} NeverExecuted(actions: seq<Action>, states: seq<Sys>, i: nat, j: nat)
    requires Run(actions, states) && Inv(states[0]) && Missed(states[0], j) && i <= |actions|
    ensures Inv(states[i]) && Missed(states[i], j)
  {
    hide Inv, Missed, Enabled, Apply;
    if i > 0 {
      NeverExecuted(actions, states, i - 1, j);
      assert Enabled(states[i - 1], actions[i - 1]);
      StepInv(states[i - 1], actions[i - 1]);
      MissedStays(states[i - 1], actions[i - 1], j);
    }
  }

  /** In every reachable state, an instruction in the queue, in the batch or executed is left
      behind exactly if no continuation executes it. */
  lemma MissedIff(s: Sys, j: nat)
    requires Inv(s) && j < |s.enqueued|
    ensures Missed(s, j) <==> forall u {:trigger Reaches(s, u)} :: Reaches(s, u) ==> j >= |u.executed|
  {
    hide Inv;
    if Missed(s, j) {
      forall u | Reaches(s, u) ensures j >= |u.executed| {
        var actions, states :| Run(actions, states) && Unaided(actions) && states[0] == s && states[|actions|] == u;
        NeverExecuted(actions, states, |actions|, j);
      }
    } else {
      ReachesItself(s);
      hide Reaches;
      var u := CanBeExecuted(s, s, j);
    }
  }

  // ---------------------------------------------------------------- calls that never return

  /** Thread 0 is inside a reload or unload. */
  predicate InCall(s: Sys) {
    s.clients != [] && (BeforePush(s.clients[0]) || InFlight(s.clients[0]))
  }

  /** The loop waits for the mutex or for work; whoever gets the mutex first is served. */
  predicate Resting(pc: LoopPc) {
    pc == Acquiring || pc == Asleep || pc == Reacquiring
  }

  /** The exit came too early for the call of thread 0: its instruction is left behind, or
      will be pushed too late. */
  predicate Lost(s: Sys) {
    && s.exitNow && s.clients != []
    && if BeforePush(s.clients[0]) then !Resting(s.loop) else InFlight(s.clients[0]) && Missed(s, s.ticket)
  }

  lemma LostInCall(s: Sys)
    requires Lost(s)
    ensures InCall(s) && s.clients[0] != Idle
  {
  }

  lemma PushLost(s: Sys)
    requires Inv(s) && Lost(s) && s.clients[0].Pushing?
    ensures Lost(ApplyClient(s, 0))
  {
    assert s.holder == Client(0);
    assert |s.enqueued| == |s.executed| + |s.local| + |s.queue|;
    hide WakeupOwed, Handshake, Counted;
  }

  lemma WaitLost(s: Sys, a: Action)
    requires Inv(s) && Lost(s) && InFlight(s.clients[0]) && Enabled(s, a)
    ensures Lost(Apply(s, a))
  {
    WaitsOn(s, a, s.ticket);
    MissedStays(s, a, s.ticket);
    ExecutedGrows(s, a);
    hide Inv, Missed, Apply, Enabled;
  }

  lemma ClientLost(s: Sys, t: nat)
    requires Inv(s) && Lost(s) && t < |s.clients| && ClientCanStep(s, s.clients[t]) && BeforePush(s.clients[0])
    ensures Lost(ApplyClient(s, t))
  {
    if t == 0 && s.clients[0].Pushing? { PushLost(s); }
    hide Inv, Missed;
  }

  lemma LoopLost(s: Sys, busy: bool)
    requires Lost(s) && LoopCanStep(s) && BeforePush(s.clients[0])
    ensures Lost(ApplyLoop(s, busy))
  {
    hide Missed, InFlight;
  }

  /** A lost call stays lost, whatever happens. */
  lemma LostStays(s: Sys, a: Action)
    requires Inv(s) && Lost(s) && Enabled(s, a)
    ensures Lost(Apply(s, a))
  {
    if InFlight(s.clients[0]) {
      WaitLost(s, a);
    } else {
      match a
      case StepClient(t) => ClientLost(s, t);
      case StepLoop(busy) => LoopLost(s, busy);
      case _ => hide Inv;
    }
  }

  /** In no continuation does a lost call ever return. */
  lemma {:induction false} LostForever(actions: seq<Action>, states: seq<Sys>, i: nat)
    requires Run(actions, states) && Inv(states[0]) && Lost(states[0]) && i <= |actions|
    ensures Inv(states[i]) && Lost(states[i]) && states[i].clients != [] && states[i].clients[0] != Idle
  {
    hide Inv, Lost, Enabled, Apply;
    if i > 0 {
      LostForever(actions, states, i - 1);
      assert Enabled(states[i - 1], actions[i - 1]);
      StepInv(states[i - 1], actions[i - 1]);
      LostStays(states[i - 1], actions[i - 1]);
    }
    LostInCall(states[i]);
  }

  /** Once the loop has ended, a call of thread 0 is lost exactly if it is not finished. */
  lemma LostWhenDone(s: Sys)
    requires Inv(s) && InCall(s) && s.loop == Done
    ensures Lost(s) <==> !Finished(s, s.clients[0].k)
  {
    hide Exclusive, Counted, WakeupOwed, ReplyOwed;
  }

  // ---------------------------------------------------------------- all other calls can return

  /** The steps of the loop until it rests, when there is no exit. */
  function StepsToRest(s: Sys): nat {
    match s.loop
    case Announcing => 4 * |s.queue| + 20
    case Testing => 4 * |s.queue| + 19
    case Retracting => 4 * |s.queue| + 18
    case Taking => 4 * |s.queue| + 17
    case Clearing => 4 * |s.local| + 16
    case Releasing => 4 * |s.local| + 15
    case Working => 4 * |s.local| + 14
    case TellingUnloaded => 4 * |s.local| + 13
    case Reloading => 4 * |s.local| + 12
    case TellingDone => 4 * |s.local| + 15
    case Stepping => 3
    case Top => 2
    case _ => 0
  }

  lemma RestComes(s: Sys)
    requires Inv(s) && !Resting(s.loop) && !s.exitNow
    ensures LoopCanStep(s) && !ApplyLoop(s, false).exitNow
    ensures StepsToRest(ApplyLoop(s, false)) < StepsToRest(s)
    ensures s.clients != [] && BeforePush(s.clients[0]) ==>
              ApplyLoop(s, false).clients != [] && ApplyLoop(s, false).clients[0] == s.clients[0]
  {
    TakenWhenEmpty(s);
    hide Exclusive, Counted, WakeupOwed, Handshake, ReplyOwed, HasWork;
  }

  /** Without an exit the loop comes to rest; a call that is about to begin waits. */
  lemma {:induction false} Rest(s: Sys, u: Sys) returns (v: Sys)
    requires Reaches(s, u) && Inv(u) && u.clients != [] && BeforePush(u.clients[0])
    requires Resting(u.loop) || !u.exitNow
    ensures Reaches(s, v) && Inv(v) && Resting(v.loop) && v.clients != [] && v.clients[0] == u.clients[0]
    decreases StepsToRest(u)
  {
    hide Inv, Reaches, StepsToRest, LoopCanStep, ApplyLoop;
    if Resting(u.loop) { return u; }
    RestComes(u);
    v := Move(s, u, StepLoop(false));
    v := Rest(s, v);
  }

  /** The mutex becomes free. */
  lemma FreeMutex(s: Sys, u: Sys) returns (v: Sys)
    requires Reaches(s, u) && Inv(u) && Resting(u.loop) && u.clients != [] && u.clients[0].Locking?
    ensures Reaches(s, v) && Inv(v) && Resting(v.loop) && v.clients != [] && v.clients[0] == u.clients[0]
    ensures v.holder == Free
  {
    HolderIs(u);
    hide Inv, Reaches;
    if u.holder == Free { return u; }
    var t := u.holder.tid;
    ReleasedAlone(u, t);
    AloneKeeps(u, t, StepsToRelease(u.clients[t]));
    MoveAlone(s, u, t, StepsToRelease(u.clients[t]));
    v := Alone(u, t, StepsToRelease(u.clients[t]));
  }

  lemma HolderIs(s: Sys)
    requires Inv(s) && Resting(s.loop) && s.clients != [] && s.clients[0].Locking?
    ensures s.holder == Free
            || (s.holder.Client? && 0 < s.holder.tid < |s.clients| && HoldsLock(s.clients[s.holder.tid]))
  {
    hide Conserved, Counted, WakeupOwed, Handshake, ReplyOwed;
  }

  /** Thread 0 gets its instruction into the queue in time. */
  lemma GetIn(s: Sys, u: Sys) returns (v: Sys)
    requires Reaches(s, u) && Inv(u) && u.clients != [] && BeforePush(u.clients[0]) && !Lost(u)
    ensures Reaches(s, v) && Inv(v) && Waits(v, v.ticket) && v.ticket < |v.enqueued| && !Missed(v, v.ticket)
  {
    hide Inv, Reaches;
    v := u;
    if u.clients[0].Locking? {
      v := Rest(s, u);
      v := FreeMutex(s, v);
      v := Move(s, v, StepClient(0));
    }
    v := Move(s, v, StepClient(0));
  }

  /** The steps of its own until a finished call returns. */
  function StepsToReturn(pc: ClientPc): nat {
    match pc
    case Counting(_) => 5
    case Reading(_) => 4
    case Unlocking(_, _) => 3
    case Notifying(_, _) => 2
    case Checking(_) => 1
    case Blocked(_, _) => 2
    case _ => 0
  }

  lemma ReturnsStep(s: Sys, j: nat)
    requires Inv(s) && Waits(s, j) && j < |s.executed| && (s.clients[0].Blocked? ==> s.clients[0].signalled)
    ensures ClientCanStep(s, s.clients[0])
    ensures
      var u := ApplyClient(s, 0);
      && u.clients != [] && u.executed == s.executed
      && (u.clients[0] == Idle || (Waits(u, j) && !u.clients[0].Blocked?
                                   && StepsToReturn(u.clients[0]) < StepsToReturn(s.clients[0])))
  {
    hide Exclusive, Conserved, Counted, WakeupOwed, ReplyOwed;
  }

  lemma {:induction false} Return(s: Sys, u: Sys, j: nat) returns (v: Sys)
    requires Reaches(s, u) && Inv(u) && Waits(u, j) && j < |u.executed|
    requires (u.clients[0].Blocked? ==> u.clients[0].signalled)
    ensures Reaches(s, v) && v.clients != [] && v.clients[0] == Idle
    decreases StepsToReturn(u.clients[0])
  {
    hide Inv, Reaches, ClientCanStep, ApplyClient, InFlight;
    ReturnsStep(u, j);
    v := Move(s, u, StepClient(0));
    if v.clients[0] != Idle { v := Return(s, v, j); }
  }

  /** A call that waits unsignalled although it is finished is about to be told. */
  lemma ToldSoon(s: Sys, j: nat)
    requires Inv(s) && Waits(s, j) && j < |s.executed| && s.clients[0].Blocked? && !s.clients[0].signalled
    ensures LoopCanStep(s)
    ensures
      var u := ApplyLoop(s, false);
      Waits(u, j) && j < |u.executed| && u.clients[0].Blocked? && u.clients[0].signalled
  {
    hide Exclusive, Conserved, Counted, WakeupOwed;
  }

  lemma PushedMeans(s: Sys)
    requires Inv(s) && InCall(s) && !Lost(s) && !BeforePush(s.clients[0])
    ensures Waits(s, s.ticket) && s.ticket < |s.enqueued| && !Missed(s, s.ticket)
  {
    hide Exclusive, Conserved, Counted, WakeupOwed, ReplyOwed;
  }

  /** A call that is not lost can return. */
  lemma CanReturn(s: Sys) returns (v: Sys)
    requires Inv(s) && InCall(s) && !Lost(s)
    ensures Reaches(s, v) && v.clients != [] && v.clients[0] == Idle
  {
    hide Inv, Reaches, InFlight, BeforePush;
    ReachesItself(s);
    v := s;
    if BeforePush(s.clients[0]) { v := GetIn(s, s); } else { PushedMeans(s); }
    var j := v.ticket;
    v := CanBeExecuted(s, v, j);
    if v.clients[0].Blocked? && !v.clients[0].signalled {
      ToldSoon(v, j);
      v := Move(s, v, StepLoop(false));
    }
    v := Return(s, v, j);
  }

  /** In every reachable state in which thread 0 is inside a reload or unload, some
      continuation lets it return exactly if the call is not lost. */
  lemma ReturnsIff(s: Sys)
    requires Inv(s) && InCall(s)
    ensures !Lost(s) <==> exists u {:trigger Reaches(s, u)} :: Reaches(s, u) && u.clients != [] && u.clients[0] == Idle
  {
    hide Inv, InCall, Lost;
    if Lost(s) {
      forall u | Reaches(s, u) ensures u.clients != [] && u.clients[0] != Idle {
        var actions, states :| Run(actions, states) && Unaided(actions) && states[0] == s && states[|actions|] == u;
        LostForever(actions, states, |actions|);
      }
    } else {
      var u := CanReturn(s);
    }
  }

  // ---------------------------------------------------------------- what a call has waited for

  /** Thread 0 is on its way to push k, or waits for its instruction k from number e on, or an
      instruction k from number e on has been executed. */
  ghost predicate OnItsWay(s: Sys, k: Kind, e: nat) {
    && s.clients != [] && e <= |s.enqueued|
    && (|| s.clients[0] == Locking(k) || s.clients[0] == Pushing(k)
        || (InFlight(s.clients[0]) && s.clients[0].k == k && e <= s.ticket < |s.enqueued| && s.enqueued[s.ticket] == k)
        || Served(s, k, e))
  }

  ghost predicate Served(s: Sys, k: Kind, e: nat) {
    exists n {:trigger s.enqueued[n]} :: e <= n < |s.executed| && n < |s.enqueued| && s.enqueued[n] == k
  }

  lemma ServedStays(s: Sys, a: Action, k: Kind, e: nat)
    requires Enabled(s, a) && Served(s, k, e)
    ensures Served(Apply(s, a), k, e)
  {
    var n :| e <= n < |s.executed| && n < |s.enqueued| && s.enqueued[n] == k;
    EnqueuedStays(s, a);
    ExecutedGrows(s, a);
    assert Apply(s, a).enqueued[n] == k;
  }

  lemma EnqueuedStays(s: Sys, a: Action)
    requires Enabled(s, a)
    ensures s.enqueued <= Apply(s, a).enqueued
    ensures |s.clients| == |Apply(s, a).clients|
  {
    match a
    case StepLoop(busy) => hide NextLoop, FallsAsleep;
    case StepClient(t) => hide NextPc, ClientCanStep;
    case _ => hide ApplyClient, ApplyLoop;
  }

  lemma CallMovesOn(s: Sys, a: Action, k: Kind, e: nat)
    requires Inv(s) && Enabled(s, a) && (k == ReloadEngine || k == UnloadEngine) && OnItsWay(s, k, e)
    ensures OnItsWay(Apply(s, a), k, e)
  {
    EnqueuedStays(s, a);
    if Served(s, k, e) {
      ServedStays(s, a, k, e);
      hide Inv, Apply, Enabled, Served, InFlight;
    } else if a == StepClient(0) {
      CallSteps(s, k, e);
    } else {
      OthersStep(s, a);
      hide Inv, Apply, Enabled, Served;
    }
  }

  lemma CallSteps(s: Sys, k: Kind, e: nat)
    requires Inv(s) && s.clients != [] && ClientCanStep(s, s.clients[0])
    requires (k == ReloadEngine || k == UnloadEngine) && OnItsWay(s, k, e) && !Served(s, k, e)
    ensures OnItsWay(ApplyClient(s, 0), k, e)
  {
    hide Exclusive, Conserved, Counted, WakeupOwed, ReplyOwed;
  }

  /** A step of another thread or of the loop: thread 0 stays in its call, at most woken. */
  lemma OthersStep(s: Sys, a: Action)
    requires Enabled(s, a) && a != StepClient(0) && s.clients != [] && s.clients[0] != Idle
    ensures
      var u := Apply(s, a);
      && u.clients != [] && u.ticket == s.ticket
      && (|| u.clients[0] == s.clients[0]
          || (s.clients[0].Blocked? && InFlight(u.clients[0]) && u.clients[0].k == s.clients[0].k))
  {
    match a
    case StepLoop(busy) => hide NextLoop, FallsAsleep;
    case StepClient(t) => hide NextPc, ClientCanStep;
    case _ => hide ApplyClient, ApplyLoop;
  }

  lemma {:induction false} CallUnderway(actions: seq<Action>, states: seq<Sys>, threads: nat, i: nat, j: nat, k: Kind)
    requires Run(actions, states) && states[0] == Initial(threads) && i < j <= |actions|
    requires (k == ReloadEngine || k == UnloadEngine) && actions[i] == Begin(0, k)
    ensures OnItsWay(states[j], k, |states[i].enqueued|)
    decreases j
  {
    hide Inv, Enabled, Apply, OnItsWay, Initial;
    RunStep(actions, states, j);
    if j == i + 1 {
      CallBegins(states[i], k);
    } else {
      CallUnderway(actions, states, threads, i, j - 1, k);
      RunInv(actions, states, threads, j - 1);
      CallMovesOn(states[j - 1], actions[j - 1], k, |states[i].enqueued|);
    }
  }

  lemma CallBegins(s: Sys, k: Kind)
    requires Enabled(s, Begin(0, k))
    ensures OnItsWay(Apply(s, Begin(0, k)), k, |s.enqueued|)
  {
  }

  /** A reload or unload comes back only when an instruction of that kind, enqueued after the call
      began, has been executed. */
  lemma CallReturnsServed(actions: seq<Action>, states: seq<Sys>, threads: nat, i: nat, j: nat, k: Kind)
    requires Run(actions, states) && states[0] == Initial(threads) && i < j <= |actions|
    requires (k == ReloadEngine || k == UnloadEngine) && actions[i] == Begin(0, k)
    requires states[j].clients != [] && states[j].clients[0] == Idle
    ensures exists n {:trigger states[j].enqueued[n]} ::
              |states[i].enqueued| <= n < |states[j].executed| && n < |states[j].enqueued| && states[j].enqueued[n] == k
  {
    CallUnderway(actions, states, threads, i, j, k);
    hide Run, Initial;
  }

  /** Every other call comes back by itself: once it has the mutex, six steps of its own, and its
      instruction is enqueued and counted. */
  lemma OtherCallReturns(s: Sys, t: nat, k: Kind)
    requires t < |s.clients| && s.clients[t] == Locking(k) && s.holder == Free && k != ReloadEngine && k != UnloadEngine
    ensures
      var u := Alone(s, t, 6);
      && u.clients == s.clients[t := Idle] && u.holder == Free
      && u.enqueued == s.enqueued + [k] && u.queue == s.queue + [k] && u.count == s.count + 1
  {
    hide ApplyClient, ClientCanStep, Alone;
    CallStep(s, t, k);
    var a := ApplyClient(s, t);
    CallStep(a, t, k);
    var b := ApplyClient(a, t);
    CallStep(b, t, k);
    var c := ApplyClient(b, t);
    CallStep(c, t, k);
    var d := ApplyClient(c, t);
    CallStep(d, t, k);
    var e := ApplyClient(d, t);
    CallStep(e, t, k);
    AloneSix(s, t, a, b, c, d, e);
  }

  /** One step of a call that does not wait, from its place on. */
  lemma CallStep(s: Sys, t: nat, k: Kind)
    requires t < |s.clients| && k != ReloadEngine && k != UnloadEngine
    ensures s.clients[t] == Locking(k) && s.holder == Free ==>
              && ClientCanStep(s, s.clients[t])
              && var u := ApplyClient(s, t); u.clients == s.clients[t := Pushing(k)] && Same(s, u)
    ensures s.clients[t] == Pushing(k) ==>
              && ClientCanStep(s, s.clients[t])
              && var u := ApplyClient(s, t);
                 && u.clients == s.clients[t := Counting(k)] && u.queue == s.queue + [k]
                 && u.enqueued == s.enqueued + [k] && u.count == s.count
    ensures s.clients[t] == Counting(k) ==>
              && ClientCanStep(s, s.clients[t])
              && var u := ApplyClient(s, t);
                 && u.clients == s.clients[t := Reading(k)] && u.queue == s.queue && u.enqueued == s.enqueued
                 && u.count == s.count + 1
    ensures s.clients[t] == Reading(k) ==>
              && ClientCanStep(s, s.clients[t])
              && var u := ApplyClient(s, t); u.clients == s.clients[t := Unlocking(k, s.waiting)] && Same(s, u)
    ensures s.clients[t].Unlocking? && s.clients[t].k == k ==>
              && ClientCanStep(s, s.clients[t])
              && var u := ApplyClient(s, t);
                 u.clients == s.clients[t := Notifying(k, s.clients[t].need)] && Same(s, u) && u.holder == Free
    ensures s.clients[t].Notifying? && s.clients[t].k == k ==>
              && ClientCanStep(s, s.clients[t])
              && var u := ApplyClient(s, t); u.clients == s.clients[t := Idle] && Same(s, u) && u.holder == s.holder
  {
  }

  predicate Same(s: Sys, u: Sys) {
    u.queue == s.queue && u.enqueued == s.enqueued && u.count == s.count
  }

  lemma AloneSix(s: Sys, t: nat, a: Sys, b: Sys, c: Sys, d: Sys, e: Sys)
    requires t < |s.clients| && t < |a.clients| && t < |b.clients| && t < |c.clients| && t < |d.clients|
    requires t < |e.clients|
    requires ClientCanStep(s, s.clients[t]) && a == ApplyClient(s, t)
    requires ClientCanStep(a, a.clients[t]) && b == ApplyClient(a, t)
    requires ClientCanStep(b, b.clients[t]) && c == ApplyClient(b, t)
    requires ClientCanStep(c, c.clients[t]) && d == ApplyClient(c, t)
    requires ClientCanStep(d, d.clients[t]) && e == ApplyClient(d, t)
    requires ClientCanStep(e, e.clients[t]) && t < |ApplyClient(e, t).clients|
    ensures Alone(s, t, 6) == ApplyClient(e, t)
  {
    hide ApplyClient, ClientCanStep;
    assert Alone(s, t, 6) == Alone(a, t, 5) == Alone(b, t, 4) == Alone(c, t, 3);
    assert Alone(c, t, 3) == Alone(d, t, 2) == Alone(e, t, 1) == Alone(ApplyClient(e, t), t, 0);
  }
}
