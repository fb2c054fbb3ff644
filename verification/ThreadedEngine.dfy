/** The threaded engine as interleaved steps: any number of client threads that enqueue
    instructions under the background-loop mutex, the one background-loop thread that
    waits, drains and executes them, and the reload/unload handshake of thread 0. */
module ThreadedEngine {

  datatype Kind = AddRequest | AbortRequest | UnloadEngine | ReloadEngine | ResetEngine | DebugCall

  predicate IsControl(k: Kind) {
    k == UnloadEngine || k == ReloadEngine
  }

  /** Who holds the background-loop mutex. */
  datatype Holder = Free | Loop | Client(tid: nat)

  /** Where a client thread is. A call pushes its instruction, counts it and reads the
      waiting flag under the mutex, then notifies if the flag was set; Reload and Unload
      go on to wait for their flag. */
  datatype ClientPc =
    | Idle
    | Locking(k: Kind)
    | Pushing(k: Kind)
    | Counting(k: Kind)
    | Reading(k: Kind)
    | Unlocking(k: Kind, need: bool)
    | Notifying(k: Kind, need: bool)
    | Checking(k: Kind)
    | Blocked(k: Kind, signalled: bool)
    | ExitLocking
    | ExitSetting
    | ExitUnlocking
    | ExitNotifying

  /** Where the background loop is. The two Telling points still owe a notification to
      the thread that waits for a reload or unload. */
  datatype LoopPc =
    | Top | Acquiring | Announcing | Testing | Asleep | Reacquiring | Retracting
    | Taking | Clearing | Releasing | Working | TellingUnloaded | Reloading | TellingDone | Stepping | Done

  /** `ticket` is the position in `enqueued` of the last instruction thread 0 pushed;
      `enqueued` and `executed` are histories. */
  datatype Sys = Sys(holder: Holder, waiting: bool, count: nat, exitNow: bool,
                     queue: seq<Kind>, local: seq<Kind>, loop: LoopPc, signalled: bool, busy: bool,
                     clients: seq<ClientPc>, reloadFinished: bool, unloadFinished: bool,
                     ticket: nat, enqueued: seq<Kind>, executed: seq<Kind>)

  datatype Action =
    | Begin(tid: nat, k: Kind)
    | BeginExit(tid: nat)
    | StepClient(tid: nat)
    | WakeClient(tid: nat)
    | StepLoop(busy: bool)
    | WakeLoop

  function Initial(threads: nat): Sys {
    Sys(Free, false, 0, false, [], [], Top, false, false, seq(threads, i => Idle), false, false, 0, [], [])
  }

  // ---------------------------------------------------------------- steps

  /** What the background loop waits for. */
  predicate HasWork(s: Sys) {
    s.busy || s.count > 0 || s.exitNow
  }

  predicate Finished(s: Sys, k: Kind) {
    if k == ReloadEngine then s.reloadFinished else s.unloadFinished
  }

  predicate ClientCanStep(s: Sys, pc: ClientPc) {
    match pc
    case Idle => false
    case Locking(_) => s.holder == Free
    case ExitLocking => s.holder == Free
    case Blocked(_, signalled) => signalled
    case _ => true
  }

  predicate LoopCanStep(s: Sys) {
    match s.loop
    case Done => false
    case Acquiring => s.holder == Free
    case Reacquiring => s.holder == Free
    case Asleep => s.signalled
    case _ => true
  }

  /** Only thread 0 reloads and unloads. A blocked thread may wake for no reason. */
  predicate Enabled(s: Sys, a: Action) {
    match a
    case Begin(t, k) => t < |s.clients| && s.clients[t] == Idle && (IsControl(k) ==> t == 0)
    case BeginExit(t) => t < |s.clients| && s.clients[t] == Idle
    case StepClient(t) => t < |s.clients| && ClientCanStep(s, s.clients[t])
    case WakeClient(t) => t < |s.clients| && s.clients[t].Blocked?
    case StepLoop(_) => LoopCanStep(s)
    case WakeLoop => s.loop == Asleep
  }

  function At(s: Sys, t: nat, pc: ClientPc): Sys
    requires t < |s.clients|
  {
    s.(clients := s.clients[t := pc])
  }

  function Apply(s: Sys, a: Action): Sys
    requires Enabled(s, a)
  {
    match a
    case Begin(t, k) =>
      At(s, t, Locking(k)).(reloadFinished := s.reloadFinished && k != ReloadEngine,
                            unloadFinished := s.unloadFinished && k != UnloadEngine)
    case BeginExit(t) => At(s, t, ExitLocking)
    case StepClient(t) => ApplyClient(s, t)
    case WakeClient(t) => At(s, t, Checking(s.clients[t].k))
    case StepLoop(busy) => ApplyLoop(s, busy)
    case WakeLoop => s.(loop := Reacquiring)
  }

  /** Where a client thread goes next. */
  function NextPc(s: Sys, pc: ClientPc): ClientPc {
    match pc
    case Idle => Idle
    case Locking(k) => Pushing(k)
    case Pushing(k) => Counting(k)
    case Counting(k) => Reading(k)
    case Reading(k) => Unlocking(k, s.waiting)
    case Unlocking(k, need) => Notifying(k, need)
    case Notifying(k, _) => if IsControl(k) then Checking(k) else Idle
    case Checking(k) => if Finished(s, k) then Idle else Blocked(k, false)
    case Blocked(k, _) => Checking(k)
    case ExitLocking => ExitSetting
    case ExitSetting => ExitUnlocking
    case ExitUnlocking => ExitNotifying
    case ExitNotifying => Idle
  }

  /** A notification wakes the loop if it is asleep, and is lost otherwise. */
  predicate Notifies(pc: ClientPc) {
    (pc.Notifying? && pc.need) || pc.ExitNotifying?
  }

  function ApplyClient(s: Sys, t: nat): Sys
    requires t < |s.clients| && ClientCanStep(s, s.clients[t])
  {
    var pc := s.clients[t];
    s.(clients := s.clients[t := NextPc(s, pc)],
       holder := if pc.Locking? || pc.ExitLocking? then Client(t)
                 else if pc.Unlocking? || pc.ExitUnlocking? then Free else s.holder,
       queue := if pc.Pushing? then s.queue + [pc.k] else s.queue,
       enqueued := if pc.Pushing? then s.enqueued + [pc.k] else s.enqueued,
       ticket := if pc.Pushing? && t == 0 then |s.enqueued| else s.ticket,
       count := if pc.Counting? then s.count + 1 else s.count,
       exitNow := s.exitNow || pc.ExitSetting?,
       signalled := s.signalled || (Notifies(pc) && s.loop == Asleep))
  }

  /** Wake thread 0 if it waits for a reload or unload. */
  function Told(clients: seq<ClientPc>): (r: seq<ClientPc>)
    ensures |r| == |clients| && forall t :: 0 < t < |clients| ==> r[t] == clients[t]
  {
    if clients != [] && clients[0].Blocked? then clients[0 := Blocked(clients[0].k, true)] else clients
  }

  /** The loop goes to sleep: nothing to do under the mutex. */
  predicate FallsAsleep(s: Sys) {
    s.loop == Testing && !HasWork(s)
  }

  /** The loop finishes the first instruction of its batch. A reload first unloads the
      old engine and tells so. */
  predicate Finishes(s: Sys) {
    s.local != [] && (if s.local[0] == ReloadEngine then s.loop == Reloading else s.loop == Working)
  }

  function NextLoop(s: Sys): LoopPc {
    match s.loop
    case Top => if s.exitNow then Done else Acquiring
    case Acquiring => Announcing
    case Announcing => Testing
    case Testing => if HasWork(s) then Retracting else Asleep
    case Asleep => Reacquiring
    case Reacquiring => Testing
    case Retracting => Taking
    case Taking => Clearing
    case Clearing => Releasing
    case Releasing => Working
    case Working =>
      if s.local == [] then Stepping
      else if s.local[0] == ReloadEngine then TellingUnloaded
      else if s.local[0] == UnloadEngine then TellingDone
      else Working
    case TellingUnloaded => Reloading
    case Reloading => TellingDone
    case TellingDone => Working
    case Stepping => Top
    case Done => Done
  }

  /** `busy` is what the engine has left to do after the step, if the step runs it. */
  function ApplyLoop(s: Sys, busy: bool): Sys
    requires LoopCanStep(s)
  {
    s.(loop := NextLoop(s),
       holder := if s.loop == Acquiring || s.loop == Reacquiring then Loop
                 else if FallsAsleep(s) || s.loop == Releasing then Free else s.holder,
       waiting := s.loop == Announcing || (s.waiting && s.loop != Retracting),
       signalled := s.signalled && !FallsAsleep(s),
       queue := if s.loop == Taking then [] else s.queue,
       count := if s.loop == Clearing then 0 else s.count,
       local := if s.loop == Taking then s.queue else if Finishes(s) then s.local[1..] else s.local,
       executed := if Finishes(s) then s.executed + [s.local[0]] else s.executed,
       unloadFinished := s.unloadFinished || (s.loop == Working && s.local != [] && IsControl(s.local[0])),
       reloadFinished := s.reloadFinished || (s.loop == Reloading && s.local != []),
       clients := if s.loop == TellingUnloaded || s.loop == TellingDone then Told(s.clients) else s.clients,
       busy := if (s.loop == Working && s.local != []) || s.loop == Reloading || s.loop == Stepping then busy
               else s.busy)
  }

  // ---------------------------------------------------------------- invariant

  predicate HoldsLock(pc: ClientPc) {
    pc.Pushing? || pc.Counting? || pc.Reading? || pc.Unlocking? || pc.ExitSetting? || pc.ExitUnlocking?
  }

  predicate LoopHoldsLock(pc: LoopPc) {
    pc == Announcing || pc == Testing || pc == Retracting || pc == Taking || pc == Clearing || pc == Releasing
  }

  /** Mutual exclusion on the background-loop mutex. */
  ghost predicate Exclusive(s: Sys) {
    && (s.holder == Loop <==> LoopHoldsLock(s.loop))
    && (forall t {:trigger s.clients[t]} :: 0 <= t < |s.clients| ==>
        (s.holder == Client(t) <==> HoldsLock(s.clients[t])))
    && (s.holder.Client? ==> s.holder.tid < |s.clients|)
  }

  /** The waiting flag is up exactly while the loop may be asleep. */
  predicate FlagRight(s: Sys) {
    s.waiting <==> s.loop == Testing || s.loop == Asleep || s.loop == Reacquiring || s.loop == Retracting
  }

  /** Nothing enqueued is lost, repeated or reordered. */
  predicate Conserved(s: Sys) {
    s.executed + s.local + s.queue == s.enqueued && LocalFits(s.loop, s.local)
  }

  /** The taken batch is what the loop's place says. */
  predicate LocalFits(pc: LoopPc, local: seq<Kind>) {
    && (pc == TellingUnloaded || pc == Reloading ==> local != [] && local[0] == ReloadEngine)
    && (Drained(pc) ==> local == [])
  }

  /** The loop is not between taking a batch and finishing it. */
  predicate Drained(pc: LoopPc) {
    !(pc == Clearing || pc == Releasing || pc == Working || pc == TellingUnloaded || pc == Reloading
      || pc == TellingDone)
  }

  predicate InCounting(s: Sys) {
    s.holder.Client? && s.holder.tid < |s.clients| && s.clients[s.holder.tid].Counting?
  }

  /** The pending count is the queue length, except between the push and the count. */
  predicate Counted(s: Sys) {
    if s.loop == Clearing then s.queue == []
    else s.count + (if InCounting(s) then 1 else 0) == |s.queue|
  }

  /** The thread still has the waking of a sleeping loop ahead of it. */
  predicate Owes(pc: ClientPc) {
    || pc.Reading?
    || (pc.Unlocking? && pc.need)
    || (pc.Notifying? && pc.need)
    || pc.ExitUnlocking? || pc.ExitNotifying?
  }

  /** No lost wakeup. */
  ghost predicate WakeupOwed(s: Sys) {
    s.loop == Asleep && !s.signalled && HasWork(s) ==> exists t :: 0 <= t < |s.clients| && Owes(s.clients[t])
  }

  /** Thread 0 is between its push and its return from a reload or unload. */
  predicate InFlight(pc: ClientPc) {
    || ((pc.Counting? || pc.Reading? || pc.Unlocking? || pc.Notifying?) && IsControl(pc.k))
    || pc.Checking? || pc.Blocked?
  }

  predicate BeforePush(pc: ClientPc) {
    (pc.Locking? || pc.Pushing?) && IsControl(pc.k)
  }

  /** Only thread 0 is inside a reload or unload, and only its latest one can be
      outstanding; the flag it waits for says exactly that it has been executed. */
  ghost predicate Handshake(s: Sys) {
    && (forall t {:trigger s.clients[t]} :: 0 < t < |s.clients| ==>
        !InFlight(s.clients[t]) && !BeforePush(s.clients[t]))
    && (forall i {:trigger s.enqueued[i]} :: 0 <= i < |s.enqueued| && IsControl(s.enqueued[i]) ==>
          i < |s.executed| || (s.clients != [] && InFlight(s.clients[0]) && i == s.ticket))
    && (s.clients != [] ==>
          var pc := s.clients[0];
          && (InFlight(pc) ==> s.ticket < |s.enqueued| && IsControl(pc.k) && s.enqueued[s.ticket] == pc.k
                               && (Finished(s, pc.k) <==> s.ticket < |s.executed|))
          && (BeforePush(pc) ==> !Finished(s, pc.k)))
  }

  /** No lost wakeup of thread 0 either. */
  predicate ReplyOwed(s: Sys) {
    s.clients != [] && s.clients[0].Blocked? && !s.clients[0].signalled && Finished(s, s.clients[0].k) ==>
      s.loop == TellingUnloaded || s.loop == TellingDone
  }

  /** The loop ends only after an exit. */
  predicate DoneRight(s: Sys) {
    s.loop == Done ==> s.exitNow
  }

  /** The loop sleeps only while the engine has nothing left to do. */
  predicate RestsIdle(s: Sys) {
    s.loop == Asleep || s.loop == Reacquiring ==> !s.busy
  }

  ghost predicate Inv(s: Sys) {
    && RestsIdle(s) && DoneRight(s) && Exclusive(s) && FlagRight(s) && Conserved(s) && Counted(s) && WakeupOwed(s)
    && Handshake(s)
    && ReplyOwed(s)
  }

  // ---------------------------------------------------------------- every step keeps it

  lemma InitialInv(threads: nat)
    ensures Inv(Initial(threads))
  {
  }

  lemma ClientExclusive(s: Sys, t: nat)
    requires Exclusive(s) && t < |s.clients| && ClientCanStep(s, s.clients[t])
    ensures Exclusive(ApplyClient(s, t))
  {
    var u := ApplyClient(s, t);
    forall q | 0 <= q < |u.clients| ensures u.holder == Client(q) <==> HoldsLock(u.clients[q]) {
      assert s.holder == Client(q) <==> HoldsLock(s.clients[q]);
      assert s.holder == Client(t) <==> HoldsLock(s.clients[t]);
    }
  }

  lemma LoopExclusive(s: Sys, busy: bool)
    requires Exclusive(s) && LoopCanStep(s)
    ensures Exclusive(ApplyLoop(s, busy))
  {
    var u := ApplyLoop(s, busy);
    forall q | 0 <= q < |u.clients| ensures u.holder == Client(q) <==> HoldsLock(u.clients[q]) {
      assert s.holder == Client(q) <==> HoldsLock(s.clients[q]);
    }
  }

  lemma StepExclusive(s: Sys, a: Action)
    requires Exclusive(s) && FlagRight(s) && Enabled(s, a)
    ensures Exclusive(Apply(s, a)) && FlagRight(Apply(s, a))
  {
    match a
    case StepClient(t) => ClientExclusive(s, t);
    case StepLoop(busy) => LoopExclusive(s, busy);
    case WakeLoop =>
    case Begin(t, k) => MoveExclusive(s, t, Locking(k));
    case BeginExit(t) => MoveExclusive(s, t, ExitLocking);
    case WakeClient(t) => MoveExclusive(s, t, Checking(s.clients[t].k));
  }

  lemma MoveExclusive(s: Sys, t: nat, pc: ClientPc)
    requires Exclusive(s) && t < |s.clients| && !HoldsLock(s.clients[t]) && !HoldsLock(pc)
    ensures Exclusive(At(s, t, pc))
  {
    var u := At(s, t, pc);
    forall q | 0 <= q < |u.clients| ensures u.holder == Client(q) <==> HoldsLock(u.clients[q]) {
      assert s.holder == Client(q) <==> HoldsLock(s.clients[q]);
    }
  }

  lemma ClientConserved(s: Sys, t: nat)
    requires Exclusive(s) && Conserved(s) && Counted(s) && t < |s.clients| && ClientCanStep(s, s.clients[t])
    ensures Conserved(ApplyClient(s, t)) && Counted(ApplyClient(s, t))
  {
    assert s.holder == Client(t) <==> HoldsLock(s.clients[t]);
    if s.clients[t].Pushing? {
      assert s.executed + s.local + (s.queue + [s.clients[t].k]) == s.enqueued + [s.clients[t].k];
    }
  }

  lemma LoopConserved(s: Sys, busy: bool)
    requires Exclusive(s) && Conserved(s) && Counted(s) && LoopCanStep(s)
    ensures Conserved(ApplyLoop(s, busy)) && Counted(ApplyLoop(s, busy))
  {
    LoopConserves(s, busy);
    LoopCounts(s, busy);
  }

  lemma LoopConserves(s: Sys, busy: bool)
    requires Conserved(s) && LoopCanStep(s)
    ensures Conserved(ApplyLoop(s, busy))
  {
    LoopLocal(s, busy);
    TakenWhenEmpty(s);
    LoopHistory(s, busy);
    hide ApplyLoop, LocalFits, LoopCanStep;
    if s.loop == Taking {
      assert s.executed + s.queue + [] == s.executed + [] + s.queue;
    } else if Finishes(s) {
      assert s.executed + [s.local[0]] + s.local[1..] == s.executed + s.local;
    }
  }

  /** What a step of the loop does to the instructions. */
  lemma LoopHistory(s: Sys, busy: bool)
    requires LoopCanStep(s)
    ensures
      var u := ApplyLoop(s, busy);
      && u.enqueued == s.enqueued
      && u.queue == (if s.loop == Taking then [] else s.queue)
      && u.local == (if s.loop == Taking then s.queue else if Finishes(s) then s.local[1..] else s.local)
      && u.executed == (if Finishes(s) then s.executed + [s.local[0]] else s.executed)
  {
    hide Told, NextLoop, FallsAsleep, HasWork;
  }

  lemma TakenWhenEmpty(s: Sys)
    requires LocalFits(s.loop, s.local)
    ensures s.loop == Taking ==> s.local == []
  {
  }

  lemma LoopLocal(s: Sys, busy: bool)
    requires LocalFits(s.loop, s.local) && LoopCanStep(s)
    ensures LocalFits(ApplyLoop(s, busy).loop, ApplyLoop(s, busy).local)
  {
    hide Told;
  }

  lemma LoopCounts(s: Sys, busy: bool)
    requires Exclusive(s) && Conserved(s) && Counted(s) && LoopCanStep(s)
    ensures Counted(ApplyLoop(s, busy))
  {
    LoopKeepsCounting(s, busy);
    hide Told, InCounting, Exclusive;
  }

  lemma LoopKeepsCounting(s: Sys, busy: bool)
    requires Exclusive(s) && LoopCanStep(s)
    ensures InCounting(ApplyLoop(s, busy)) == InCounting(s)
  {
    ToldCounting(s);
    hide Told;
  }

  /** Waking thread 0 does not touch a thread that is counting. */
  lemma ToldCounting(s: Sys)
    requires Exclusive(s)
    ensures InCounting(s.(clients := Told(s.clients))) == InCounting(s)
  {
    if s.clients != [] { assert s.holder == Client(0) <==> HoldsLock(s.clients[0]); }
  }

  lemma StepConserved(s: Sys, a: Action)
    requires Exclusive(s) && Conserved(s) && Counted(s) && Enabled(s, a)
    ensures Conserved(Apply(s, a)) && Counted(Apply(s, a))
  {
    match a
    case StepClient(t) => ClientConserved(s, t);
    case StepLoop(busy) => LoopConserved(s, busy);
    case WakeLoop =>
    case Begin(t, k) => assert s.holder == Client(t) <==> HoldsLock(s.clients[t]);
    case BeginExit(t) => assert s.holder == Client(t) <==> HoldsLock(s.clients[t]);
    case WakeClient(t) => assert s.holder == Client(t) <==> HoldsLock(s.clients[t]);
  }

  /** A thread that owes a wakeup keeps owing it while others move. */
  lemma StillOwed(s: Sys, clients: seq<ClientPc>, t: nat)
    requires WakeupOwed(s) && t < |s.clients| == |clients|
    requires s.loop == Asleep && !s.signalled && HasWork(s)
    requires forall q :: 0 <= q < |s.clients| && q != t ==> clients[q] == s.clients[q]
    requires Owes(s.clients[t]) ==> Owes(clients[t])
    ensures exists q :: 0 <= q < |clients| && Owes(clients[q])
  {
    var q :| 0 <= q < |s.clients| && Owes(s.clients[q]);
    assert Owes(clients[q]);
  }

  lemma ClientWakeup(s: Sys, t: nat)
    requires FlagRight(s) && WakeupOwed(s) && t < |s.clients| && ClientCanStep(s, s.clients[t])
    ensures WakeupOwed(ApplyClient(s, t))
  {
    var u := ApplyClient(s, t);
    if u.loop == Asleep && !u.signalled && HasWork(u) {
      if Owes(u.clients[t]) {
      } else {
        StillOwed(s, u.clients, t);
      }
    }
  }

  lemma StepWakeup(s: Sys, a: Action)
    requires FlagRight(s) && WakeupOwed(s) && Enabled(s, a)
    ensures WakeupOwed(Apply(s, a))
  {
    var u := Apply(s, a);
    match a
    case StepClient(t) => ClientWakeup(s, t);
    case StepLoop(busy) =>
    case WakeLoop =>
    case Begin(t, k) => if s.loop == Asleep && !s.signalled && HasWork(s) { StillOwed(s, u.clients, t); }
    case BeginExit(t) => if s.loop == Asleep && !s.signalled && HasWork(s) { StillOwed(s, u.clients, t); }
    case WakeClient(t) => if s.loop == Asleep && !s.signalled && HasWork(s) { StillOwed(s, u.clients, t); }
  }

  lemma ClientHandshake(s: Sys, t: nat)
    requires Conserved(s) && Handshake(s) && ReplyOwed(s) && t < |s.clients| && ClientCanStep(s, s.clients[t])
    ensures Handshake(ApplyClient(s, t)) && ReplyOwed(ApplyClient(s, t))
  {
    var u := ApplyClient(s, t);
    forall i | 0 <= i < |u.enqueued| && IsControl(u.enqueued[i])
      ensures i < |u.executed| || (u.clients != [] && InFlight(u.clients[0]) && i == u.ticket)
    {
      if i < |s.enqueued| { assert IsControl(s.enqueued[i]); }
    }
  }

  lemma LoopHandshake(s: Sys, busy: bool)
    requires Conserved(s) && Handshake(s) && ReplyOwed(s) && LoopCanStep(s)
    ensures Handshake(ApplyLoop(s, busy)) && ReplyOwed(ApplyLoop(s, busy))
  {
    var u := ApplyLoop(s, busy);
    if s.local != [] {
      assert s.enqueued[|s.executed|] == s.local[0];
    }
  }

  lemma BeginHandshake(s: Sys, t: nat, k: Kind)
    requires Conserved(s) && Handshake(s) && ReplyOwed(s) && Enabled(s, Begin(t, k))
    ensures Handshake(Apply(s, Begin(t, k))) && ReplyOwed(Apply(s, Begin(t, k)))
  {
    var u := Apply(s, Begin(t, k));
    assert !InFlight(s.clients[t]) && !InFlight(u.clients[t]);
    forall i | 0 <= i < |u.enqueued| && IsControl(u.enqueued[i])
      ensures i < |u.executed| || (u.clients != [] && InFlight(u.clients[0]) && i == u.ticket)
    {
      assert IsControl(s.enqueued[i]);
    }
    if t > 0 { BeginElsewhere(s, t, k); }
  }

  lemma BeginElsewhere(s: Sys, t: nat, k: Kind)
    requires Enabled(s, Begin(t, k)) && t > 0
    ensures
      var u := Apply(s, Begin(t, k));
      u.clients[0] == s.clients[0] && u.reloadFinished == s.reloadFinished && u.unloadFinished == s.unloadFinished
  {
  }

  lemma OtherHandshake(s: Sys, t: nat)
    requires Conserved(s) && Handshake(s) && ReplyOwed(s) && t < |s.clients|
    ensures s.clients[t] == Idle ==> Handshake(At(s, t, ExitLocking)) && ReplyOwed(At(s, t, ExitLocking))
    ensures s.clients[t].Blocked? ==>
              Handshake(At(s, t, Checking(s.clients[t].k))) && ReplyOwed(At(s, t, Checking(s.clients[t].k)))
  {
  }

  lemma StepHandshake(s: Sys, a: Action)
    requires Conserved(s) && Handshake(s) && ReplyOwed(s) && Enabled(s, a)
    ensures Handshake(Apply(s, a)) && ReplyOwed(Apply(s, a))
  {
    hide Conserved, Handshake, ReplyOwed, ApplyClient, ApplyLoop;
    match a
    case StepClient(t) => ClientHandshake(s, t);
    case StepLoop(busy) => LoopHandshake(s, busy);
    case WakeLoop => AwakeHandshake(s);
    case Begin(t, k) => BeginHandshake(s, t, k);
    case BeginExit(t) => OtherHandshake(s, t);
    case WakeClient(t) => OtherHandshake(s, t);
  }

  lemma AwakeHandshake(s: Sys)
    requires Handshake(s) && ReplyOwed(s) && s.loop == Asleep
    ensures Handshake(s.(loop := Reacquiring)) && ReplyOwed(s.(loop := Reacquiring))
  {
  }

  lemma StepDone(s: Sys, a: Action)
    requires RestsIdle(s) && DoneRight(s) && Enabled(s, a)
    ensures RestsIdle(Apply(s, a)) && DoneRight(Apply(s, a))
  {
  }

  lemma StepInv(s: Sys, a: Action)
    requires Inv(s) && Enabled(s, a)
    ensures Inv(Apply(s, a))
  {
    hide Exclusive, FlagRight, Conserved, Counted, WakeupOwed, Handshake, ReplyOwed, Apply, Enabled, DoneRight,
         RestsIdle;
    StepDone(s, a);
    StepExclusive(s, a);
    StepConserved(s, a);
    StepWakeup(s, a);
    StepHandshake(s, a);
  }

  // ---------------------------------------------------------------- runs

  ghost predicate Run(actions: seq<Action>, states: seq<Sys>) {
    && |states| == |actions| + 1
    && forall i {:trigger actions[i]} :: 0 <= i < |actions| ==>
         Enabled(states[i], actions[i]) && states[i + 1] == Apply(states[i], actions[i])
  }

  /** Every state of every interleaving satisfies the invariant. */
  lemma {:induction false} RunInv(actions: seq<Action>, states: seq<Sys>, threads: nat, i: nat)
    requires Run(actions, states) && states[0] == Initial(threads) && i <= |actions|
    ensures Inv(states[i])
  {
    hide Inv, Enabled, Apply;
    if i == 0 {
      InitialInv(threads);
    } else {
      RunInv(actions, states, threads, i - 1);
      assert Enabled(states[i - 1], actions[i - 1]);
      StepInv(states[i - 1], actions[i - 1]);
    }
  }

  // ---------------------------------------------------------------- what it is for

  /** Instructions are executed once each, in the order of the mutex: what has been executed
      is always a prefix of what was enqueued, and the rest is still in the batch or the
      queue. The count is the queue length whenever the mutex is free. */
  lemma ExecutedInOrder(actions: seq<Action>, states: seq<Sys>, threads: nat, i: nat)
    requires Run(actions, states) && states[0] == Initial(threads) && i <= |actions|
    ensures states[i].executed <= states[i].enqueued
    ensures states[i].enqueued[|states[i].executed|..] == states[i].local + states[i].queue
    ensures states[i].holder == Free ==> states[i].count == |states[i].queue|
  {
    RunInv(actions, states, threads, i);
    var s := states[i];
    assert s.enqueued == s.executed + (s.local + s.queue);
  }

  /** The steps a thread that owes a wakeup still has to make. */
  function StepsToNotify(pc: ClientPc): nat {
    match pc
    case Reading(_) => 3
    case Unlocking(_, _) => 2
    case Notifying(_, _) => 1
    case ExitUnlocking => 2
    case ExitNotifying => 1
    case _ => 0
  }

  /** Thread t alone makes n steps. */
  ghost function Alone(s: Sys, t: nat, n: nat): Sys
    requires t < |s.clients|
    ensures |Alone(s, t, n).clients| == |s.clients|
    decreases n
  {
    if n == 0 || !ClientCanStep(s, s.clients[t]) then s else Alone(ApplyClient(s, t), t, n - 1)
  }

  /** The loop does not sleep on an engine that has something left to do. If it sleeps although
      an instruction is counted or an exit was asked for, either it has been signalled, or some
      thread wakes it within three steps of its own that nothing can block. */
  lemma NoLostWakeup(actions: seq<Action>, states: seq<Sys>, threads: nat, i: nat)
    requires Run(actions, states) && states[0] == Initial(threads) && i <= |actions|
    requires states[i].loop == Asleep
    ensures !states[i].busy
    ensures states[i].count > 0 || states[i].exitNow ==> states[i].signalled || exists t ::
              && 0 <= t < |states[i].clients| && Owes(states[i].clients[t])
              && Alone(states[i], t, StepsToNotify(states[i].clients[t])).signalled
  {
    RunInv(actions, states, threads, i);
    var s := states[i];
    if (s.count > 0 || s.exitNow) && !s.signalled {
      var t :| 0 <= t < |s.clients| && Owes(s.clients[t]);
      OwedIsPaid(s, t);
    }
  }

  lemma {:induction false} OwedIsPaid(s: Sys, t: nat)
    requires FlagRight(s) && s.loop == Asleep && t < |s.clients| && Owes(s.clients[t])
    ensures Alone(s, t, StepsToNotify(s.clients[t])).signalled
    decreases StepsToNotify(s.clients[t])
  {
    var u := ApplyClient(s, t);
    if StepsToNotify(s.clients[t]) > 1 {
      OwedIsPaid(u, t);
    } else {
      assert Alone(u, t, 0) == u;
    }
  }

  /** A reload or unload returns only after its own instruction and all earlier ones have
      been executed. */
  lemma ReplyMeansDone(actions: seq<Action>, states: seq<Sys>, threads: nat, i: nat)
    requires Run(actions, states) && states[0] == Initial(threads) && i < |actions|
    requires threads > 0 && actions[i] == StepClient(0) && states[i].clients != []
    requires states[i].clients[0].Checking? && states[i + 1].clients != [] && states[i + 1].clients[0] == Idle
    ensures states[i].ticket < |states[i].enqueued| && states[i].enqueued[states[i].ticket] == states[i].clients[0].k
    ensures states[i].enqueued[..states[i].ticket + 1] <= states[i].executed
  {
    RunInv(actions, states, threads, i);
    var s := states[i];
    assert Enabled(s, actions[i]) && states[i + 1] == Apply(s, actions[i]);
    assert Finished(s, s.clients[0].k);
    FinishedIsExecuted(s);
    hide *;
  }

  lemma FinishedIsExecuted(s: Sys)
    requires Inv(s) && s.clients != [] && s.clients[0].Checking? && IsControl(s.clients[0].k)
    requires Finished(s, s.clients[0].k)
    ensures s.ticket < |s.enqueued| && s.enqueued[s.ticket] == s.clients[0].k
    ensures s.enqueued[..s.ticket + 1] <= s.executed
  {
    hide Exclusive, FlagRight, Counted, WakeupOwed, ReplyOwed, DoneRight;
    assert s.enqueued == s.executed + (s.local + s.queue);
  }

  /** No thread can make a step of a call that has begun. */
  ghost predicate Stuck(s: Sys) {
    && !LoopCanStep(s)
    && forall t {:trigger s.clients[t]} :: 0 <= t < |s.clients| ==> !ClientCanStep(s, s.clients[t])
  }

  lemma HolderCanStep(s: Sys)
    requires Exclusive(s)
    ensures s.holder.Client? ==> s.holder.tid < |s.clients| && ClientCanStep(s, s.clients[s.holder.tid])
  {
  }

  /** In a state where nobody can move the mutex is free and the loop sleeps or has ended.
      All callers have returned exactly if no reload or unload is left to execute; otherwise
      thread 0 alone waits, for the one that is left. */
  lemma StuckState(s: Sys)
    requires Inv(s) && Stuck(s)
    ensures s.holder == Free && ((s.loop == Asleep && !HasWork(s)) || s.loop == Done)
    ensures s.loop == Asleep ==> !s.busy && s.count == 0 && !s.exitNow
    ensures forall t {:trigger s.clients[t]} :: 0 < t < |s.clients| ==> s.clients[t] == Idle
    ensures s.clients != [] && s.clients[0] != Idle ==>
              s.clients[0].Blocked? && |s.executed| <= s.ticket < |s.enqueued| && s.enqueued[s.ticket] == s.clients[0].k
    ensures (forall t {:trigger s.clients[t]} :: 0 <= t < |s.clients| ==> s.clients[t] == Idle)
            <==> (forall j {:trigger s.enqueued[j]} :: |s.executed| <= j < |s.enqueued| ==> !IsControl(s.enqueued[j]))
  {
    HolderCanStep(s);
    StuckQuiet(s);
    StuckCaller(s);
    hide *;
    if s.clients != [] && s.clients[0] != Idle { assert s.enqueued[s.ticket] == s.clients[0].k; }
    forall j | |s.executed| <= j < |s.enqueued| && IsControl(s.enqueued[j])
      ensures s.clients != [] && s.clients[0] != Idle {}
  }

  lemma StuckQuiet(s: Sys)
    requires Inv(s) && Stuck(s)
    ensures s.holder == Free && ((s.loop == Asleep && !HasWork(s)) || s.loop == Done)
    ensures s.loop == Asleep ==> !s.busy && s.count == 0 && !s.exitNow
    ensures forall t {:trigger s.clients[t]} :: 0 <= t < |s.clients| ==> s.clients[t] == Idle || s.clients[t].Blocked?
  {
    HolderCanStep(s);
    assert s.holder == Free;
    assert forall t :: 0 <= t < |s.clients| ==> !Owes(s.clients[t]);
  }

  lemma StuckCaller(s: Sys)
    requires Inv(s) && Stuck(s)
    ensures forall t {:trigger s.clients[t]} :: 0 < t < |s.clients| ==> !s.clients[t].Blocked?
    ensures s.clients != [] && s.clients[0].Blocked? ==>
              |s.executed| <= s.ticket < |s.enqueued| && s.enqueued[s.ticket] == s.clients[0].k
                && IsControl(s.clients[0].k)
    ensures forall j {:trigger s.enqueued[j]} :: |s.executed| <= j < |s.enqueued| && IsControl(s.enqueued[j]) ==>
              s.clients != [] && s.clients[0] != Idle
  {
    hide Exclusive, Conserved, Counted, WakeupOwed;
  }

  /** The same in every run, with or without an exit. */
  lemma StuckIff(actions: seq<Action>, states: seq<Sys>, threads: nat, i: nat)
    requires Run(actions, states) && states[0] == Initial(threads) && i <= |actions|
    requires Stuck(states[i])
    ensures
      var s := states[i];
      (forall t {:trigger s.clients[t]} :: 0 <= t < |s.clients| ==> s.clients[t] == Idle)
      <==> (forall j {:trigger s.enqueued[j]} :: |s.executed| <= j < |s.enqueued| ==> !IsControl(s.enqueued[j]))
  {
    var s := states[i];
    RunInv(actions, states, threads, i);
    hide *;
    StuckState(s);
  }

  /** Before an exit the protocol never deadlocks: when nobody can move, the loop sleeps with
      every instruction executed and every call returned. */
  lemma NoDeadlock(actions: seq<Action>, states: seq<Sys>, threads: nat, i: nat)
    requires Run(actions, states) && states[0] == Initial(threads) && i <= |actions|
    requires Stuck(states[i]) && !states[i].exitNow
    ensures states[i].loop == Asleep && states[i].executed == states[i].enqueued
    ensures !states[i].busy && states[i].count == 0 && states[i].queue == [] && states[i].local == []
    ensures forall t :: 0 <= t < |states[i].clients| ==> states[i].clients[t] == Idle
  {
    var s := states[i];
    RunInv(actions, states, threads, i);
    StuckState(s);
    NothingLeft(s);
    hide *;
  }

  lemma NothingLeft(s: Sys)
    requires Inv(s) && s.loop == Asleep && !HasWork(s) && s.holder == Free
    ensures s.executed == s.enqueued && !s.busy && s.count == 0 && s.queue == [] && s.local == []
  {
    assert s.queue == [] && s.local == [];
  }

  /** After an exit the loop has ended when nobody can move. Every other thread has returned,
      and thread 0 has too exactly if no reload or unload was left behind; otherwise it
      waits for that one. */
  lemma StuckAfterExit(actions: seq<Action>, states: seq<Sys>, threads: nat, i: nat)
    requires Run(actions, states) && states[0] == Initial(threads) && i <= |actions|
    requires Stuck(states[i]) && states[i].exitNow
    ensures states[i].loop == Done
    ensures
      var s := states[i];
      && (forall t {:trigger s.clients[t]} :: 0 < t < |s.clients| ==> s.clients[t] == Idle)
      && (s.clients != [] && s.clients[0] != Idle ==>
            s.clients[0].Blocked? && |s.executed| <= s.ticket < |s.enqueued| && s.enqueued[s.ticket] == s.clients[0].k)
      && (s.clients != [] ==>
            (s.clients[0] == Idle
             <==> forall j {:trigger s.enqueued[j]} :: |s.executed| <= j < |s.enqueued| ==> !IsControl(s.enqueued[j])))
  {
    RunInv(actions, states, threads, i);
    StuckState(states[i]);
    hide Inv, Stuck, IsControl, Run;
  }

  lemma EmptyRun(s: Sys)
    ensures Run([], [s])
  {
  }

  /** A run made one action longer. */
  lemma Then(actions: seq<Action>, states: seq<Sys>, a: Action) returns (actions': seq<Action>, states': seq<Sys>)
    requires Run(actions, states) && Enabled(states[|actions|], a)
    ensures actions' == actions + [a] && Run(actions', states') && |states'| == |actions'| + 1
    ensures states'[0] == states[0] && states'[|actions'|] == Apply(states[|actions|], a)
  {
    hide Enabled, Apply;
    actions', states' := actions + [a], states + [Apply(states[|actions|], a)];
  }

  /** Thread 0 makes n steps of its call. */
  lemma {:induction false} Steps(actions: seq<Action>, states: seq<Sys>, n: nat)
    returns (actions': seq<Action>, states': seq<Sys>)
    requires Run(actions, states) && states[|actions|].clients != []
    requires CanGo(states[|actions|], n)
    ensures Run(actions', states') && |states'| == |actions'| + 1
    ensures states'[0] == states[0] && states'[|actions'|] == Alone(states[|actions|], 0, n)
    decreases n
  {
    if n == 0 {
      return actions, states;
    }
    actions', states' := Then(actions, states, StepClient(0));
    actions', states' := Steps(actions', states', n - 1);
  }

  /** Thread 0 alone can make n steps. */
  ghost predicate CanGo(s: Sys, n: nat)
    requires s.clients != []
    decreases n
  {
    n > 0 ==> ClientCanStep(s, s.clients[0]) && CanGo(ApplyClient(s, 0), n - 1)
  }

  /** A step of the only thread, for the calls used below. */
  function Stepped(s: Sys, pc: ClientPc): Sys {
    match pc
    case Locking(k) => s.(clients := [Pushing(k)], holder := Client(0))
    case Pushing(k) =>
      s.(clients := [Counting(k)], queue := s.queue + [k], enqueued := s.enqueued + [k], ticket := |s.enqueued|)
    case Counting(k) => s.(clients := [Reading(k)], count := s.count + 1)
    case Reading(k) => s.(clients := [Unlocking(k, s.waiting)])
    case Unlocking(k, need) => s.(clients := [Notifying(k, need)], holder := Free)
    case Notifying(k, need) => s.(clients := [Checking(k)])
    case Checking(k) => s.(clients := [Blocked(k, false)])
    case ExitLocking => s.(clients := [ExitSetting], holder := Client(0))
    case ExitSetting => s.(clients := [ExitUnlocking], exitNow := true)
    case ExitUnlocking => s.(clients := [ExitNotifying], holder := Free)
    case ExitNotifying => s.(clients := [Idle])
    case _ => s
  }

  lemma SteppedIs(s: Sys, pc: ClientPc)
    requires s.clients == [pc] && s.loop != Asleep && pc != Idle && !pc.Blocked? && ClientCanStep(s, pc)
    requires pc.Notifying? ==> IsControl(pc.k)
    requires pc.Checking? ==> !Finished(s, pc.k)
    ensures ApplyClient(s, 0) == Stepped(s, pc)
  {
    assert s.clients[0 := NextPc(s, pc)] == [NextPc(s, pc)];
  }

  /** One step of the only thread in front of n more. */
  lemma StepFirst(s: Sys, pc: ClientPc, n: nat)
    requires s.clients == [pc] && s.loop != Asleep && pc != Idle && !pc.Blocked? && ClientCanStep(s, pc)
    requires pc.Notifying? ==> IsControl(pc.k)
    requires pc.Checking? ==> !Finished(s, pc.k)
    requires Stepped(s, pc).clients != [] && CanGo(Stepped(s, pc), n)
    ensures CanGo(s, n + 1) && Alone(s, 0, n + 1) == Alone(Stepped(s, pc), 0, n)
  {
    SteppedIs(s, pc);
    hide Stepped, NextPc;
    OneMore(s, Stepped(s, pc), n);
  }

  /** The four steps of an exit. */
  lemma ExitSteps(s: Sys)
    requires s.clients == [ExitLocking] && s.holder == Free && s.loop == Top
    ensures CanGo(s, 4) && Alone(s, 0, 4) == s.(clients := [Idle], exitNow := true)
  {
    hide CanGo, Alone;
    var a := Stepped(s, ExitLocking);
    var b := Stepped(a, ExitSetting);
    var c := Stepped(b, ExitUnlocking);
    var d := Stepped(c, ExitNotifying);
    NoMore(d);
    StepFirst(c, ExitNotifying, 0);
    StepFirst(b, ExitUnlocking, 1);
    StepFirst(a, ExitSetting, 2);
    StepFirst(s, ExitLocking, 3);
  }

  lemma NoMore(s: Sys)
    requires s.clients != []
    ensures CanGo(s, 0) && Alone(s, 0, 0) == s
  {
  }

  lemma OneMore(s: Sys, u: Sys, n: nat)
    requires s.clients != [] && ClientCanStep(s, s.clients[0]) && u == ApplyClient(s, 0) && u.clients != []
    requires CanGo(u, n)
    ensures CanGo(s, n + 1) && Alone(s, 0, n + 1) == Alone(u, 0, n)
  {
    hide ApplyClient, ClientCanStep;
  }

  /** The last four steps of a call after which nobody answers. */
  lemma WaitSteps(s: Sys, k: Kind)
    requires s.clients == [Reading(k)] && s.holder == Client(0) && s.loop == Done && !s.waiting && k == ReloadEngine
    requires !s.reloadFinished
    ensures CanGo(s, 4) && Alone(s, 0, 4) == s.(clients := [Blocked(k, false)], holder := Free)
  {
    hide CanGo, Alone;
    var a := Stepped(s, Reading(k));
    var b := Stepped(a, Unlocking(k, false));
    var c := Stepped(b, Notifying(k, false));
    NoMore(Stepped(c, Checking(k)));
    StepFirst(c, Checking(k), 0);
    StepFirst(b, Notifying(k, false), 1);
    StepFirst(a, Unlocking(k, false), 2);
    StepFirst(s, Reading(k), 3);
  }

  /** The seven steps of a reload that nobody answers. */
  lemma ReloadSteps(s: Sys)
    requires s.clients == [Locking(ReloadEngine)] && s.holder == Free && s.loop == Done && !s.waiting
    requires !s.reloadFinished
    ensures CanGo(s, 7)
    ensures Alone(s, 0, 7) == s.(clients := [Blocked(ReloadEngine, false)], queue := s.queue + [ReloadEngine],
                                 enqueued := s.enqueued + [ReloadEngine], ticket := |s.enqueued|, count := s.count + 1)
  {
    hide CanGo, Alone;
    var k := ReloadEngine;
    var a := Stepped(s, Locking(k));
    var b := Stepped(a, Pushing(k));
    var c := Stepped(b, Counting(k));
    WaitSteps(c, k);
    StepFirst(b, Counting(k), 4);
    StepFirst(a, Pushing(k), 5);
    StepFirst(s, Locking(k), 6);
  }

  /** An exit while nothing else happens: the loop ends. */
  lemma ExitRun() returns (actions: seq<Action>, states: seq<Sys>)
    ensures Run(actions, states) && |states| == |actions| + 1 && states[0] == Initial(1)
    ensures states[|actions|] == Initial(1).(exitNow := true, loop := Done) && Initial(1).clients == [Idle]
  {
    hide Run, CanGo, Alone, ApplyClient;
    var s := Initial(1);
    actions, states := [], [s];
    EmptyRun(s);
    assert s.clients == [Idle];
    actions, states := Then(actions, states, BeginExit(0));
    assert states[|actions|] == s.(clients := [ExitLocking]);
    ExitSteps(states[|actions|]);
    actions, states := Steps(actions, states, 4);
    assert states[|actions|] == s.(exitNow := true);
    actions, states := Then(actions, states, StepLoop(false));
  }

  /** A reload called after an exit can be stranded: the loop has ended, the instruction is
      never executed and the caller waits for ever. */
  lemma StrandedReply() returns (actions: seq<Action>, states: seq<Sys>)
    ensures Run(actions, states) && states[0] == Initial(1)
    ensures
      var s := states[|actions|];
      Stuck(s) && s.exitNow && s.enqueued == [ReloadEngine] && s.executed == []
        && s.clients == [Blocked(ReloadEngine, false)]
  {
    hide Run, CanGo, Alone, ApplyClient;
    actions, states := ExitRun();
    actions, states := Then(actions, states, Begin(0, ReloadEngine));
    assert states[|actions|] == Initial(1).(exitNow := true, loop := Done, clients := [Locking(ReloadEngine)]);
    ReloadSteps(states[|actions|]);
    actions, states := Steps(actions, states, 7);
  }
}
