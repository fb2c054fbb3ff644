/** The workspace slots of draft tokens: a stack of free slots and a reference count per slot
    in use. Every slot is free or counted, over every run of allocations and releases. */
module DraftSlots {
  import opened Sequences

  datatype Slots = Slots(free: seq<int>, refs: map<int, int>)

  /** Each of the slots below max is free exactly once or counted, never both, and all
      counts are positive. */
  ghost predicate Conserved(max: nat, st: Slots) {
    && NoRepeats(st.free)
    && (forall s {:trigger s in st.free} {:trigger s in st.refs} :: s in st.free <==> 0 <= s < max && s !in st.refs)
    && (forall s {:trigger st.refs[s]} :: s in st.refs ==> 0 <= s < max && st.refs[s] > 0)
  }

  function Count(st: Slots, s: int): int {
    if s in st.refs then st.refs[s] else 0
  }

  // ---------------------------------------------------------------- allocation

  /** The last n free slots, last first. */
  function Taken(free: seq<int>, n: nat): (r: seq<int>)
    requires n <= |free|
    ensures |r| == n
  {
    seq(n, i requires 0 <= i < n => free[|free| - 1 - i])
  }

  /** Slots are handed out from the end of the free list, and what is left is its front. */
  lemma AllocOrder(st: Slots, counts: seq<int>, k: nat)
    requires |counts| <= |st.free|
    ensures Allocated(st, counts).free == st.free[..|st.free| - |counts|]
    ensures k < |counts| ==> Taken(st.free, |counts|)[k] == st.free[|st.free| - 1 - k]
  {
  }

  /** The counts after the first n slots of a list got theirs. */
  function Counted(refs: map<int, int>, slots: seq<int>, counts: seq<int>, n: nat): map<int, int>
    requires n <= |slots| && n <= |counts|
  {
    if n == 0 then refs else Counted(refs, slots, counts, n - 1)[slots[n - 1] := counts[n - 1]]
  }

  lemma {:induction false} CountedAt(refs: map<int, int>, slots: seq<int>, counts: seq<int>, n: nat)
    requires n <= |slots| && n <= |counts| && NoRepeats(slots)
    ensures forall i :: 0 <= i < n ==> slots[i] in Counted(refs, slots, counts, n)
    ensures forall i :: 0 <= i < n ==> Counted(refs, slots, counts, n)[slots[i]] == counts[i]
    ensures forall s :: s !in slots[..n] ==>
              (s in Counted(refs, slots, counts, n) <==> s in refs)
              && (s in refs ==> Counted(refs, slots, counts, n)[s] == refs[s])
  {
    if n > 0 {
      CountedAt(refs, slots, counts, n - 1);
      assert slots[..n] == slots[..n - 1] + [slots[n - 1]];
    }
  }

  predicate AllPositive(counts: seq<int>) {
    forall i {:trigger counts[i]} :: 0 <= i < |counts| ==> counts[i] > 0
  }

  /** The state after an allocation. */
  function Allocated(st: Slots, counts: seq<int>): Slots
    requires |counts| <= |st.free|
  {
    var n := |counts|;
    Slots(st.free[..|st.free| - n], Counted(st.refs, Taken(st.free, n), counts, n))
  }

  lemma TakenFacts(free: seq<int>, n: nat)
    requires n <= |free| && NoRepeats(free)
    ensures NoRepeats(Taken(free, n))
    ensures forall s :: s in Taken(free, n) <==> s in free && s !in free[..|free| - n]
  {
    var r, rest := Taken(free, n), free[..|free| - n];
    assert forall j {:trigger free[j]} :: 0 <= j < |rest| ==> free[j] == rest[j];
    forall s ensures s in r <==> s in free && s !in rest {
      if s in r {
        var i :| 0 <= i < n && r[i] == s;
        assert free[|free| - 1 - i] == s;
      }
      if s in free && s !in rest {
        var k :| 0 <= k < |free| && free[k] == s;
        assert r[|free| - 1 - k] == s;
      }
    }
  }

  /** Allocation with positive counts hands out free slots, each once, and gives each its
      count; no other count changes and nothing is lost. */
  lemma AllocKeeps(max: nat, st: Slots, counts: seq<int>)
    requires Conserved(max, st) && |counts| <= |st.free| && AllPositive(counts)
    ensures Conserved(max, Allocated(st, counts))
    ensures forall i :: 0 <= i < |counts| ==>
              var s := Taken(st.free, |counts|)[i];
              Count(st, s) == 0 && Count(Allocated(st, counts), s) == counts[i]
    ensures forall s :: s !in Taken(st.free, |counts|) ==> Count(Allocated(st, counts), s) == Count(st, s)
  {
    var n := |counts|;
    var taken := Taken(st.free, n);
    TakenFacts(st.free, n);
    CountedAt(st.refs, taken, counts, n);
    assert taken[..n] == taken;
    var u := Allocated(st, counts);
    forall s ensures s in u.free <==> 0 <= s < max && s !in u.refs {
      if s in u.free { assert s in st.free; }
    }
    forall s | s in u.refs ensures 0 <= s < max && u.refs[s] > 0 {
      if s in taken {
        var i :| 0 <= i < n && taken[i] == s;
        assert s in st.free;
      }
    }
  }

  /** An allocation that stops at a count that is not positive: the slots from there on are
      neither free nor counted. */
  function Broken(st: Slots, counts: seq<int>, k: nat): Slots
    requires k < |counts| <= |st.free|
  {
    var n := |counts|;
    Slots(st.free[..|st.free| - n], Counted(st.refs, Taken(st.free, n), counts, k))
  }

  lemma BrokenLoses(max: nat, st: Slots, counts: seq<int>, k: nat)
    requires Conserved(max, st) && k < |counts| <= |st.free|
    ensures !Conserved(max, Broken(st, counts, k))
  {
    var taken := Taken(st.free, |counts|);
    var s, u := taken[k], Broken(st, counts, k);
    TakenFacts(st.free, |counts|);
    CountedAt(st.refs, taken, counts, k);
    assert s in taken && s in st.free && s !in u.free;
    assert s !in taken[..k];
    assert s !in u.refs && 0 <= s < max;
  }

  // ---------------------------------------------------------------- release

  /** One release: the count drops, and at zero the slot is free again. */
  function Dropped(st: Slots, s: int): Slots
    requires s in st.refs
  {
    if st.refs[s] - 1 == 0 then Slots(st.free + [s], st.refs - {s})
    else Slots(st.free, st.refs[s := st.refs[s] - 1])
  }

  /** The releases of a list, up to the first slot without a count. */
  function Released(st: Slots, slots: seq<int>): Slots
    decreases |slots|
  {
    if slots == [] || slots[0] !in st.refs then st else Released(Dropped(st, slots[0]), slots[1..])
  }

  /** Slots that are each held once come back to the end of the free list, in the order given. */
  lemma {:induction false} ReleaseOrder(st: Slots, slots: seq<int>)
    requires NoRepeats(slots) && forall s :: s in slots ==> s in st.refs && st.refs[s] == 1
    ensures Released(st, slots).free == st.free + slots
    ensures forall s :: s in Released(st, slots).refs <==> s in st.refs && s !in slots
    decreases |slots|
  {
    if slots == [] {
      assert st.free + slots == st.free;
    } else {
      forall s | s in slots[1..] ensures s != slots[0] && s in slots {}
      ReleaseOrder(Dropped(st, slots[0]), slots[1..]);
      assert st.free + [slots[0]] + slots[1..] == st.free + slots;
    }
  }

  predicate AllCounted(st: Slots, slots: seq<int>)
    decreases |slots|
  {
    slots == [] || (slots[0] in st.refs && AllCounted(Dropped(st, slots[0]), slots[1..]))
  }

  lemma DropKeeps(max: nat, st: Slots, s: int)
    requires Conserved(max, st) && s in st.refs
    ensures Conserved(max, Dropped(st, s))
    ensures Count(Dropped(st, s), s) == Count(st, s) - 1
    ensures forall r :: r != s ==> Count(Dropped(st, s), r) == Count(st, r)
  {
    var u := Dropped(st, s);
    assert s !in st.free;
    forall r ensures r in u.free <==> 0 <= r < max && r !in u.refs {
      assert r in st.free <==> 0 <= r < max && r !in st.refs;
    }
  }

  lemma {:induction false} ReleaseKeeps(max: nat, st: Slots, slots: seq<int>)
    requires Conserved(max, st)
    ensures Conserved(max, Released(st, slots))
    decreases |slots|
  {
    if slots != [] && slots[0] in st.refs {
      hide Conserved;
      DropKeeps(max, st, slots[0]);
      ReleaseKeeps(max, Dropped(st, slots[0]), slots[1..]);
    }
  }

  function Times(slots: seq<int>, s: int): nat {
    multiset(slots)[s]
  }

  lemma TimesFirst(slots: seq<int>, s: int)
    requires slots != []
    ensures Times(slots, s) == Times(slots[1..], s) + if slots[0] == s then 1 else 0
  {
    assert slots == [slots[0]] + slots[1..];
  }

  /** A list can be released exactly if it names no slot more often than it is counted. */
  lemma {:induction false} ReleasableIff(max: nat, st: Slots, slots: seq<int>)
    requires Conserved(max, st)
    ensures AllCounted(st, slots) <==> forall s :: Times(slots, s) <= Count(st, s)
    decreases |slots|
  {
    hide Conserved, Times;
    NoneNegative(max, st);
    if slots == [] {
      NoTimes();
    } else {
      var a := slots[0];
      if a in st.refs {
        DropKeeps(max, st, a);
        ReleasableIff(max, Dropped(st, a), slots[1..]);
        forall s
          ensures Times(slots, s) <= Count(st, s) <==> Times(slots[1..], s) <= Count(Dropped(st, a), s)
        {
          TimesFirst(slots, s);
        }
      } else {
        TimesFirst(slots, a);
      }
    }
  }

  lemma NoTimes()
    ensures forall s :: Times([], s) == 0
  {
  }

  lemma NoneNegative(max: nat, st: Slots)
    requires Conserved(max, st)
    ensures forall s :: Count(st, s) >= 0
  {
  }

  /** A release lowers each count by how often the list names the slot. */
  lemma {:induction false} ReleasedCounts(max: nat, st: Slots, slots: seq<int>, s: int)
    requires Conserved(max, st) && AllCounted(st, slots)
    ensures Count(Released(st, slots), s) == Count(st, s) - Times(slots, s)
    decreases |slots|
  {
    hide Conserved, Times;
    if slots == [] {
      NoTimes();
    } else {
      DropKeeps(max, st, slots[0]);
      TimesFirst(slots, s);
      ReleasedCounts(max, Dropped(st, slots[0]), slots[1..], s);
    }
  }

  /** The slots a release makes free are exactly those named as often as they were counted. */
  lemma FreedExactly(max: nat, st: Slots, slots: seq<int>, s: int)
    requires Conserved(max, st) && AllCounted(st, slots)
    ensures s in Released(st, slots).free && s !in st.free <==> s in slots && Times(slots, s) == Count(st, s)
  {
    ReleasedCounts(max, st, slots, s);
    ReleaseKeeps(max, st, slots);
    var u := Released(st, slots);
    assert s in u.refs <==> Count(u, s) > 0;
    assert s in st.refs <==> Count(st, s) > 0;
    assert s in slots <==> Times(slots, s) > 0;
    assert s in u.free <==> 0 <= s < max && s !in u.refs;
    assert s in st.free <==> 0 <= s < max && s !in st.refs;
  }

  /** Free slots stay on the stack, the freed ones come on top. */
  lemma {:induction false} ReleaseAppends(st: Slots, slots: seq<int>)
    ensures st.free <= Released(st, slots).free
    decreases |slots|
  {
    if slots != [] && slots[0] in st.refs {
      ReleaseAppends(Dropped(st, slots[0]), slots[1..]);
    }
  }

  // ---------------------------------------------------------------- the manager

  class Manager {
    var free: seq<int>
    var refs: map<int, int>

    function Abs(): Slots
      reads this
    {
      Slots(free, refs)
    }

    constructor (max: nat)
      ensures Conserved(max, Abs()) && refs == map[]
    {
      free := seq(max, i => i);
      refs := map[];
      new;
      forall s | 0 <= s < max ensures s in free { assert free[s] == s; }
    }

    /** Slots with one reference each. */
    method AllocSlots(n: int) returns (ok: bool, result: seq<int>)
      modifies this
      ensures ok <==> 0 <= n <= |old(free)|
      ensures ok ==> result == Taken(old(free), n) && Abs() == Allocated(old(Abs()), seq(n, i => 1))
      ensures !ok ==> Abs() == old(Abs())
    {
      if n < 0 || n > |free| { return false, []; }
      ok := true;
      result := Taken(free, n);
      free := free[..|free| - n];
      ghost var ones := seq(n, i => 1);
      for i := 0 to n
        invariant free == old(free)[..|old(free)| - n]
        invariant refs == Counted(old(refs), result, ones, i)
      {
        refs := refs[result[i] := 1];
      }
    }

    /** Slots with given references. A count that is not positive stops the allocation
        half-way. */
    method AllocCounted(n: int, counts: seq<int>) returns (ok: bool, result: seq<int>)
      modifies this
      ensures ok <==> n == |counts| <= |old(free)| && AllPositive(counts)
      ensures ok ==> result == Taken(old(free), n) && Abs() == Allocated(old(Abs()), counts)
      ensures !ok && !(n == |counts| <= |old(free)|) ==> Abs() == old(Abs())
      ensures !ok && n == |counts| <= |old(free)| ==>
                exists k :: 0 <= k < |counts| && counts[k] <= 0 && Abs() == Broken(old(Abs()), counts, k)
    {
      if n < 0 || n > |free| || n != |counts| { return false, []; }
      result := Taken(free, n);
      free := free[..|free| - n];
      for i := 0 to n
        invariant free == old(free)[..|old(free)| - n]
        invariant refs == Counted(old(refs), result, counts, i)
        invariant forall k :: 0 <= k < i ==> counts[k] > 0
      {
        if counts[i] <= 0 {
          assert Abs() == Broken(old(Abs()), counts, i);
          return false, result;
        }
        refs := refs[result[i] := counts[i]];
      }
      ok := true;
    }

    /** Drop one reference per entry; stops at an entry without one. */
    method FreeSlots(slots: seq<int>) returns (ok: bool)
      modifies this
      ensures ok <==> AllCounted(old(Abs()), slots)
      ensures Abs() == Released(old(Abs()), slots)
    {
      assert slots[0..] == slots;
      for i := 0 to |slots|
        invariant Released(Abs(), slots[i..]) == Released(old(Abs()), slots)
        invariant AllCounted(Abs(), slots[i..]) <==> AllCounted(old(Abs()), slots)
      {
        var s := slots[i];
        assert slots[i..][0] == s && slots[i..][1..] == slots[i + 1..];
        if s !in refs { return false; }
        ghost var before := Abs();
        refs := refs[s := refs[s] - 1];
        if refs[s] == 0 {
          free := free + [s];
          refs := refs - {s};
        }
        assert Abs() == Dropped(before, s);
      }
      ok := true;
    }
  }

  // ---------------------------------------------------------------- runs

  datatype Op = Alloc(counts: seq<int>) | Free(slots: seq<int>)

  ghost predicate Allowed(st: Slots, op: Op) {
    match op
    case Alloc(counts) => |counts| <= |st.free| && AllPositive(counts)
    case Free(slots) => AllCounted(st, slots)
  }

  function After(st: Slots, op: Op): Slots {
    match op
    case Alloc(counts) => if |counts| <= |st.free| then Allocated(st, counts) else st
    case Free(slots) => Released(st, slots)
  }

  /** What an operation adds to the references of a slot. */
  function Change(st: Slots, op: Op, s: int): int {
    match op
    case Alloc(counts) =>
      if |counts| <= |st.free| then Given(Taken(st.free, |counts|), counts, s) else 0
    case Free(slots) => 0 - Times(slots, s)
  }

  function Given(slots: seq<int>, counts: seq<int>, s: int): int
    requires |slots| == |counts|
  {
    if slots == [] then 0 else (if slots[0] == s then counts[0] else 0) + Given(slots[1..], counts[1..], s)
  }

  ghost predicate Run(st: Slots, ops: seq<Op>)
    decreases |ops|
  {
    ops != [] ==> Allowed(st, ops[0]) && Run(After(st, ops[0]), ops[1..])
  }

  function Final(st: Slots, ops: seq<Op>): Slots
    decreases |ops|
  {
    if ops == [] then st else Final(After(st, ops[0]), ops[1..])
  }

  /** References given minus references dropped. */
  function Balance(st: Slots, ops: seq<Op>, s: int): int
    decreases |ops|
  {
    if ops == [] then 0 else Change(st, ops[0], s) + Balance(After(st, ops[0]), ops[1..], s)
  }

  lemma {:induction false} GivenTo(slots: seq<int>, counts: seq<int>, s: int)
    requires |slots| == |counts| && NoRepeats(slots)
    ensures s !in slots ==> Given(slots, counts, s) == 0
    ensures forall i :: 0 <= i < |slots| && slots[i] == s ==> Given(slots, counts, s) == counts[i]
    decreases |slots|
  {
    if slots != [] {
      GivenTo(slots[1..], counts[1..], s);
      if slots[0] == s {
        assert s !in slots[1..];
      }
      forall i | 0 <= i < |slots| && slots[i] == s
        ensures Given(slots, counts, s) == counts[i]
      {
        if i > 0 { assert slots[1..][i - 1] == s && slots[0] != s; }
      }
    }
  }

  lemma StepKeeps(max: nat, st: Slots, op: Op, s: int)
    requires Conserved(max, st) && Allowed(st, op)
    ensures Conserved(max, After(st, op))
    ensures Count(After(st, op), s) == Count(st, s) + Change(st, op, s)
  {
    match op
    case Alloc(counts) =>
      var taken := Taken(st.free, |counts|);
      AllocKeeps(max, st, counts);
      TakenFacts(st.free, |counts|);
      hide Conserved, Allocated;
      GivenTo(taken, counts, s);
      if s in taken {
        var i :| 0 <= i < |taken| && taken[i] == s;
      }
    case Free(slots) =>
      ReleaseKeeps(max, st, slots);
      ReleasedCounts(max, st, slots, s);
  }

  /** Over every run no slot is lost or invented: a slot's count is what was given less what
      was dropped, and it is free exactly when that is zero. */
  lemma {:induction false} RunConserves(max: nat, st: Slots, ops: seq<Op>, s: int)
    requires Conserved(max, st) && Run(st, ops)
    ensures Conserved(max, Final(st, ops))
    ensures Count(Final(st, ops), s) == Count(st, s) + Balance(st, ops, s)
    ensures 0 <= s < max ==> (s in Final(st, ops).free <==> Count(st, s) + Balance(st, ops, s) == 0)
    decreases |ops|
  {
    if ops != [] {
      hide Conserved, After, Change, Allowed;
      StepKeeps(max, st, ops[0], s);
      RunConserves(max, After(st, ops[0]), ops[1..], s);
    }
  }

  /** No allocation in a run hands out a slot somebody still holds. */
  lemma NeverTwice(max: nat, st: Slots, ops: seq<Op>, n: nat, s: int)
    requires Conserved(max, st) && st.refs == map[] && Run(st, ops)
    requires n <= |Final(st, ops).free| && s in Taken(Final(st, ops).free, n)
    ensures Balance(st, ops, s) == 0
  {
    RunConserves(max, st, ops, s);
    TakenFacts(Final(st, ops).free, n);
    var u := Final(st, ops);
    assert s in u.free;
  }
}
