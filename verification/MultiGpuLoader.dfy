/** Loading sharded parameters on several worker groups: the rendezvous of the job, and the
    communication script of each worker as the loader's loops produce it. */
module MultiGpuLoader {
  import opened Arithmetic
  import opened Sequences

  /** A parameter of the model metadata: the groups that need it, and whether it has
      preprocessing, so that it is scattered and not broadcast. */
  datatype Param = Param(stages: seq<nat>, sharded: bool)

  /** One call that communicates; parameters are named by their place in the metadata.
      Collect is the broadcast or scatter inside the worker's own group. */
  datatype Op = SendTo(param: nat, group: nat) | RecvFull(param: nat) | Collect(param: nat)

  /** What a worker holds: a whole parameter, or the shard for a rank. */
  datatype Piece = Whole(param: nat) | Shard(param: nat, rank: nat)

  /** A loading job: the metadata, the parameters in the order of the shard files, and
      how many groups of how many workers there are. */
  datatype Job = Job(params: seq<Param>, records: seq<nat>, groups: nat, size: nat)

  ghost predicate JobOk(job: Job) {
    && job.groups > 0 && job.size > 0
    && (forall i {:trigger job.records[i]} :: 0 <= i < |job.records| ==> job.records[i] < |job.params|)
    && (forall p {:trigger job.params[p]} :: 0 <= p < |job.params| ==>
          NoRepeats(job.params[p].stages)
          && forall j :: 0 <= j < |job.params[p].stages| ==> job.params[p].stages[j] < job.groups)
  }

  function Workers(job: Job): nat {
    job.groups * job.size
  }

  // ---------------------------------------------------------------- events and scripts

  /** A rendezvous: worker 0 sends a parameter to the first worker of another group, or
      the workers of a group collect it. */
  datatype Event = Event(param: nat, group: nat, send: bool)

  function StageEvents(p: nat, stages: seq<nat>): seq<Event> {
    if stages == [] then []
    else (if stages[0] == 0 then [Event(p, 0, false)]
          else [Event(p, stages[0], true), Event(p, stages[0], false)]) + StageEvents(p, stages[1..])
  }

  function StagesOf(job: Job, p: nat): seq<nat> {
    if p < |job.params| then job.params[p].stages else []
  }

  /** All rendezvous of the job in the order worker 0 goes through them. */
  function Events(job: Job, records: seq<nat>): seq<Event> {
    if records == [] then [] else StageEvents(records[0], StagesOf(job, records[0])) + Events(job, records[1..])
  }

  /** The first worker of a group. */
  function First(job: Job, g: nat): nat {
    g * job.size
  }

  function GroupOf(job: Job, w: nat): nat
    requires job.size > 0
  {
    w / job.size
  }

  predicate Takes(job: Job, w: nat, e: Event)
    requires job.size > 0
  {
    if e.send then w == 0 || w == First(job, e.group) else GroupOf(job, w) == e.group
  }

  function OpOf(w: nat, e: Event): Op {
    if e.send then (if w == 0 then SendTo(e.param, e.group) else RecvFull(e.param)) else Collect(e.param)
  }

  /** The part of worker w in a list of rendezvous. */
  function Project(job: Job, w: nat, es: seq<Event>): seq<Op>
    requires job.size > 0
  {
    if es == [] then []
    else (if Takes(job, w, es[0]) then [OpOf(w, es[0])] else []) + Project(job, w, es[1..])
  }

  lemma {:induction false} ProjectConcat(job: Job, w: nat, a: seq<Event>, b: seq<Event>)
    requires job.size > 0
    ensures Project(job, w, a + b) == Project(job, w, a) + Project(job, w, b)
  {
    if a == [] {
      assert a + b == b;
    } else {
      assert (a + b)[1..] == a[1..] + b;
      ProjectConcat(job, w, a[1..], b);
    }
  }

  /** What the loader does for one parameter on a worker other than worker 0. */
  function ParamOps(job: Job, w: nat, p: nat, stages: seq<nat>): seq<Op>
    requires job.size > 0
  {
    if w / job.size !in stages then []
    else if w % job.size == 0 then [RecvFull(p), Collect(p)]
    else [Collect(p)]
  }

  lemma GroupOfFirst(size: nat, g: nat, w: nat)
    requires size > 0
    ensures (g * size) / size == g && (g * size) % size == 0
    ensures w % size == 0 && w / size == g ==> w == g * size
  {
    QuotientUnique(g * size, size, g, 0);
    assert w == (w / size) * size + w % size;
  }

  lemma {:induction false} ParamScript(job: Job, w: nat, p: nat, stages: seq<nat>)
    requires job.size > 0 && w > 0 && NoRepeats(stages)
    ensures Project(job, w, StageEvents(p, stages)) == ParamOps(job, w, p, stages)
  {
    if stages != [] {
      var g := stages[0];
      var head := if g == 0 then [Event(p, 0, false)] else [Event(p, g, true), Event(p, g, false)];
      ParamScript(job, w, p, stages[1..]);
      ProjectConcat(job, w, head, StageEvents(p, stages[1..]));
      GroupOfFirst(job.size, g, w);
      assert g !in stages[1..];
      assert forall x :: x in stages <==> x == g || x in stages[1..];
      if g != 0 { assert head[1..] == [Event(p, g, false)] && head[1..][1..] == []; }
      else { assert head[1..] == []; }
    }
  }

  /** The loops of the loader, recording each communicating call: worker 0 goes over the
      stages of every parameter, the others skip what their group does not need. */
  method LoadScript(job: Job, w: nat) returns (ops: seq<Op>)
    requires JobOk(job)
    ensures ops == Project(job, w, Events(job, job.records))
  {
    hide Project, Events, StageEvents;
    ops := [];
    var i := 0;
    assert job.records[0..] == job.records;
    while i < |job.records|
      invariant i <= |job.records|
      invariant ops + Project(job, w, Events(job, job.records[i..])) == Project(job, w, Events(job, job.records))
    {
      var p := job.records[i];
      RecordStep(job, w, i);
      if w == 0 {
        ops := StageLoop(job, p, ops);
      } else {
        ParamScript(job, w, p, job.params[p].stages);
        if w / job.size in job.params[p].stages {
          if w % job.size == 0 {
            ops := ops + [RecvFull(p), Collect(p)];
          } else {
            ops := ops + [Collect(p)];
          }
        }
      }
      i := i + 1;
    }
    assert job.records[i..] == [];
    NothingLeft(job, w);
  }

  lemma NothingLeft(job: Job, w: nat)
    requires job.size > 0
    ensures Project(job, w, Events(job, [])) == []
  {
  }

  lemma RecordStep(job: Job, w: nat, i: nat)
    requires job.size > 0 && i < |job.records|
    ensures
      var p := job.records[i];
      Project(job, w, Events(job, job.records[i..]))
      == Project(job, w, StageEvents(p, StagesOf(job, p))) + Project(job, w, Events(job, job.records[i + 1..]))
  {
    var p := job.records[i];
    var rest := job.records[i..];
    assert rest[0] == p && rest[1..] == job.records[i + 1..];
    ProjectConcat(job, w, StageEvents(p, StagesOf(job, p)), Events(job, job.records[i + 1..]));
  }

  /** Worker 0 on one parameter: collect it in group 0, send it to every other group. */
  method StageLoop(job: Job, p: nat, start: seq<Op>) returns (ops: seq<Op>)
    requires job.size > 0 && p < |job.params|
    ensures ops == start + Project(job, 0, StageEvents(p, job.params[p].stages))
  {
    var stages := job.params[p].stages;
    ops := start;
    var j := 0;
    assert stages[0..] == stages;
    while j < |stages|
      invariant j <= |stages|
      invariant ops + Project(job, 0, StageEvents(p, stages[j..])) == start + Project(job, 0, StageEvents(p, stages))
    {
      WorkerZeroStage(job, p, stages[j..]);
      assert stages[j..][1..] == stages[j + 1..];
      if stages[j] == 0 {
        ops := ops + [Collect(p)];
      } else {
        ops := ops + [SendTo(p, stages[j])];
      }
      j := j + 1;
    }
    assert stages[j..] == [];
  }

  lemma WorkerZeroStage(job: Job, p: nat, stages: seq<nat>)
    requires job.size > 0 && stages != []
    ensures Project(job, 0, StageEvents(p, stages))
            == [if stages[0] == 0 then Collect(p) else SendTo(p, stages[0])]
              + Project(job, 0, StageEvents(p, stages[1..]))
  {
    var g := stages[0];
    var head := if g == 0 then [Event(p, 0, false)] else [Event(p, g, true), Event(p, g, false)];
    ProjectConcat(job, 0, head, StageEvents(p, stages[1..]));
    assert 0 / job.size == 0;
    if g != 0 { assert head[1..] == [Event(p, g, false)] && head[1..][1..] == []; } else { assert head[1..] == []; }
  }
}
