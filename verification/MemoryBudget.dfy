/** Inferring an engine configuration from model limits and a memory budget. Byte counts are
    exact reals. */
module MemoryBudget {
  import opened Options
  import opened Arithmetic

  const MAX_INT64 := 0x7FFF_FFFF_FFFF_FFFF

  /** The numbers of one model: limits of its configuration and of its compiled library, and
      what memory use depends on. -1 stands for no limit. */
  datatype Model = Model(
    runtimeWindow: Option<int>, compiledWindow: int, runtimeChunk: int, compiledChunk: int,
    maxBatch: int, slidingWindow: Option<int>,
    vocab: nat, chunk: nat, layers: nat, stages: nat, headDim: nat, heads: nat, kvHeads: nat)

  datatype Limits = Limits(compiledSingle: int, runtimeSingle: int, compiledChunk: int, runtimeChunk: int,
                           slidingWindow: int, maxBatch: int)

  // ---------------------------------------------------------------- limits

  function Limit(x: int): Option<int> {
    if x == -1 then None else Some(x)
  }

  function OrNone(x: Option<int>): int {
    if x.Some? then x.value else -1
  }

  /** A runtime setting, cut down to the compiled one. */
  function Effective(runtime: int, compiled: int): Option<int> {
    Limit(if compiled != -1 && (runtime == -1 || runtime > compiled) then compiled else runtime)
  }

  function CompiledSingle(m: Model): Option<int> { Limit(m.compiledWindow) }
  function RuntimeSingle(m: Model): Option<int> { Effective(OrNone(m.runtimeWindow), m.compiledWindow) }
  function CompiledChunk(m: Model): Option<int> { Limit(m.compiledChunk) }
  function RuntimeChunk(m: Model): Option<int> { Effective(m.runtimeChunk, m.compiledChunk) }
  function Sliding(m: Model): Option<int> { Limit(OrNone(m.slidingWindow)) }
  function Batch(m: Model): Option<int> { Some(m.maxBatch) }

  /** x is the least of the limits the first n models have, or the largest 64-bit integer
      when none has a smaller one. */
  ghost predicate Least(x: int, limit: Model -> Option<int>, models: seq<Model>, n: nat)
    requires n <= |models|
  {
    && x <= MAX_INT64
    && (forall i {:trigger models[i]} :: 0 <= i < n && limit(models[i]).Some? ==> x <= limit(models[i]).value)
    && (x == MAX_INT64 || exists i {:trigger models[i]} :: 0 <= i < n && limit(models[i]) == Some(x))
  }

  function Lower(x: int, limit: Option<int>): int {
    if limit.Some? && limit.value < x then limit.value else x
  }

  lemma LowerIsLeast(x: int, limit: Model -> Option<int>, models: seq<Model>, n: nat)
    requires n < |models| && Least(x, limit, models, n)
    ensures Least(Lower(x, limit(models[n])), limit, models, n + 1)
  {
    var y := Lower(x, limit(models[n]));
    if y == x {
      if x != MAX_INT64 {
        var i :| 0 <= i < n && limit(models[i]) == Some(x);
        assert limit(models[i]) == Some(y);
      }
    } else {
      assert limit(models[n]) == Some(y);
    }
  }

  /** Every limit is the least over the models. */
  ghost predicate LeastLimits(l: Limits, models: seq<Model>, n: nat)
    requires n <= |models|
  {
    && Least(l.compiledSingle, CompiledSingle, models, n)
    && Least(l.runtimeSingle, RuntimeSingle, models, n)
    && Least(l.compiledChunk, CompiledChunk, models, n)
    && Least(l.runtimeChunk, RuntimeChunk, models, n)
    && Least(l.slidingWindow, Sliding, models, n)
    && Least(l.maxBatch, Batch, models, n)
  }

  /** What the limits must satisfy to be usable. */
  predicate Usable(l: Limits) {
    0 < l.compiledChunk < MAX_INT64 && 0 < l.runtimeChunk < MAX_INT64 && 0 < l.maxBatch < MAX_INT64
  }

  lemma NoModels(models: seq<Model>)
    ensures LeastLimits(Limits(MAX_INT64, MAX_INT64, MAX_INT64, MAX_INT64, MAX_INT64, MAX_INT64), models, 0)
  {
  }

  lemma OneModel(l: Limits, models: seq<Model>, n: nat)
    requires n < |models| && LeastLimits(l, models, n)
    ensures
      var m := models[n];
      LeastLimits(Limits(Lower(l.compiledSingle, CompiledSingle(m)), Lower(l.runtimeSingle, RuntimeSingle(m)),
                         Lower(l.compiledChunk, CompiledChunk(m)), Lower(l.runtimeChunk, RuntimeChunk(m)),
                         Lower(l.slidingWindow, Sliding(m)), Lower(l.maxBatch, Batch(m))), models, n + 1)
  {
    hide Least, Lower;
    LowerIsLeast(l.compiledSingle, CompiledSingle, models, n);
    LowerIsLeast(l.runtimeSingle, RuntimeSingle, models, n);
    LowerIsLeast(l.compiledChunk, CompiledChunk, models, n);
    LowerIsLeast(l.runtimeChunk, RuntimeChunk, models, n);
    LowerIsLeast(l.slidingWindow, Sliding, models, n);
    LowerIsLeast(l.maxBatch, Batch, models, n);
  }

  /** The limits over all models, in one pass. */
  method GetModelConfigLimits(models: seq<Model>) returns (r: Result<Limits>)
    ensures r.Ok? ==>
              && LeastLimits(r.value, models, |models|)
              && 0 < r.value.compiledChunk < 0x7FFF_FFFF_FFFF_FFFF && 0 < r.value.runtimeChunk < 0x7FFF_FFFF_FFFF_FFFF
              && 0 < r.value.maxBatch < 0x7FFF_FFFF_FFFF_FFFF
    ensures r.Err? ==> forall l :: LeastLimits(l, models, |models|) ==>
              || !(0 < l.compiledChunk < 0x7FFF_FFFF_FFFF_FFFF) || !(0 < l.runtimeChunk < 0x7FFF_FFFF_FFFF_FFFF)
              || !(0 < l.maxBatch < 0x7FFF_FFFF_FFFF_FFFF)
  {
    hide LeastLimits;
    var l := Limits(MAX_INT64, MAX_INT64, MAX_INT64, MAX_INT64, MAX_INT64, MAX_INT64);
    NoModels(models);
    for i := 0 to |models|
      invariant LeastLimits(l, models, i)
    {
      var m := models[i];
      OneModel(l, models, i);
      var window := OrNone(m.runtimeWindow);
      if m.compiledWindow != -1 && (window == -1 || window > m.compiledWindow) {
        window := m.compiledWindow;
      }
      var single, runtimeSingle := l.compiledSingle, l.runtimeSingle;
      if m.compiledWindow != -1 && m.compiledWindow < single { single := m.compiledWindow; }
      if window != -1 && window < runtimeSingle { runtimeSingle := window; }
      var chunk := m.runtimeChunk;
      if m.compiledChunk != -1 && (chunk == -1 || chunk > m.compiledChunk) {
        chunk := m.compiledChunk;
      }
      var compiledChunk, runtimeChunk := l.compiledChunk, l.runtimeChunk;
      if m.compiledChunk != -1 && m.compiledChunk < compiledChunk { compiledChunk := m.compiledChunk; }
      if chunk != -1 && chunk < runtimeChunk { runtimeChunk := chunk; }
      var batch := if m.maxBatch < l.maxBatch then m.maxBatch else l.maxBatch;
      var sliding := l.slidingWindow;
      if OrNone(m.slidingWindow) != -1 && OrNone(m.slidingWindow) < sliding { sliding := OrNone(m.slidingWindow); }
      l := Limits(single, runtimeSingle, compiledChunk, runtimeChunk, sliding, batch);
    }
    if !Usable(l) {
      forall k | LeastLimits(k, models, |models|) ensures k == l {
        LimitsAreUnique(k, l, models, |models|);
      }
      return Err;
    }
    r := Ok(l);
  }

  lemma LeastIsUnique(x: int, y: int, limit: Model -> Option<int>, models: seq<Model>, n: nat)
    requires n <= |models| && Least(x, limit, models, n) && Least(y, limit, models, n)
    ensures x == y
  {
  }

  lemma LimitsAreUnique(k: Limits, l: Limits, models: seq<Model>, n: nat)
    requires n <= |models| && LeastLimits(k, models, n) && LeastLimits(l, models, n)
    ensures k == l
  {
    hide Least;
    LeastIsUnique(k.compiledSingle, l.compiledSingle, CompiledSingle, models, n);
    LeastIsUnique(k.runtimeSingle, l.runtimeSingle, RuntimeSingle, models, n);
    LeastIsUnique(k.compiledChunk, l.compiledChunk, CompiledChunk, models, n);
    LeastIsUnique(k.runtimeChunk, l.runtimeChunk, RuntimeChunk, models, n);
    LeastIsUnique(k.slidingWindow, l.slidingWindow, Sliding, models, n);
    LeastIsUnique(k.maxBatch, l.maxBatch, Batch, models, n);
  }

  /** Over any number of models, runtime limits never exceed the compiled ones. */
  lemma RuntimeWithinCompiled(l: Limits, models: seq<Model>, n: nat)
    requires n <= |models| && LeastLimits(l, models, n)
    ensures l.runtimeSingle <= l.compiledSingle && l.runtimeChunk <= l.compiledChunk
  {
    if l.compiledSingle != MAX_INT64 {
      var i :| 0 <= i < n && CompiledSingle(models[i]) == Some(l.compiledSingle);
      assert RuntimeSingle(models[i]).Some? && RuntimeSingle(models[i]).value <= l.compiledSingle;
    }
    if l.compiledChunk != MAX_INT64 {
      var i :| 0 <= i < n && CompiledChunk(models[i]) == Some(l.compiledChunk);
      assert RuntimeChunk(models[i]).Some? && RuntimeChunk(models[i]).value <= l.compiledChunk;
    }
  }

  // ---------------------------------------------------------------- bytes

  /** Bytes of key-value cache per token of one model. */
  function TokenBytes(m: Model): real
    requires m.stages > 0
  {
    (m.headDim * m.kvHeads * (m.layers / m.stages) * 4) as real + 1.25
  }

  function AuxBytes(m: Model, batch: int): real {
    ((batch + 1) * 88 + m.chunk * (m.heads + 1) * 8 + m.chunk * m.headDim * (m.heads + m.kvHeads) * 4
     + 48 * 1024 * 1024) as real
  }

  function ModelBytes(m: Model, batch: int): real {
    (m.chunk * 4 + batch * 4 + (m.chunk * 2 + batch) * (m.headDim * m.heads) * 2) as real
  }

  function LogitBytes(m: Model, batch: int): real {
    (batch * 20) as real + (batch * m.vocab) as real * 16.125
  }

  predicate Staged(models: seq<Model>) {
    forall i {:trigger models[i]} :: 0 <= i < |models| ==> models[i].stages > 0
  }

  datatype Bytes = Bytes(token: real, aux: real, model: real, logit: real)

  function Total(models: seq<Model>, batch: int, n: nat): Bytes
    requires n <= |models| && Staged(models)
  {
    if n == 0 then Bytes(0.0, 0.0, 0.0, 0.0)
    else
      var t, m := Total(models, batch, n - 1), models[n - 1];
      Bytes(t.token + TokenBytes(m), t.aux + AuxBytes(m, batch), t.model + ModelBytes(m, batch),
            t.logit + LogitBytes(m, batch))
  }

  lemma {:induction false} TokenBytesPositive(models: seq<Model>, batch: int, n: nat)
    requires n <= |models| && Staged(models)
    ensures Total(models, batch, n).token >= 0.0 && (n > 0 ==> Total(models, batch, n).token > 0.0)
  {
    hide TokenBytes, AuxBytes, ModelBytes, LogitBytes;
    if n > 0 {
      TokenBytesPositive(models, batch, n - 1);
      OneTokenPositive(models[n - 1]);
    }
  }

  lemma OneTokenPositive(m: Model)
    requires m.stages > 0
    ensures TokenBytes(m) > 0.0
  {
    NotNegative(m.headDim, m.kvHeads);
    NotNegative(m.headDim * m.kvHeads, m.layers / m.stages);
  }

  // ---------------------------------------------------------------- the configuration

  datatype Mode = Local | Interactive | Server

  datatype Config = Config(batch: Option<int>, total: Option<int>, single: Option<int>, chunk: Option<int>)

  datatype Estimate = Estimate(totalBytes: real, cacheBytes: real, tempBytes: real, config: Config)

  /** A real cut towards zero. */
  function Truncated(x: real): int {
    if x >= 0.0 then x.Floor else -((-x).Floor)
  }

  function CacheOf(tokens: int, tokenBytes: real): real {
    tokens as real * tokenBytes
  }

  /** What must be paid for apart from the cache. */
  function Fixed(params: int, temp: int, b: Bytes): real {
    params as real + temp as real + b.aux + b.model + b.logit
  }

  /** How many tokens of cache the budget leaves, at most 32768 on Metal. */
  function Room(budget: real, metal: bool, params: int, temp: int, b: Bytes): int
    requires b.token > 0.0
  {
    var most := Truncated((budget - Fixed(params, temp, b)) / b.token);
    if metal then MetalCap(most) else most
  }

  /** The room is the largest number of tokens that fits; capped on Metal. */
  lemma RoomIsLargest(budget: real, metal: bool, params: int, temp: int, b: Bytes, len: int)
    requires b.token > 0.0 && Room(budget, metal, params, temp, b) > 0 && (metal ==> len <= 32768)
    ensures len <= Room(budget, metal, params, temp, b) <==> Fixed(params, temp, b) + len as real * b.token <= budget
  {
    var x := (budget - Fixed(params, temp, b)) / b.token;
    assert x >= 0.0;
    assert x * b.token == budget - Fixed(params, temp, b);
    assert len <= x.Floor <==> len as real <= x;
    ScaleIff(len as real, x, b.token);
  }

  method SumBytes(models: seq<Model>, batch: int) returns (b: Bytes)
    requires Staged(models)
    ensures b == Total(models, batch, |models|)
  {
    var token, aux, model, logit := 0.0, 0.0, 0.0, 0.0;
    for i := 0 to |models|
      invariant Bytes(token, aux, model, logit) == Total(models, batch, i)
    {
      hide TokenBytes, AuxBytes, ModelBytes, LogitBytes;
      token := token + TokenBytes(models[i]);
      aux := aux + AuxBytes(models[i], batch);
      model := model + ModelBytes(models[i], batch);
      logit := logit + LogitBytes(models[i], batch);
    }
    b := Bytes(token, aux, model, logit);
  }

  // ---- the choices of a mode, for what the user left open

  function BatchChoice(mode: Mode, limits: Limits, init: Config): int {
    if init.batch.Some? then init.batch.value
    else match mode case Local => Min(4, limits.maxBatch) case Interactive => 1 case Server => limits.maxBatch
  }

  function SingleChoice(limits: Limits, init: Config): int {
    if init.single.None? then limits.runtimeSingle else Min(init.single.value, limits.compiledSingle)
  }

  function TotalChoice(mode: Mode, init: Config, room: int, batch: int, single: int): int {
    if init.total.Some? then init.total.value
    else match mode
         case Local => Min(room, Min(single, 8192))
         case Interactive => Min(room, single)
         case Server => if single == MAX_INT64 then room else Min(room, batch * single)
  }

  function ChunkChoice(mode: Mode, limits: Limits, init: Config, total: int, single: int): int {
    if init.chunk.Some? then init.chunk.value
    else if mode.Server? then limits.runtimeChunk
    else Min(limits.runtimeChunk, Min(total, single))
  }

  function Estimated(mode: Mode, metal: bool, budget: real, params: int, temp: int, b: Bytes, limits: Limits,
                     init: Config)
    : Result<Estimate>
    requires b.token > 0.0
  {
    if Truncated((budget - Fixed(params, temp, b)) / b.token) <= 0 then Err
    else
      var batch, single := BatchChoice(mode, limits, init), SingleChoice(limits, init);
      var total := TotalChoice(mode, init, Room(budget, metal, params, temp, b), batch, single);
      Ok(Estimate(Fixed(params, temp, b) + CacheOf(total, b.token),
                  CacheOf(total, b.token) + b.aux,
                  b.model + b.logit + temp as real,
                  Config(Some(batch), Some(total), Some(single), Some(ChunkChoice(mode, limits, init, total, single)))))
  }

  /** Sum up, divide what is left, and choose. */
  method EstimateMemoryUsage(mode: Mode, metal: bool, gpu: real, utilization: real, params: int, temp: int,
                             models: seq<Model>, limits: Limits, init: Config)
    returns (r: Result<Estimate>)
    requires Staged(models) && models != []
    ensures
      var b := Total(models, BatchChoice(mode, limits, init), |models|);
      b.token > 0.0 && r == Estimated(mode, metal, gpu * utilization, params, temp, b, limits, init)
  {
    hide Total, Truncated, TokenBytes, Min, CacheOf;
    var config := init;
    if init.batch.None? {
      var batch := match mode
        case Local => Min(4, limits.maxBatch)
        case Interactive => 1
        case Server => limits.maxBatch;
      config := config.(batch := Some(batch));
    }
    var batch := config.batch.value;
    config := config.(single := Some(if init.single.None? then limits.runtimeSingle
                                     else Min(init.single.value, limits.compiledSingle)));
    var single := config.single.value;
    var b := SumBytes(models, batch);
    TokenBytesPositive(models, batch, |models|);
    var most := Truncated((gpu * utilization - params as real - temp as real - b.aux - b.model - b.logit) / b.token);
    SameBudget(gpu * utilization, params, temp, b);
    assert most == Truncated((gpu * utilization - Fixed(params, temp, b)) / b.token);
    if most <= 0 { return Err; }
    if metal { most := MetalCap(most); }
    assert most == Room(gpu * utilization, metal, params, temp, b);
    if init.total.None? {
      config := config.(total := Some(
        match mode
        case Local => Min(most, Min(single, 8192))
        case Interactive => Min(most, single)
        case Server => if single == MAX_INT64 then most else Min(most, batch * single)));
    }
    var total := config.total.value;
    if init.chunk.None? {
      config := config.(chunk := Some(
        match mode
        case Server => limits.runtimeChunk
        case _ => Min(limits.runtimeChunk, Min(total, single))));
    }
    assert total == TotalChoice(mode, init, most, batch, single);
    r := Ok(Estimate(Fixed(params, temp, b) + CacheOf(total, b.token), CacheOf(total, b.token) + b.aux,
                     b.model + b.logit + temp as real, config));
  }

  function MetalCap(most: int): int {
    if most > 32768 then 32768 else most
  }

  lemma SameBudget(budget: real, params: int, temp: int, b: Bytes)
    ensures budget - params as real - temp as real - b.aux - b.model - b.logit == budget - Fixed(params, temp, b)
  {
  }

  // ---- what the choices guarantee

  /** In every mode an inferred total length keeps the whole estimate within the budget. */
  lemma WithinBudget(mode: Mode, metal: bool, budget: real, params: int, temp: int, b: Bytes, limits: Limits,
                     init: Config)
    requires b.token > 0.0 && init.total.None?
    ensures
      var r := Estimated(mode, metal, budget, params, temp, b, limits, init);
      r.Ok? ==> r.value.totalBytes <= budget
  {
    var r := Estimated(mode, metal, budget, params, temp, b, limits, init);
    if r.Ok? {
      var room := Room(budget, metal, params, temp, b);
      var total := r.value.config.total.value;
      hide Truncated;
      assert 0 < room && total <= room;
      RoomIsLargest(budget, metal, params, temp, b, total);
    }
  }

  /** With a total length from the user the estimate is within the budget exactly if the
      length is within the room, on Metal as well: the cap is not a matter of memory. */
  lemma UserTotalFitsIff(mode: Mode, metal: bool, budget: real, params: int, temp: int, b: Bytes, limits: Limits,
                         init: Config)
    requires b.token > 0.0 && init.total.Some?
    ensures
      var r := Estimated(mode, metal, budget, params, temp, b, limits, init);
      r.Ok? ==> (r.value.totalBytes <= budget <==> init.total.value <= Room(budget, false, params, temp, b))
  {
    var r := Estimated(mode, metal, budget, params, temp, b, limits, init);
    if r.Ok? {
      hide Truncated;
      RoomIsLargest(budget, false, params, temp, b, init.total.value);
    }
  }

  /** Without any other limit the server takes all it can: one more token does not fit. */
  lemma ServerTakesAll(budget: real, params: int, temp: int, b: Bytes, limits: Limits, init: Config)
    requires b.token > 0.0 && init.total.None? && SingleChoice(limits, init) == MAX_INT64
    ensures
      var r := Estimated(Server, false, budget, params, temp, b, limits, init);
      r.Ok? ==> r.value.totalBytes <= budget < r.value.totalBytes + b.token
  {
    var r := Estimated(Server, false, budget, params, temp, b, limits, init);
    if r.Ok? {
      var room := Room(budget, false, params, temp, b);
      hide Truncated;
      RoomIsLargest(budget, false, params, temp, b, room);
      RoomIsLargest(budget, false, params, temp, b, room + 1);
      assert (room + 1) as real * b.token == room as real * b.token + b.token;
    }
  }

  /** The parts of the estimate add up, and an inferred chunk in local or interactive mode is
      within the total length, the single length and the model's limit. */
  lemma PartsAndChunk(mode: Mode, metal: bool, budget: real, params: int, temp: int, b: Bytes, limits: Limits,
                      init: Config)
    requires b.token > 0.0
    ensures
      var r := Estimated(mode, metal, budget, params, temp, b, limits, init);
      r.Ok? ==>
        var e, c := r.value, r.value.config;
        && e.totalBytes == e.cacheBytes + e.tempBytes + params as real
        && (init.chunk.None? && !mode.Server? ==>
              c.chunk.value <= c.total.value && c.chunk.value <= c.single.value && c.chunk.value <= limits.runtimeChunk)
        && (init.single.Some? ==> c.single.value <= limits.compiledSingle)
  {
  }

  // ---------------------------------------------------------------- the choices in other words

  /** A total length the mode allows: it fits the budget, and it is within the cap of Metal, the
      limit of local mode, and what single sequences can use. */
  predicate Allowed(mode: Mode, metal: bool, budget: real, params: int, temp: int, b: Bytes, batch: int, single: int,
                    total: int)
  {
    && params as real + temp as real + b.aux + b.model + b.logit + total as real * b.token <= budget
    && (metal ==> total <= 32768)
    && match mode
       case Local => total <= single && total <= 8192
       case Interactive => total <= single
       case Server => single == MAX_INT64 || total <= batch * single
  }

  /** There is no estimate exactly if not even one token fits. */
  lemma NoRoomIff(mode: Mode, metal: bool, budget: real, params: int, temp: int, b: Bytes, limits: Limits, init: Config)
    requires b.token > 0.0
    ensures Estimated(mode, metal, budget, params, temp, b, limits, init).Err?
            <==> params as real + temp as real + b.aux + b.model + b.logit + b.token > budget
  {
    var free := budget - Fixed(params, temp, b);
    var x := free / b.token;
    assert x * b.token == free;
    ScaleIff(1.0, x, b.token);
    assert Truncated(x) <= 0 <==> x < 1.0;
  }

  /** Without a choice of the user the total length is the largest that is allowed. */
  lemma TotalIsLargest(mode: Mode, metal: bool, budget: real, params: int, temp: int, b: Bytes, limits: Limits,
                       init: Config, total: int)
    requires b.token > 0.0 && init.total.None?
    ensures
      var r := Estimated(mode, metal, budget, params, temp, b, limits, init);
      r.Ok? ==>
        var c := r.value.config;
        && c.batch.Some? && c.single.Some? && c.total.Some?
        && (total <= c.total.value
            <==> Allowed(mode, metal, budget, params, temp, b, c.batch.value, c.single.value, total))
  {
    var r := Estimated(mode, metal, budget, params, temp, b, limits, init);
    if r.Ok? {
      hide Truncated;
      RoomIsLargest(budget, false, params, temp, b, total);
    }
  }

  /** The other choices: what the user set counts, up to the compiled length of a sequence; what
      is left open is as large as the model and the mode allow. */
  lemma ChoicesMean(mode: Mode, metal: bool, budget: real, params: int, temp: int, b: Bytes, limits: Limits,
                    init: Config, x: int)
    requires b.token > 0.0
    ensures
      var r := Estimated(mode, metal, budget, params, temp, b, limits, init);
      r.Ok? ==>
        var c := r.value.config;
        && c.batch.Some? && c.single.Some? && c.total.Some? && c.chunk.Some?
        && (init.batch.Some? ==> c.batch == init.batch) && (init.total.Some? ==> c.total == init.total)
        && (init.chunk.Some? ==> c.chunk == init.chunk)
        && (init.batch.None? ==>
              (x <= c.batch.value <==>
                match mode
                case Local => x <= 4 && x <= limits.maxBatch
                case Interactive => x <= 1
                case Server => x <= limits.maxBatch))
        && (x <= c.single.value <==>
              if init.single.Some? then x <= init.single.value && x <= limits.compiledSingle
              else x <= limits.runtimeSingle)
        && (init.chunk.None? ==>
              (x <= c.chunk.value <==>
                x <= limits.runtimeChunk && (!mode.Server? ==> x <= c.total.value && x <= c.single.value)))
  {
    hide Truncated, Fixed, Room, CacheOf;
  }

  /** What the estimate adds up. */
  lemma EstimateAdds(mode: Mode, metal: bool, budget: real, params: int, temp: int, b: Bytes, limits: Limits,
                     init: Config)
    requires b.token > 0.0
    ensures
      var r := Estimated(mode, metal, budget, params, temp, b, limits, init);
      r.Ok? ==>
        var e := r.value;
        && e.config.total.Some?
        && e.totalBytes
           == params as real + temp as real + b.aux + b.model + b.logit + e.config.total.value as real * b.token
        && e.cacheBytes == e.config.total.value as real * b.token + b.aux
        && e.tempBytes == b.model + b.logit + temp as real
  {
    hide Truncated, Room, TotalChoice, BatchChoice, SingleChoice, ChunkChoice;
  }

  /** A runtime setting counts up to the compiled one; -1 sets no limit. */
  lemma WithinEffective(runtime: int, compiled: int, x: int)
    ensures (Effective(runtime, compiled).Some? ==> x <= Effective(runtime, compiled).value)
            <==> (runtime != -1 ==> x <= runtime) && (compiled != -1 ==> x <= compiled)
  {
  }

  /** The bytes of a small model: vocabulary 10, chunks of 2, 4 layers in 2 stages, 5 heads of
      3 with 2 key-value heads, and 3 sequences. */
  lemma SmallModelBytes(m: Model)
    requires m.vocab == 10 && m.chunk == 2 && m.layers == 4 && m.stages == 2
    requires m.headDim == 3 && m.heads == 5 && m.kvHeads == 2
    ensures Total([m, m], 3, 2) == Bytes(98.5, 100664528.0, 460.0, 1087.5)
  {
    assert Total([m, m], 3, 0) == Bytes(0.0, 0.0, 0.0, 0.0);
    assert TokenBytes(m) == 49.25 && AuxBytes(m, 3) == 50332264.0 && ModelBytes(m, 3) == 230.0
           && LogitBytes(m, 3) == 543.75;
    assert Total([m, m], 3, 1) == Bytes(49.25, 50332264.0, 230.0, 543.75);
  }
}
