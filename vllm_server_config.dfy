/** The vLLM settings of ai_server/vllm_server/vllm_config.py: the settings
    record with its defaults, the command line `VLLMServerArgs.get_server_args`
    builds from it (18 fixed arguments, then up to three switches), and
    `update_vllm_config`, which assigns keyword arguments to the module-global
    settings object field by field. */
module VllmServerConfig {
  import opened Common

  datatype VllmConfig = VllmConfig(
    host: string,
    port: int,
    modelName: string,
    modelPath: string,
    tensorParallelSize: int,
    gpuMemoryUtilization: Float,
    maxModelLen: int,
    enableChunkedPrefill: bool,
    maxNumBatchedTokens: int,
    maxNumSeqs: int,
    servedModelName: string,
    disableLogStats: bool,
    trustRemoteCode: bool)

  function DefaultConfig(): VllmConfig
  {
    VllmConfig(
      host := "0.0.0.0",
      port := 8001,
      modelName := "HyperCLOVAX-1.5B_LoRA_fp16",
      modelPath := "./models/HyperCLOVAX-1.5B_LoRA_fp16",
      tensorParallelSize := 1,
      gpuMemoryUtilization := Float("0.8"),
      maxModelLen := 4096,
      enableChunkedPrefill := true,
      maxNumBatchedTokens := 8192,
      maxNumSeqs := 256,
      servedModelName := "HyperCLOVAX-1.5B_LoRA_fp16",
      disableLogStats := false,
      trustRemoteCode := true)
  }

  /** The 18 arguments every command line starts with. */
  function FixedArgs(c: VllmConfig): seq<string>
  {
    ["--host", c.host,
     "--port", IntToString(c.port),
     "--model", c.modelPath,
     "--served-model-name", c.servedModelName,
     "--tensor-parallel-size", IntToString(c.tensorParallelSize),
     "--gpu-memory-utilization", c.gpuMemoryUtilization.repr,
     "--max-model-len", IntToString(c.maxModelLen),
     "--max-num-batched-tokens", IntToString(c.maxNumBatchedTokens),
     "--max-num-seqs", IntToString(c.maxNumSeqs)]
  }

  /** The three switches, in the order they are appended. */
  const Switches: seq<string> := ["--enable-chunked-prefill", "--trust-remote-code", "--disable-log-stats"]

  /** The settings that turn the switches on, in the same order. */
  function SwitchSettings(c: VllmConfig): seq<bool>
  {
    [c.enableChunkedPrefill, c.trustRemoteCode, c.disableLogStats]
  }

  function Flag(on: bool, name: string): seq<string>
  {
    if on then [name] else []
  }

  /** The switches whose settings are on, in order. */
  function SwitchArgs(c: VllmConfig): seq<string>
  {
    Flag(c.enableChunkedPrefill, Switches[0]) +
    Flag(c.trustRemoteCode, Switches[1]) +
    Flag(c.disableLogStats, Switches[2])
  }

  /** The command line `get_server_args` returns: the 18 fixed arguments with
      the model path after `--model`, then one argument per switch that is on. */
  function ServerArgs(c: VllmConfig): (r: seq<string>)
    ensures |r| == 18 + SwitchesOn(c)
    ensures r[..18] == FixedArgs(c) && r[4] == "--model" && r[5] == c.modelPath
    ensures r[18..] == SwitchArgs(c)
  {
    var fixed := FixedArgs(c);
    assert |fixed| == 18 && fixed[4] == "--model" && fixed[5] == c.modelPath;
    SplitAt(fixed, SwitchArgs(c));
    fixed + SwitchArgs(c)
  }

  /** The number of switches that are on. */
  function SwitchesOn(c: VllmConfig): (n: nat)
    ensures n <= 3
  {
    (if c.enableChunkedPrefill then 1 else 0) +
    (if c.trustRemoteCode then 1 else 0) +
    (if c.disableLogStats then 1 else 0)
  }

  /** Each switch follows the fixed part exactly when its setting is on. */
  lemma SwitchIff(c: VllmConfig, k: nat)
    requires k < 3
    ensures Switches[k] in ServerArgs(c)[18..] <==> SwitchSettings(c)[k]
  {
  }

  /** The switches that appear, appear in the fixed order. */
  lemma SwitchOrder(c: VllmConfig)
    ensures IsSubsequence(ServerArgs(c)[18..], Switches)
  {
    FlagsInOrder(c.enableChunkedPrefill, c.trustRemoteCode, c.disableLogStats, Switches[0], Switches[1], Switches[2]);
    assert Switches == [Switches[0], Switches[1], Switches[2]];
  }

  /** Keeping any of three names keeps them in their order. */
  lemma FlagsInOrder(p: bool, q: bool, r: bool, a: string, b: string, d: string)
    ensures IsSubsequence(Flag(p, a) + Flag(q, b) + Flag(r, d), [a, b, d])
  {
    SubsequenceRefl<string>([]);
    KeepOne(r, d, [], []);
    assert Flag(r, d) + [] == Flag(r, d) && [d] + [] == [d];
    KeepOne(q, b, Flag(r, d), [d]);
    assert [b] + [d] == [b, d];
    KeepOne(p, a, Flag(q, b) + Flag(r, d), [b, d]);
    assert [a] + [b, d] == [a, b, d];
    assert Flag(p, a) + (Flag(q, b) + Flag(r, d)) == Flag(p, a) + Flag(q, b) + Flag(r, d);
  }

  /** A name kept or left out in front keeps the order behind it. */
  lemma KeepOne(on: bool, x: string, u: seq<string>, v: seq<string>)
    requires IsSubsequence(u, v)
    ensures IsSubsequence(Flag(on, x) + u, [x] + v)
  {
    if on {
      SubsequenceCons(x, u, v);
    } else {
      SubsequenceSkip(x, u, v);
      assert Flag(on, x) + u == u;
    }
  }

  /** Under the default settings the command line ends in
      `--enable-chunked-prefill --trust-remote-code` and has 20 arguments. */
  lemma DefaultServerArgs()
    ensures |ServerArgs(DefaultConfig())| == 20
    ensures ServerArgs(DefaultConfig())[18..] == ["--enable-chunked-prefill", "--trust-remote-code"]
  {
  }

  /** `VLLMServerArgs`: builds the command line for the settings it holds. */
  class VllmServerArgs {
    const config: VllmConfig

    constructor (config: VllmConfig)
      ensures this.config == config
    {
      this.config := config;
    }

    method GetServerArgs() returns (args: seq<string>)
      ensures args == ServerArgs(config)
    {
      args := FixedArgs(config);
      if config.enableChunkedPrefill {
        args := args + ["--enable-chunked-prefill"];
      }
      if config.trustRemoteCode {
        args := args + ["--trust-remote-code"];
      }
      if config.disableLogStats {
        args := args + ["--disable-log-stats"];
      }
    }
  }

  // ---- update_vllm_config ----

  /** The fields of the settings record. */
  datatype Field = Host | Port | ModelName | ModelPath | TensorParallelSize
    | GpuMemoryUtilization | MaxModelLen | EnableChunkedPrefill | MaxNumBatchedTokens
    | MaxNumSeqs | ServedModelName | DisableLogStats | TrustRemoteCode

  /** The Python name of a field. */
  function FieldName(f: Field): string
  {
    match f
    case Host => "host"
    case Port => "port"
    case ModelName => "model_name"
    case ModelPath => "model_path"
    case TensorParallelSize => "tensor_parallel_size"
    case GpuMemoryUtilization => "gpu_memory_utilization"
    case MaxModelLen => "max_model_len"
    case EnableChunkedPrefill => "enable_chunked_prefill"
    case MaxNumBatchedTokens => "max_num_batched_tokens"
    case MaxNumSeqs => "max_num_seqs"
    case ServedModelName => "served_model_name"
    case DisableLogStats => "disable_log_stats"
    case TrustRemoteCode => "trust_remote_code"
  }

  const FieldNames: set<string> :=
    {"host", "port", "model_name", "model_path", "tensor_parallel_size",
     "gpu_memory_utilization", "max_model_len", "enable_chunked_prefill",
     "max_num_batched_tokens", "max_num_seqs", "served_model_name",
     "disable_log_stats", "trust_remote_code"}

  /** The field a name denotes, if any. */
  function FieldOf(name: string): (r: Option<Field>)
    ensures r.Some? <==> name in FieldNames
    ensures r.Some? ==> FieldName(r.value) == name
  {
    match name
    case "host" => Some(Host)
    case "port" => Some(Port)
    case "model_name" => Some(ModelName)
    case "model_path" => Some(ModelPath)
    case "tensor_parallel_size" => Some(TensorParallelSize)
    case "gpu_memory_utilization" => Some(GpuMemoryUtilization)
    case "max_model_len" => Some(MaxModelLen)
    case "enable_chunked_prefill" => Some(EnableChunkedPrefill)
    case "max_num_batched_tokens" => Some(MaxNumBatchedTokens)
    case "max_num_seqs" => Some(MaxNumSeqs)
    case "served_model_name" => Some(ServedModelName)
    case "disable_log_stats" => Some(DisableLogStats)
    case "trust_remote_code" => Some(TrustRemoteCode)
    case _ => None
  }

  /** `v` has the type the field declares. */
  predicate FitsField(f: Field, v: Value)
  {
    match f
    case Host => v.Str?
    case Port => v.Int?
    case ModelName => v.Str?
    case ModelPath => v.Str?
    case TensorParallelSize => v.Int?
    case GpuMemoryUtilization => v.FloatValue?
    case MaxModelLen => v.Int?
    case EnableChunkedPrefill => v.Bool?
    case MaxNumBatchedTokens => v.Int?
    case MaxNumSeqs => v.Int?
    case ServedModelName => v.Str?
    case DisableLogStats => v.Bool?
    case TrustRemoteCode => v.Bool?
  }

  /** `v` has the type the field `name` declares; no other name fits. */
  predicate Fits(name: string, v: Value)
  {
    FieldOf(name).Some? && FitsField(FieldOf(name).value, v)
  }

  /** The value of a field. */
  function Get(c: VllmConfig, f: Field): Value
  {
    match f
    case Host => Str(c.host)
    case Port => Int(c.port)
    case ModelName => Str(c.modelName)
    case ModelPath => Str(c.modelPath)
    case TensorParallelSize => Int(c.tensorParallelSize)
    case GpuMemoryUtilization => FloatValue(c.gpuMemoryUtilization)
    case MaxModelLen => Int(c.maxModelLen)
    case EnableChunkedPrefill => Bool(c.enableChunkedPrefill)
    case MaxNumBatchedTokens => Int(c.maxNumBatchedTokens)
    case MaxNumSeqs => Int(c.maxNumSeqs)
    case ServedModelName => Str(c.servedModelName)
    case DisableLogStats => Bool(c.disableLogStats)
    case TrustRemoteCode => Bool(c.trustRemoteCode)
  }

  /** The record with one field replaced. */
  function Set(c: VllmConfig, f: Field, v: Value): VllmConfig
    requires FitsField(f, v)
  {
    match f
    case Host => c.(host := v.s)
    case Port => c.(port := v.i)
    case ModelName => c.(modelName := v.s)
    case ModelPath => c.(modelPath := v.s)
    case TensorParallelSize => c.(tensorParallelSize := v.i)
    case GpuMemoryUtilization => c.(gpuMemoryUtilization := v.f)
    case MaxModelLen => c.(maxModelLen := v.i)
    case EnableChunkedPrefill => c.(enableChunkedPrefill := v.b)
    case MaxNumBatchedTokens => c.(maxNumBatchedTokens := v.i)
    case MaxNumSeqs => c.(maxNumSeqs := v.i)
    case ServedModelName => c.(servedModelName := v.s)
    case DisableLogStats => c.(disableLogStats := v.b)
    case TrustRemoteCode => c.(trustRemoteCode := v.b)
  }

  /** `getattr(config, name)` for a field name. */
  function Lookup(c: VllmConfig, name: string): Option<Value>
  {
    match FieldOf(name)
    case Some(f) => Some(Get(c, f))
    case None => None
  }

  /** `setattr(config, name, v)` for a field name. */
  function Assign(c: VllmConfig, name: string, v: Value): VllmConfig
    requires Fits(name, v)
  {
    Set(c, FieldOf(name).value, v)
  }

  lemma SetThenGet(c: VllmConfig, f: Field, v: Value, g: Field)
    requires FitsField(f, v)
    ensures Get(Set(c, f, v), g) == if g == f then v else Get(c, g)
  {
    match f
    case _ =>
  }

  /** Assigning a field makes it read back as the value assigned and changes no
      other field. */
  lemma AssignThenLookup(c: VllmConfig, name: string, v: Value, other: string)
    requires Fits(name, v)
    ensures Lookup(Assign(c, name, v), other) == if other == name then Some(v) else Lookup(c, other)
  {
    var f := FieldOf(name).value;
    if FieldOf(other).Some? {
      SetThenGet(c, f, v, FieldOf(other).value);
    }
  }

  predicate WellTyped(kwargs: seq<(string, Value)>)
  {
    forall i | 0 <= i < |kwargs| :: kwargs[i].0 in FieldNames ==> Fits(kwargs[i].0, kwargs[i].1)
  }

  lemma WellTypedPrefix(kwargs: seq<(string, Value)>, n: nat)
    requires WellTyped(kwargs) && n <= |kwargs|
    ensures WellTyped(kwargs[..n])
  {
    assert forall i | 0 <= i < n :: kwargs[..n][i] == kwargs[i];
  }

  /** The message of the ValueError pydantic raises when a name that is an
      attribute but not a field is assigned. */
  function NoFieldMessage(name: string): string
  {
    "\"VLLMConfig\" object has no field \"" + name + "\""
  }

  /** `update_vllm_config(**kwargs)` as a function: the settings after the loop
      and the name whose assignment raised, if one did. Field names are
      assigned; names in `inherited` (attributes of the settings class that are
      not fields, so `hasattr` accepts them) raise; other names are skipped. */
  function Update(c: VllmConfig, kwargs: seq<(string, Value)>, inherited: set<string>)
    : (r: (VllmConfig, Option<string>))
    requires WellTyped(kwargs)
    // a raise names a keyword that is an attribute but not a field
    ensures r.1.Some? ==> r.1.value in inherited && r.1.value !in FieldNames &&
                          exists i | 0 <= i < |kwargs| :: kwargs[i].0 == r.1.value
    // no raise means no keyword was such an attribute
    ensures r.1.None? ==> forall i | 0 <= i < |kwargs| :: kwargs[i].0 in FieldNames || kwargs[i].0 !in inherited
  {
    if kwargs == [] then (c, None)
    else
      var last := kwargs[|kwargs| - 1];
      WellTypedPrefix(kwargs, |kwargs| - 1);
      assert forall i | 0 <= i < |kwargs| - 1 :: kwargs[..|kwargs| - 1][i] == kwargs[i];
      var (before, raised) := Update(c, kwargs[..|kwargs| - 1], inherited);
      if raised.Some? then (before, raised)
      else if last.0 in FieldNames then (Assign(before, last.0, last.1), None)
      else if last.0 in inherited then (before, Some(last.0))
      else (before, None)
  }

  /** When no assignment raises, every field holds the value last passed for it,
      and a field no keyword names keeps its old value. */
  lemma {:induction false} UpdateLastWins(c: VllmConfig, kwargs: seq<(string, Value)>, inherited: set<string>, name: string)
    requires WellTyped(kwargs) && name in FieldNames
    requires Update(c, kwargs, inherited).1.None?
    ensures Lookup(Update(c, kwargs, inherited).0, name) ==
              if LastAssigned(kwargs, name).Some? then LastAssigned(kwargs, name) else Lookup(c, name)
  {
    if kwargs != [] {
      var init := kwargs[..|kwargs| - 1];
      var last := kwargs[|kwargs| - 1];
      WellTypedPrefix(kwargs, |kwargs| - 1);
      UpdateLastWins(c, init, inherited, name);
      if last.0 in FieldNames {
        AssignThenLookup(Update(c, init, inherited).0, last.0, last.1, name);
      }
    }
  }

  /** Keywords that name neither a field nor another attribute change nothing. */
  lemma {:induction false} UpdateIgnoresUnknown(c: VllmConfig, kwargs: seq<(string, Value)>, inherited: set<string>)
    requires forall i | 0 <= i < |kwargs| :: kwargs[i].0 !in FieldNames && kwargs[i].0 !in inherited
    ensures WellTyped(kwargs) && Update(c, kwargs, inherited) == (c, None)
  {
    if kwargs != [] {
      var init := kwargs[..|kwargs| - 1];
      assert forall i | 0 <= i < |init| :: init[i] == kwargs[i];
      UpdateIgnoresUnknown(c, init, inherited);
    }
  }

  /** Once an assignment has raised, the keywords after it are never looked at. */
  lemma {:induction false} UpdateStopsAtRaise(c: VllmConfig, kwargs: seq<(string, Value)>, inherited: set<string>, n: nat)
    requires WellTyped(kwargs) && n <= |kwargs|
    requires WellTyped(kwargs[..n]) && Update(c, kwargs[..n], inherited).1.Some?
    ensures Update(c, kwargs, inherited) == Update(c, kwargs[..n], inherited)
  {
    if n < |kwargs| {
      var init := kwargs[..|kwargs| - 1];
      assert init[..n] == kwargs[..n];
      WellTypedPrefix(kwargs, |kwargs| - 1);
      UpdateStopsAtRaise(c, init, inherited, n);
    } else {
      assert kwargs[..n] == kwargs;
    }
  }

  /** An assignment raises exactly when some keyword names a non-field
      attribute. */
  lemma {:induction false} UpdateRaisesIff(c: VllmConfig, kwargs: seq<(string, Value)>, inherited: set<string>)
    requires WellTyped(kwargs) && inherited !! FieldNames
    ensures Update(c, kwargs, inherited).1.Some? <==> exists i | 0 <= i < |kwargs| :: kwargs[i].0 in inherited
    ensures Update(c, kwargs, inherited).1.Some? ==> Update(c, kwargs, inherited).1.value in inherited
  {
    if kwargs != [] {
      var init := kwargs[..|kwargs| - 1];
      WellTypedPrefix(kwargs, |kwargs| - 1);
      UpdateRaisesIff(c, init, inherited);
      assert forall i | 0 <= i < |init| :: init[i] == kwargs[i];
    }
  }

  /** Every field, in declaration order. */
  const AllFields: seq<Field> :=
    [Host, Port, ModelName, ModelPath, TensorParallelSize,
     GpuMemoryUtilization, MaxModelLen, EnableChunkedPrefill, MaxNumBatchedTokens,
     MaxNumSeqs, ServedModelName, DisableLogStats, TrustRemoteCode]

  lemma InAllFields(f: Field)
    ensures f in AllFields
  {
    match f
    case _ =>
  }

  /** The record with each field of `fields` that the environment names
      replaced by its value there. */
  function LoadFields(c: VllmConfig, fields: seq<Field>, environment: map<Field, Value>): (r: VllmConfig)
    requires forall f | f in environment :: FitsField(f, environment[f])
    ensures forall g :: Get(r, g) == if g in environment && g in fields then environment[g] else Get(c, g)
    decreases |fields|
  {
    if fields == [] then c
    else
      var f := fields[0];
      var next := if f in environment then Set(c, f, environment[f]) else c;
      assert forall g :: Get(next, g) == if g == f && f in environment then environment[g] else Get(c, g) by {
        forall g ensures Get(next, g) == if g == f && f in environment then environment[g] else Get(c, g) {
          if f in environment {
            SetThenGet(c, f, environment[f], g);
          }
        }
      }
      assert forall g :: g in fields <==> g == f || g in fields[1..];
      LoadFields(next, fields[1..], environment)
  }

  /** A record is determined by the values of its fields. */
  lemma GetDetermines(c: VllmConfig, d: VllmConfig)
    requires forall g :: Get(c, g) == Get(d, g)
    ensures c == d
  {
    assert c.host == d.host by { assert Get(c, Host) == Get(d, Host); }
    assert c.port == d.port by { assert Get(c, Port) == Get(d, Port); }
    assert c.modelName == d.modelName by { assert Get(c, ModelName) == Get(d, ModelName); }
    assert c.modelPath == d.modelPath by { assert Get(c, ModelPath) == Get(d, ModelPath); }
    assert c.tensorParallelSize == d.tensorParallelSize by { assert Get(c, TensorParallelSize) == Get(d, TensorParallelSize); }
    assert c.gpuMemoryUtilization == d.gpuMemoryUtilization by { assert Get(c, GpuMemoryUtilization) == Get(d, GpuMemoryUtilization); }
    assert c.maxModelLen == d.maxModelLen by { assert Get(c, MaxModelLen) == Get(d, MaxModelLen); }
    assert c.enableChunkedPrefill == d.enableChunkedPrefill by { assert Get(c, EnableChunkedPrefill) == Get(d, EnableChunkedPrefill); }
    assert c.maxNumBatchedTokens == d.maxNumBatchedTokens by { assert Get(c, MaxNumBatchedTokens) == Get(d, MaxNumBatchedTokens); }
    assert c.maxNumSeqs == d.maxNumSeqs by { assert Get(c, MaxNumSeqs) == Get(d, MaxNumSeqs); }
    assert c.servedModelName == d.servedModelName by { assert Get(c, ServedModelName) == Get(d, ServedModelName); }
    assert c.disableLogStats == d.disableLogStats by { assert Get(c, DisableLogStats) == Get(d, DisableLogStats); }
    assert c.trustRemoteCode == d.trustRemoteCode by { assert Get(c, TrustRemoteCode) == Get(d, TrustRemoteCode); }
  }

  /** The settings `VLLMConfig()` builds: a field set in the environment takes
      that value, every other field its default. */
  function Loaded(environment: map<Field, Value>): VllmConfig
    requires forall f | f in environment :: FitsField(f, environment[f])
  {
    LoadFields(DefaultConfig(), AllFields, environment)
  }

  /** Each field set in the environment takes that value and every other
      field keeps its default. */
  lemma LoadedFields(environment: map<Field, Value>)
    requires forall f | f in environment :: FitsField(f, environment[f])
    ensures forall g :: Get(Loaded(environment), g) ==
                        if g in environment then environment[g] else Get(DefaultConfig(), g)
  {
    forall g ensures g in AllFields {
      InAllFields(g);
    }
    LoadEveryField(DefaultConfig(), AllFields, environment);
  }

  /** With no setting in the environment, the settings are the defaults. */
  lemma LoadedDefaults()
    ensures Loaded(map[]) == DefaultConfig()
  {
    LoadNothing(DefaultConfig(), AllFields, map[]);
  }

  /** Loading a list that names every field sets each field found in the
      environment and keeps the rest. */
  lemma LoadEveryField(c: VllmConfig, fields: seq<Field>, environment: map<Field, Value>)
    requires forall f | f in environment :: FitsField(f, environment[f])
    requires forall g :: g in fields
    ensures forall g :: Get(LoadFields(c, fields, environment), g) ==
                        if g in environment then environment[g] else Get(c, g)
  {
  }

  /** Loading from an empty environment changes nothing. */
  lemma LoadNothing(c: VllmConfig, fields: seq<Field>, environment: map<Field, Value>)
    requires environment == map[]
    ensures LoadFields(c, fields, environment) == c
  {
    GetDetermines(LoadFields(c, fields, environment), c);
  }

  /** The module-global settings object `vllm_config`. */
  class Settings {
    var config: VllmConfig

    /** `VLLMConfig()` at import time, given the settings found in the
        environment, already parsed to their fields' types. */
    constructor (environment: map<Field, Value>)
      requires forall f | f in environment :: FitsField(f, environment[f])
      ensures config == Loaded(environment)
    {
      config := Loaded(environment);
    }

    /** `get_vllm_config`. */
    method GetVllmConfig() returns (c: VllmConfig)
      ensures c == config
    {
      c := config;
    }

    /** `update_vllm_config`: the assignments before a raising one stay made. */
    method UpdateVllmConfig(kwargs: seq<(string, Value)>, inherited: set<string>) returns (r: Result<VllmConfig>)
      requires WellTyped(kwargs)
      modifies this
      ensures var (updated, raised) := Update(old(config), kwargs, inherited);
              config == updated &&
              r == if raised.None? then Ok(updated) else Err(NoFieldMessage(raised.value))
    {
      for i := 0 to |kwargs|
        invariant WellTyped(kwargs[..i])
        invariant Update(old(config), kwargs[..i], inherited) == (config, None)
      {
        var (key, value) := kwargs[i];
        assert kwargs[..i + 1][..i] == kwargs[..i];
        WellTypedPrefix(kwargs, i + 1);
        if key in FieldNames {
          config := Assign(config, key, value);
        } else if key in inherited {
          UpdateStopsAtRaise(old(config), kwargs, inherited, i + 1);
          return Err(NoFieldMessage(key));
        }
      }
      assert kwargs[..|kwargs|] == kwargs;
      return Ok(config);
    }
  }
}
