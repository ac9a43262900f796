/** The vLLM settings of ai_server/vLLM/server/vllm_config.py: the settings
    record with its defaults, the command line `VLLMServerArgs.get_server_args`
    builds from it (a fixed part, then the LoRA flags and one `--lora-modules`
    pair per module when LoRA is on), and `update_vllm_config`, which assigns
    keyword arguments to the module-global settings object field by field. */
module LoraVllmConfig {
  import opened Common

  datatype VllmConfig = VllmConfig(
    host: string,
    port: int,
    modelName: string,
    modelPath: string,
    enableLora: bool,
    baseModelPath: Option<string>,
    loraModules: Option<seq<string>>,
    gpuMemoryUtilization: Float,
    maxModelLen: int,
    maxNumBatchedTokens: int,
    maxNumSeqs: int,
    servedModelName: string,
    trustRemoteCode: bool)

  function DefaultConfig(): VllmConfig
  {
    VllmConfig(
      host := "0.0.0.0",
      port := 8001,
      modelName := "HyperCLOVAX-1.5B_LoRA_fp16",
      modelPath := "./models/HyperCLOVAX-1.5B_LoRA_fp16",
      enableLora := true,
      baseModelPath := None,
      loraModules := None,
      gpuMemoryUtilization := Float("0.8"),
      maxModelLen := 1024,
      maxNumBatchedTokens := 2048,
      maxNumSeqs := 32,
      servedModelName := "HyperCLOVAX-1.5B_LoRA_fp16",
      trustRemoteCode := true)
  }

  /** One element of the argument list; `None` is a Python `None` that ends up
      in the list. */
  type Arg = Option<string>

  /** The value after `--model`: the LoRA base model path when LoRA is on
      (possibly `None`), the model path otherwise. */
  function ModelArg(c: VllmConfig): Arg
  {
    if c.enableLora then c.baseModelPath else Some(c.modelPath)
  }

  /** The 17 arguments every command line starts with. */
  function FixedArgs(c: VllmConfig): seq<Arg>
  {
    [Some("--host"), Some(c.host),
     Some("--port"), Some(IntToString(c.port)),
     Some("--model"), ModelArg(c),
     Some("--served-model-name"), Some(c.servedModelName),
     Some("--gpu-memory-utilization"), Some(c.gpuMemoryUtilization.repr),
     Some("--max-model-len"), Some(IntToString(c.maxModelLen)),
     Some("--max-num-batched-tokens"), Some(IntToString(c.maxNumBatchedTokens)),
     Some("--max-num-seqs"), Some(IntToString(c.maxNumSeqs)),
     Some("--trust-remote-code")]
  }

  const LoraFlags: seq<Arg> :=
    [Some("--enable-lora"), Some("--max-loras"), Some("1"), Some("--max-lora-rank"), Some("16")]

  /** One `--lora-modules m` pair per module, in order. */
  function LoraModuleArgs(modules: seq<string>): seq<Arg>
  {
    if modules == [] then []
    else LoraModuleArgs(modules[..|modules| - 1]) + [Some("--lora-modules"), Some(modules[|modules| - 1])]
  }

  /** The modules that produce `--lora-modules` pairs: Python's truth test on
      the optional list lets `None` and `[]` through as nothing. */
  function ListedModules(c: VllmConfig): seq<string>
  {
    if c.loraModules.Some? && c.loraModules.value != [] then c.loraModules.value else []
  }

  /** The command line `get_server_args` returns: the 17 fixed arguments with
      the model argument after `--model`, then with LoRA on the five LoRA
      flags and two arguments per listed module. */
  function ServerArgs(c: VllmConfig): (r: seq<Arg>)
    ensures |r| == if c.enableLora then 22 + 2 * |ListedModules(c)| else 17
    ensures r[..17] == FixedArgs(c) && r[4] == Some("--model") && r[5] == ModelArg(c)
    ensures c.enableLora ==> r[17..22] == LoraFlags
  {
    LoraModuleArgsLayout(ListedModules(c));
    var r := FixedArgs(c) + (if c.enableLora then LoraFlags + LoraModuleArgs(ListedModules(c)) else []);
    assert r[..17] == FixedArgs(c);
    r
  }

  lemma {:induction false} LoraModuleArgsLayout(modules: seq<string>)
    ensures |LoraModuleArgs(modules)| == 2 * |modules|
    ensures forall i | 0 <= i < |modules| ::
              LoraModuleArgs(modules)[2 * i] == Some("--lora-modules") &&
              LoraModuleArgs(modules)[2 * i + 1] == Some(modules[i])
  {
    if modules != [] {
      var init := modules[..|modules| - 1];
      LoraModuleArgsLayout(init);
      assert forall i | 0 <= i < |init| :: init[i] == modules[i];
    }
  }

  /** Without LoRA the command line is exactly the fixed part: 17 arguments,
      the model path after `--model`, ending in `--trust-remote-code`. */
  lemma WithoutLora(c: VllmConfig)
    requires !c.enableLora
    ensures ServerArgs(c) == FixedArgs(c)
    ensures |ServerArgs(c)| == 17
    ensures ServerArgs(c)[5] == Some(c.modelPath)
    ensures ServerArgs(c)[16] == Some("--trust-remote-code")
  {
  }

  /** With LoRA the fixed part is followed by the three LoRA settings and then
      one `--lora-modules m` pair per listed module, in order. */
  lemma {:induction false} WithLora(c: VllmConfig)
    requires c.enableLora
    ensures var args, modules := ServerArgs(c), ListedModules(c);
            |args| == 22 + 2 * |modules| &&
            args[..17] == FixedArgs(c) &&
            args[17..22] == LoraFlags &&
            args[5] == c.baseModelPath &&
            forall i | 0 <= i < |modules| ::
              args[22 + 2 * i] == Some("--lora-modules") && args[23 + 2 * i] == Some(modules[i])
  {
    var args, modules := ServerArgs(c), ListedModules(c);
    LoraModuleArgsLayout(modules);
    assert args == FixedArgs(c) + LoraFlags + LoraModuleArgs(modules);
    forall i | 0 <= i < |modules|
      ensures args[22 + 2 * i] == Some("--lora-modules") && args[23 + 2 * i] == Some(modules[i])
    {
      assert args[22 + 2 * i] == LoraModuleArgs(modules)[2 * i];
      assert args[23 + 2 * i] == LoraModuleArgs(modules)[2 * i + 1];
    }
  }

  /** `--enable-lora` follows the fixed part exactly when LoRA is on. */
  lemma EnableLoraIff(c: VllmConfig)
    ensures (|ServerArgs(c)| > 17 && ServerArgs(c)[17] == Some("--enable-lora")) <==> c.enableLora
  {
    if c.enableLora {
      WithLora(c);
    } else {
      WithoutLora(c);
    }
  }

  /** With LoRA off, the LoRA base path and module list change nothing. */
  lemma LoraSettingsIgnoredWithoutLora(c: VllmConfig, base: Option<string>, modules: Option<seq<string>>)
    requires !c.enableLora
    ensures ServerArgs(c.(baseModelPath := base, loraModules := modules)) == ServerArgs(c)
  {
  }

  /** The `--model` slot is the only one that can hold `None`, and it does under
      the default settings (LoRA on, no base model path). */
  lemma {:induction false} OnlyModelSlotMayBeNone(c: VllmConfig)
    ensures forall i | 0 <= i < |ServerArgs(c)| && i != 5 :: ServerArgs(c)[i].Some?
    ensures ServerArgs(c)[5] == ModelArg(c)
    ensures ModelArg(DefaultConfig()) == None
  {
    var args := ServerArgs(c);
    FixedArgsPresent(c);
    if c.enableLora {
      WithLora(c);
      var modules := ListedModules(c);
      forall i | 0 <= i < |args| && i != 5
        ensures args[i].Some?
      {
        if i < 17 {
          assert args[i] == args[..17][i] == FixedArgs(c)[i];
        } else if i < 22 {
          assert args[i] == args[17..22][i - 17] == LoraFlags[i - 17];
          assert i - 17 == 0 || i - 17 == 1 || i - 17 == 2 || i - 17 == 3 || i - 17 == 4;
        } else {
          var j := (i - 22) / 2;
          assert i == 22 + 2 * j || i == 23 + 2 * j;
        }
      }
    } else {
      WithoutLora(c);
      assert forall i | 0 <= i < |args| && i != 5 :: args[i] == FixedArgs(c)[i];
    }
    assert args[5] == FixedArgs(c)[5];
  }

  lemma FixedArgsPresent(c: VllmConfig)
    ensures forall i | 0 <= i < 17 && i != 5 :: FixedArgs(c)[i].Some?
  {
    var f := FixedArgs(c);
    forall i | 0 <= i < 17 && i != 5
      ensures f[i].Some?
    {
      assert i == 0 || i == 1 || i == 2 || i == 3 || i == 4 || i == 6 || i == 7 || i == 8 ||
             i == 9 || i == 10 || i == 11 || i == 12 || i == 13 || i == 14 || i == 15 || i == 16;
    }
  }

  /** `VLLMServerArgs`: builds the command line for the settings it holds. */
  class VllmServerArgs {
    const config: VllmConfig

    constructor (config: VllmConfig)
      ensures this.config == config
    {
      this.config := config;
    }

    method GetServerArgs() returns (args: seq<Arg>)
      ensures args == ServerArgs(config)
    {
      args := FixedArgs(config);
      if config.enableLora {
        args := args + LoraFlags;
        if config.loraModules.Some? && config.loraModules.value != [] {
          var modules := config.loraModules.value;
          for i := 0 to |modules|
            invariant args == FixedArgs(config) + LoraFlags + LoraModuleArgs(modules[..i])
          {
            assert modules[..i + 1][..i] == modules[..i];
            args := args + [Some("--lora-modules"), Some(modules[i])];
          }
          assert modules[..|modules|] == modules;
        }
      }
    }
  }

  // ---- update_vllm_config ----

  /** The fields of the settings record. */
  datatype Field = Host | Port | ModelName | ModelPath | EnableLora | BaseModelPath
    | LoraModules | GpuMemoryUtilization | MaxModelLen | MaxNumBatchedTokens | MaxNumSeqs
    | ServedModelName | TrustRemoteCode

  /** The Python name of a field. */
  function FieldName(f: Field): string
  {
    match f
    case Host => "host"
    case Port => "port"
    case ModelName => "model_name"
    case ModelPath => "model_path"
    case EnableLora => "enable_lora"
    case BaseModelPath => "base_model_path"
    case LoraModules => "lora_modules"
    case GpuMemoryUtilization => "gpu_memory_utilization"
    case MaxModelLen => "max_model_len"
    case MaxNumBatchedTokens => "max_num_batched_tokens"
    case MaxNumSeqs => "max_num_seqs"
    case ServedModelName => "served_model_name"
    case TrustRemoteCode => "trust_remote_code"
  }

  const FieldNames: set<string> :=
    {"host", "port", "model_name", "model_path", "enable_lora", "base_model_path",
     "lora_modules", "gpu_memory_utilization", "max_model_len",
     "max_num_batched_tokens", "max_num_seqs", "served_model_name",
     "trust_remote_code"}

  /** The field a name denotes, if any. */
  function FieldOf(name: string): (r: Option<Field>)
    ensures r.Some? <==> name in FieldNames
    ensures r.Some? ==> FieldName(r.value) == name
  {
    match name
    case "host" => Some(Host)
    case "port" => Some(Port)
    case "model_name" => Some(ModelName)
    case "model_path" => Some(ModelPath)
    case "enable_lora" => Some(EnableLora)
    case "base_model_path" => Some(BaseModelPath)
    case "lora_modules" => Some(LoraModules)
    case "gpu_memory_utilization" => Some(GpuMemoryUtilization)
    case "max_model_len" => Some(MaxModelLen)
    case "max_num_batched_tokens" => Some(MaxNumBatchedTokens)
    case "max_num_seqs" => Some(MaxNumSeqs)
    case "served_model_name" => Some(ServedModelName)
    case "trust_remote_code" => Some(TrustRemoteCode)
    case _ => None
  }

  /** `v` has the type the field declares. */
  predicate FitsField(f: Field, v: Value)
  {
    match f
    case Host => v.Str?
    case Port => v.Int?
    case ModelName => v.Str?
    case ModelPath => v.Str?
    case EnableLora => v.Bool?
    case BaseModelPath => v.Str? || v.NoneValue?
    case LoraModules => v.StrList? || v.NoneValue?
    case GpuMemoryUtilization => v.FloatValue?
    case MaxModelLen => v.Int?
    case MaxNumBatchedTokens => v.Int?
    case MaxNumSeqs => v.Int?
    case ServedModelName => v.Str?
    case TrustRemoteCode => v.Bool?
  }

  /** `v` has the type the field `name` declares; no other name fits. */
  predicate Fits(name: string, v: Value)
  {
    FieldOf(name).Some? && FitsField(FieldOf(name).value, v)
  }

  /** The value of a field. */
  function Get(c: VllmConfig, f: Field): Value
  {
    match f
    case Host => Str(c.host)
    case Port => Int(c.port)
    case ModelName => Str(c.modelName)
    case ModelPath => Str(c.modelPath)
    case EnableLora => Bool(c.enableLora)
    case BaseModelPath => if c.baseModelPath.Some? then Str(c.baseModelPath.value) else NoneValue
    case LoraModules => if c.loraModules.Some? then StrList(c.loraModules.value) else NoneValue
    case GpuMemoryUtilization => FloatValue(c.gpuMemoryUtilization)
    case MaxModelLen => Int(c.maxModelLen)
    case MaxNumBatchedTokens => Int(c.maxNumBatchedTokens)
    case MaxNumSeqs => Int(c.maxNumSeqs)
    case ServedModelName => Str(c.servedModelName)
    case TrustRemoteCode => Bool(c.trustRemoteCode)
  }

  /** The record with one field replaced. */
  function Set(c: VllmConfig, f: Field, v: Value): VllmConfig
    requires FitsField(f, v)
  {
    match f
    case Host => c.(host := v.s)
    case Port => c.(port := v.i)
    case ModelName => c.(modelName := v.s)
    case ModelPath => c.(modelPath := v.s)
    case EnableLora => c.(enableLora := v.b)
    case BaseModelPath => c.(baseModelPath := if v.Str? then Some(v.s) else None)
    case LoraModules => c.(loraModules := if v.StrList? then Some(v.items) else None)
    case GpuMemoryUtilization => c.(gpuMemoryUtilization := v.f)
    case MaxModelLen => c.(maxModelLen := v.i)
    case MaxNumBatchedTokens => c.(maxNumBatchedTokens := v.i)
    case MaxNumSeqs => c.(maxNumSeqs := v.i)
    case ServedModelName => c.(servedModelName := v.s)
    case TrustRemoteCode => c.(trustRemoteCode := v.b)
  }

  /** `getattr(config, name)` for a field name. */
  function Lookup(c: VllmConfig, name: string): Option<Value>
  {
    match FieldOf(name)
    case Some(f) => Some(Get(c, f))
    case None => None
  }

  /** `setattr(config, name, v)` for a field name. */
  function Assign(c: VllmConfig, name: string, v: Value): VllmConfig
    requires Fits(name, v)
  {
    Set(c, FieldOf(name).value, v)
  }

  lemma SetThenGet(c: VllmConfig, f: Field, v: Value, g: Field)
    requires FitsField(f, v)
    ensures Get(Set(c, f, v), g) == if g == f then v else Get(c, g)
  {
    match f
    case _ =>
  }

  /** Assigning a field makes it read back as the value assigned and changes no
      other field. */
  lemma AssignThenLookup(c: VllmConfig, name: string, v: Value, other: string)
    requires Fits(name, v)
    ensures Lookup(Assign(c, name, v), other) == if other == name then Some(v) else Lookup(c, other)
  {
    var f := FieldOf(name).value;
    if FieldOf(other).Some? {
      SetThenGet(c, f, v, FieldOf(other).value);
    }
  }

  predicate WellTyped(kwargs: seq<(string, Value)>)
  {
    forall i | 0 <= i < |kwargs| :: kwargs[i].0 in FieldNames ==> Fits(kwargs[i].0, kwargs[i].1)
  }

  lemma WellTypedPrefix(kwargs: seq<(string, Value)>, n: nat)
    requires WellTyped(kwargs) && n <= |kwargs|
    ensures WellTyped(kwargs[..n])
  {
    assert forall i | 0 <= i < n :: kwargs[..n][i] == kwargs[i];
  }

  /** The message of the ValueError pydantic raises when a name that is an
      attribute but not a field is assigned. */
  function NoFieldMessage(name: string): string
  {
    "\"VLLMConfig\" object has no field \"" + name + "\""
  }

  /** `update_vllm_config(**kwargs)` as a function: the settings after the loop
      and the name whose assignment raised, if one did. Field names are
      assigned; names in `inherited` (attributes of the settings class that are
      not fields, so `hasattr` accepts them) raise; other names are skipped. */
  function Update(c: VllmConfig, kwargs: seq<(string, Value)>, inherited: set<string>)
    : (r: (VllmConfig, Option<string>))
    requires WellTyped(kwargs)
    // a raise names a keyword that is an attribute but not a field
    ensures r.1.Some? ==> r.1.value in inherited && r.1.value !in FieldNames &&
                          exists i | 0 <= i < |kwargs| :: kwargs[i].0 == r.1.value
    // no raise means no keyword was such an attribute
    ensures r.1.None? ==> forall i | 0 <= i < |kwargs| :: kwargs[i].0 in FieldNames || kwargs[i].0 !in inherited
  {
    if kwargs == [] then (c, None)
    else
      var last := kwargs[|kwargs| - 1];
      WellTypedPrefix(kwargs, |kwargs| - 1);
      assert forall i | 0 <= i < |kwargs| - 1 :: kwargs[..|kwargs| - 1][i] == kwargs[i];
      var (before, raised) := Update(c, kwargs[..|kwargs| - 1], inherited);
      if raised.Some? then (before, raised)
      else if last.0 in FieldNames then (Assign(before, last.0, last.1), None)
      else if last.0 in inherited then (before, Some(last.0))
      else (before, None)
  }

  /** When no assignment raises, every field holds the value last passed for it,
      and a field no keyword names keeps its old value. */
  lemma {:induction false} UpdateLastWins(c: VllmConfig, kwargs: seq<(string, Value)>, inherited: set<string>, name: string)
    requires WellTyped(kwargs) && name in FieldNames
    requires Update(c, kwargs, inherited).1.None?
    ensures Lookup(Update(c, kwargs, inherited).0, name) ==
              if LastAssigned(kwargs, name).Some? then LastAssigned(kwargs, name) else Lookup(c, name)
  {
    if kwargs != [] {
      var init := kwargs[..|kwargs| - 1];
      var last := kwargs[|kwargs| - 1];
      WellTypedPrefix(kwargs, |kwargs| - 1);
      UpdateLastWins(c, init, inherited, name);
      if last.0 in FieldNames {
        AssignThenLookup(Update(c, init, inherited).0, last.0, last.1, name);
      }
    }
  }

  /** Keywords that name neither a field nor another attribute change nothing. */
  lemma {:induction false} UpdateIgnoresUnknown(c: VllmConfig, kwargs: seq<(string, Value)>, inherited: set<string>)
    requires forall i | 0 <= i < |kwargs| :: kwargs[i].0 !in FieldNames && kwargs[i].0 !in inherited
    ensures WellTyped(kwargs) && Update(c, kwargs, inherited) == (c, None)
  {
    if kwargs != [] {
      var init := kwargs[..|kwargs| - 1];
      assert forall i | 0 <= i < |init| :: init[i] == kwargs[i];
      UpdateIgnoresUnknown(c, init, inherited);
    }
  }

  /** Once an assignment has raised, the keywords after it are never looked at. */
  lemma {:induction false} UpdateStopsAtRaise(c: VllmConfig, kwargs: seq<(string, Value)>, inherited: set<string>, n: nat)
    requires WellTyped(kwargs) && n <= |kwargs|
    requires WellTyped(kwargs[..n]) && Update(c, kwargs[..n], inherited).1.Some?
    ensures Update(c, kwargs, inherited) == Update(c, kwargs[..n], inherited)
  {
    if n < |kwargs| {
      var init := kwargs[..|kwargs| - 1];
      assert init[..n] == kwargs[..n];
      WellTypedPrefix(kwargs, |kwargs| - 1);
      UpdateStopsAtRaise(c, init, inherited, n);
    } else {
      assert kwargs[..n] == kwargs;
    }
  }

  /** An assignment raises exactly when some keyword names a non-field
      attribute. */
  lemma {:induction false} UpdateRaisesIff(c: VllmConfig, kwargs: seq<(string, Value)>, inherited: set<string>)
    requires WellTyped(kwargs) && inherited !! FieldNames
    ensures Update(c, kwargs, inherited).1.Some? <==> exists i | 0 <= i < |kwargs| :: kwargs[i].0 in inherited
    ensures Update(c, kwargs, inherited).1.Some? ==> Update(c, kwargs, inherited).1.value in inherited
  {
    if kwargs != [] {
      var init := kwargs[..|kwargs| - 1];
      WellTypedPrefix(kwargs, |kwargs| - 1);
      UpdateRaisesIff(c, init, inherited);
      assert forall i | 0 <= i < |init| :: init[i] == kwargs[i];
    }
  }

  /** Every field, in declaration order. */
  const AllFields: seq<Field> :=
    [Host, Port, ModelName, ModelPath, EnableLora, BaseModelPath,
     LoraModules, GpuMemoryUtilization, MaxModelLen, MaxNumBatchedTokens, MaxNumSeqs,
     ServedModelName, TrustRemoteCode]

  lemma InAllFields(f: Field)
    ensures f in AllFields
  {
    match f
    case _ =>
  }

  /** The record with each field of `fields` that the environment names
      replaced by its value there. */
  function LoadFields(c: VllmConfig, fields: seq<Field>, environment: map<Field, Value>): (r: VllmConfig)
    requires forall f | f in environment :: FitsField(f, environment[f])
    ensures forall g :: Get(r, g) == if g in environment && g in fields then environment[g] else Get(c, g)
    decreases |fields|
  {
    if fields == [] then c
    else
      var f := fields[0];
      var next := if f in environment then Set(c, f, environment[f]) else c;
      assert forall g :: Get(next, g) == if g == f && f in environment then environment[g] else Get(c, g) by {
        forall g ensures Get(next, g) == if g == f && f in environment then environment[g] else Get(c, g) {
          if f in environment {
            SetThenGet(c, f, environment[f], g);
          }
        }
      }
      assert forall g :: g in fields <==> g == f || g in fields[1..];
      LoadFields(next, fields[1..], environment)
  }

  /** A record is determined by the values of its fields. */
  lemma GetDetermines(c: VllmConfig, d: VllmConfig)
    requires forall g :: Get(c, g) == Get(d, g)
    ensures c == d
  {
    assert c.host == d.host by { assert Get(c, Host) == Get(d, Host); }
    assert c.port == d.port by { assert Get(c, Port) == Get(d, Port); }
    assert c.modelName == d.modelName by { assert Get(c, ModelName) == Get(d, ModelName); }
    assert c.modelPath == d.modelPath by { assert Get(c, ModelPath) == Get(d, ModelPath); }
    assert c.enableLora == d.enableLora by { assert Get(c, EnableLora) == Get(d, EnableLora); }
    assert c.baseModelPath == d.baseModelPath by { assert Get(c, BaseModelPath) == Get(d, BaseModelPath); }
    assert c.loraModules == d.loraModules by { assert Get(c, LoraModules) == Get(d, LoraModules); }
    assert c.gpuMemoryUtilization == d.gpuMemoryUtilization by { assert Get(c, GpuMemoryUtilization) == Get(d, GpuMemoryUtilization); }
    assert c.maxModelLen == d.maxModelLen by { assert Get(c, MaxModelLen) == Get(d, MaxModelLen); }
    assert c.maxNumBatchedTokens == d.maxNumBatchedTokens by { assert Get(c, MaxNumBatchedTokens) == Get(d, MaxNumBatchedTokens); }
    assert c.maxNumSeqs == d.maxNumSeqs by { assert Get(c, MaxNumSeqs) == Get(d, MaxNumSeqs); }
    assert c.servedModelName == d.servedModelName by { assert Get(c, ServedModelName) == Get(d, ServedModelName); }
    assert c.trustRemoteCode == d.trustRemoteCode by { assert Get(c, TrustRemoteCode) == Get(d, TrustRemoteCode); }
  }

  /** The settings `VLLMConfig()` builds: a field set in the environment takes
      that value, every other field its default. */
  function Loaded(environment: map<Field, Value>): VllmConfig
    requires forall f | f in environment :: FitsField(f, environment[f])
  {
    LoadFields(DefaultConfig(), AllFields, environment)
  }

  /** Each field set in the environment takes that value and every other
      field keeps its default. */
  lemma LoadedFields(environment: map<Field, Value>)
    requires forall f | f in environment :: FitsField(f, environment[f])
    ensures forall g :: Get(Loaded(environment), g) ==
                        if g in environment then environment[g] else Get(DefaultConfig(), g)
  {
    forall g ensures g in AllFields {
      InAllFields(g);
    }
    LoadEveryField(DefaultConfig(), AllFields, environment);
  }

  /** With no setting in the environment, the settings are the defaults. */
  lemma LoadedDefaults()
    ensures Loaded(map[]) == DefaultConfig()
  {
    LoadNothing(DefaultConfig(), AllFields, map[]);
  }

  /** Loading a list that names every field sets each field found in the
      environment and keeps the rest. */
  lemma LoadEveryField(c: VllmConfig, fields: seq<Field>, environment: map<Field, Value>)
    requires forall f | f in environment :: FitsField(f, environment[f])
    requires forall g :: g in fields
    ensures forall g :: Get(LoadFields(c, fields, environment), g) ==
                        if g in environment then environment[g] else Get(c, g)
  {
  }

  /** Loading from an empty environment changes nothing. */
  lemma LoadNothing(c: VllmConfig, fields: seq<Field>, environment: map<Field, Value>)
    requires environment == map[]
    ensures LoadFields(c, fields, environment) == c
  {
    GetDetermines(LoadFields(c, fields, environment), c);
  }

  /** The module-global settings object `vllm_config`. */
  class Settings {
    var config: VllmConfig

    /** `VLLMConfig()` at import time, given the settings found in the
        environment, already parsed to their fields' types. */
    constructor (environment: map<Field, Value>)
      requires forall f | f in environment :: FitsField(f, environment[f])
      ensures config == Loaded(environment)
    {
      config := Loaded(environment);
    }

    /** `get_vllm_config`. */
    method GetVllmConfig() returns (c: VllmConfig)
      ensures c == config
    {
      c := config;
    }

    /** `update_vllm_config`: the assignments before a raising one stay made. */
    method UpdateVllmConfig(kwargs: seq<(string, Value)>, inherited: set<string>) returns (r: Result<VllmConfig>)
      requires WellTyped(kwargs)
      modifies this
      ensures var (updated, raised) := Update(old(config), kwargs, inherited);
              config == updated &&
              r == if raised.None? then Ok(updated) else Err(NoFieldMessage(raised.value))
    {
      for i := 0 to |kwargs|
        invariant WellTyped(kwargs[..i])
        invariant Update(old(config), kwargs[..i], inherited) == (config, None)
      {
        var (key, value) := kwargs[i];
        assert kwargs[..i + 1][..i] == kwargs[..i];
        WellTypedPrefix(kwargs, i + 1);
        if key in FieldNames {
          config := Assign(config, key, value);
        } else if key in inherited {
          UpdateStopsAtRaise(old(config), kwargs, inherited, i + 1);
          return Err(NoFieldMessage(key));
        }
      }
      assert kwargs[..|kwargs|] == kwargs;
      return Ok(config);
    }
  }
}
