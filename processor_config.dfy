/** The processor configurations and `register_processors`.

    Three configurations grow the base configuration's default through
    `add` calls. `register_processors` then makes ten registrations, all
    under name `processor` in namespace `nle/ibm`, in this order:
    - four tokenizers;
    - two model processors;
    - four ordered pipelines. Each pipeline is built from a tokenizer key,
      the external weights-processor key (namespace `nle`) and a model
      processor key, with one stage name per key. */
module ProcessorConfigs {
  import opened Wrappers
  import opened Registration
  import opened Configurations
  import ModelConfigs

  // ---------------------------------------------------------------------
  // Configurations
  // ---------------------------------------------------------------------

  const HfModelCardSpec := OptionSpec(
    value := StrValue("roberta-large"),
    isRequired := true,
    typeHint := Some("str"),
    description := Some("HuggingFace's model card name."))

  const HfTokenizationArgsSpec := OptionSpec(
    value := DictValue(map["truncation" := BoolValue(true),
                           "add_special_tokens" := BoolValue(true),
                           "max_length" := IntValue(200)]),
    typeHint := Some("Dict"),
    description := Some("Additional tokenization arguments."))

  const ThTokenizationArgsSpec := OptionSpec(
    value := DictValue(map["language" := StrValue("en"), "tokenizer" := StrValue("basic_english")]),
    typeHint := Some("Dict"),
    description := Some("Additional tokenization arguments."))

  const NumWorkersSpec := OptionSpec(
    value := IntValue(0),
    typeHint := Some("int"),
    description := Some("Number of processes to use for data loading."))

  const BatchSizeSpec := OptionSpec(
    value := IntValue(8),
    typeHint := Some("int"),
    isRequired := true,
    description := Some("Batch size for aggregating samples."))

  /** `HFTokenizerConfig`'s default over the base default: the base options,
      then `hf_model_name` and `tokenization_args`; it fails exactly when
      the base already declares one of them. */
  function HFTokenizerSchema(base: Schema): (r: Result<Schema, ConfigError>)
    ensures r.Ok? <==> "hf_model_name" !in base.options && "tokenization_args" !in base.options
    ensures r.Ok? ==> r.value.names == base.names + ["hf_model_name", "tokenization_args"]
  {
    var s1 :- AddOption(base, "hf_model_name", HfModelCardSpec);
    AddOption(s1, "tokenization_args", HfTokenizationArgsSpec)
  }

  /** `THTokenizerConfig`'s default over the base default: the base options,
      then `tokenization_args`; it fails exactly when the base already
      declares it. */
  function THTokenizerSchema(base: Schema): (r: Result<Schema, ConfigError>)
    ensures r.Ok? <==> "tokenization_args" !in base.options
    ensures r.Ok? ==> r.value.names == base.names + ["tokenization_args"]
  {
    AddOption(base, "tokenization_args", ThTokenizationArgsSpec)
  }

  /** `ModelProcessorConfig`'s default over the base default: the base
      options, then `num_workers` and `batch_size`; it fails exactly when the
      base already declares one of them. */
  function ModelProcessorSchema(base: Schema): (r: Result<Schema, ConfigError>)
    ensures r.Ok? <==> "num_workers" !in base.options && "batch_size" !in base.options
    ensures r.Ok? ==> r.value.names == base.names + ["num_workers", "batch_size"]
  {
    var s1 :- AddOption(base, "num_workers", NumWorkersSpec);
    AddOption(s1, "batch_size", BatchSizeSpec)
  }

  /** The HF tokenizer's default exists exactly when the base declares
      neither option. It keeps the base options and their order, then has a
      required `hf_model_name` of type `str` whose default is
      `roberta-large`, and `tokenization_args` with truncation on, special
      tokens added and a maximum length of 200. */
  lemma HFTokenizerDefaults(base: Schema)
    ensures HFTokenizerSchema(base).Ok? <==>
              "hf_model_name" !in base.options && "tokenization_args" !in base.options
    ensures HFTokenizerSchema(base).Ok? ==>
      var s := HFTokenizerSchema(base).value;
      && s.names == base.names + ["hf_model_name", "tokenization_args"]
      && (forall n :: n in base.options ==> n in s.options && s.options[n] == base.options[n])
      && s.options["hf_model_name"].isRequired
      && s.options["hf_model_name"].value == StrValue("roberta-large")
      && s.options["hf_model_name"].value != NoneValue
      && s.options["hf_model_name"].typeHint == Some("str")
      && s.options["tokenization_args"].value.DictValue?
      && var args := s.options["tokenization_args"].value.entries;
         args.Keys == {"truncation", "add_special_tokens", "max_length"}
         && args["truncation"] == BoolValue(true)
         && args["add_special_tokens"] == BoolValue(true)
         && args["max_length"] == IntValue(200)
  {
  }

  /** The torchtext tokenizer's default exists exactly when the base does
      not declare `tokenization_args`; it then adds it with language `en`
      and tokenizer `basic_english`. */
  lemma THTokenizerDefaults(base: Schema)
    ensures THTokenizerSchema(base).Ok? <==> "tokenization_args" !in base.options
    ensures THTokenizerSchema(base).Ok? ==>
      var s := THTokenizerSchema(base).value;
      && s.names == base.names + ["tokenization_args"]
      && (forall n :: n in base.options ==> n in s.options && s.options[n] == base.options[n])
      && s.options["tokenization_args"].value.DictValue?
      && var args := s.options["tokenization_args"].value.entries;
         args.Keys == {"language", "tokenizer"}
         && args["language"] == StrValue("en")
         && args["tokenizer"] == StrValue("basic_english")
  {
  }

  /** The model processor's default exists exactly when the base declares
      neither option. `batch_size` is then required with default 8,
      `num_workers` defaults to 0, and both are non-negative integers. */
  lemma ModelProcessorDefaults(base: Schema)
    ensures ModelProcessorSchema(base).Ok? <==>
              "num_workers" !in base.options && "batch_size" !in base.options
    ensures ModelProcessorSchema(base).Ok? ==>
      var s := ModelProcessorSchema(base).value;
      && s.names == base.names + ["num_workers", "batch_size"]
      && (forall n :: n in base.options ==> n in s.options && s.options[n] == base.options[n])
      && s.options["batch_size"].isRequired
      && s.options["batch_size"].value == IntValue(8)
      && s.options["num_workers"].value == IntValue(0)
      && !s.options["num_workers"].isRequired
      && s.options["batch_size"].typeHint == Some("int") && s.options["num_workers"].typeHint == Some("int")
      && s.options["batch_size"].value.i >= 0 && s.options["num_workers"].value.i >= 0
  {
  }

  method HFTokenizerDefault(base: Schema) returns (r: Result<Configuration, ConfigError>)
    requires WellFormed(base)
    ensures r.Ok? <==> HFTokenizerSchema(base).Ok?
    ensures r.Ok? ==> fresh(r.value) && r.value.Valid() && r.value.Model() == HFTokenizerSchema(base).value
    ensures r.Err? ==> r.error == HFTokenizerSchema(base).error
  {
    var config := new Configuration(base);
    var step :- config.Add("hf_model_name", HfModelCardSpec);
    step :- config.Add("tokenization_args", HfTokenizationArgsSpec);
    return Ok(config);
  }

  method THTokenizerDefault(base: Schema) returns (r: Result<Configuration, ConfigError>)
    requires WellFormed(base)
    ensures r.Ok? <==> THTokenizerSchema(base).Ok?
    ensures r.Ok? ==> fresh(r.value) && r.value.Valid() && r.value.Model() == THTokenizerSchema(base).value
    ensures r.Err? ==> r.error == THTokenizerSchema(base).error
  {
    var config := new Configuration(base);
    var step :- config.Add("tokenization_args", ThTokenizationArgsSpec);
    return Ok(config);
  }

  method ModelProcessorDefault(base: Schema) returns (r: Result<Configuration, ConfigError>)
    requires WellFormed(base)
    ensures r.Ok? <==> ModelProcessorSchema(base).Ok?
    ensures r.Ok? ==> fresh(r.value) && r.value.Valid() && r.value.Model() == ModelProcessorSchema(base).value
    ensures r.Err? ==> r.error == ModelProcessorSchema(base).error
  {
    var config := new Configuration(base);
    var step :- config.Add("num_workers", NumWorkersSpec);
    step :- config.Add("batch_size", BatchSizeSpec);
    return Ok(config);
  }

  // ---------------------------------------------------------------------
  // register_processors
  // ---------------------------------------------------------------------

  /** A key under name `processor` in namespace `nle/ibm`. */
  function ProcessorKey(tags: set<string>): RegistrationKey {
    RegistrationKey("processor", tags, "nle/ibm")
  }

  /** The weights processor, registered outside this repository. */
  const WeightsKey := RegistrationKey("processor", {"weights"}, "nle")

  const StageNames: seq<string> := ["tokenizer", "weights_processor", "model_processor"]
  const KbStageNames: seq<string> := ["kb_tokenizer", "weights_processor", "model_processor"]

  const HFTokenizerEntry :=
    Entry(ProcessorKey({"tokenizer", "hf"}), "HFTokenizerConfig", "HFTokenizer", Bind)
  const HFKBTokenizerEntry :=
    Entry(ProcessorKey({"tokenizer", "kb", "hf"}), "HFTokenizerConfig", "HFKBTokenizer", Bind)
  const THTokenizerEntry :=
    Entry(ProcessorKey({"tokenizer"}), "THTokenizerConfig", "THTokenizer", Bind)
  const THKBTokenizerEntry :=
    Entry(ProcessorKey({"tokenizer", "kb"}), "THTokenizerConfig", "THKBTokenizer", Bind)
  const ModelProcessorEntry :=
    Entry(ProcessorKey({"model"}), "ModelProcessorConfig", "ModelProcessor", BindVariants)
  const ModelMemoryProcessorEntry :=
    Entry(ProcessorKey({"model", "memory"}), "ModelProcessorConfig", "ModelMemoryProcessor", BindVariants)
  const HFPipelineEntry :=
    Entry(ProcessorKey({"hf"}), "OrderedPipelineConfig", "ProcessorPipeline",
          BindPipelineVariants(PipelineArgs(
            [ProcessorKey({"tokenizer", "hf"}), WeightsKey, ProcessorKey({"model"})], StageNames)))
  const HFKBPipelineEntry :=
    Entry(ProcessorKey({"kb", "hf"}), "OrderedPipelineConfig", "ProcessorPipeline",
          BindPipelineVariants(PipelineArgs(
            [ProcessorKey({"tokenizer", "kb", "hf"}), WeightsKey, ProcessorKey({"model", "memory"})], KbStageNames)))
  const THPipelineEntry :=
    Entry(ProcessorKey({}), "OrderedPipelineConfig", "ProcessorPipeline",
          BindPipelineVariants(PipelineArgs(
            [ProcessorKey({"tokenizer"}), WeightsKey, ProcessorKey({"model"})], StageNames)))
  const THKBPipelineEntry :=
    Entry(ProcessorKey({"kb"}), "OrderedPipelineConfig", "ProcessorPipeline",
          BindPipelineVariants(PipelineArgs(
            [ProcessorKey({"tokenizer", "kb"}), WeightsKey, ProcessorKey({"model", "memory"})], KbStageNames)))

  const TokenizerEntries: seq<Entry> := [HFTokenizerEntry, HFKBTokenizerEntry, THTokenizerEntry, THKBTokenizerEntry]
  const ModelProcessorEntries: seq<Entry> := [ModelProcessorEntry, ModelMemoryProcessorEntry]
  const PipelineEntries: seq<Entry> := [HFPipelineEntry, HFKBPipelineEntry, THPipelineEntry, THKBPipelineEntry]

  /** The ten registrations, in the order `register_processors` makes
      them. */
  const ProcessorEntries: seq<Entry> := TokenizerEntries + ModelProcessorEntries + PipelineEntries

  /** One section of `register_processors`: the four tokenizers, in order; a refused
      key stops it. */
  method RegisterTokenizers(reg: Registry) returns (done: bool)
    requires reg.Valid()
    modifies reg
    ensures reg.Valid()
    ensures reg.entries == RegisterAll(old(reg.entries), TokenizerEntries).entries
    ensures done <==> RegisterAll(old(reg.entries), TokenizerEntries).duplicate.None?
  {
    RegisterAllFirst(reg.entries, TokenizerEntries[0..]);
    assert TokenizerEntries[0..][0] == HFTokenizerEntry && TokenizerEntries[0..][1..] == TokenizerEntries[1..];
    done := reg.Add(HFTokenizerEntry);
    if !done {
      return;
    }
    RegisterAllFirst(reg.entries, TokenizerEntries[1..]);
    assert TokenizerEntries[1..][0] == HFKBTokenizerEntry && TokenizerEntries[1..][1..] == TokenizerEntries[2..];
    done := reg.Add(HFKBTokenizerEntry);
    if !done {
      return;
    }
    RegisterAllFirst(reg.entries, TokenizerEntries[2..]);
    assert TokenizerEntries[2..][0] == THTokenizerEntry && TokenizerEntries[2..][1..] == TokenizerEntries[3..];
    done := reg.Add(THTokenizerEntry);
    if !done {
      return;
    }
    RegisterAllFirst(reg.entries, TokenizerEntries[3..]);
    assert TokenizerEntries[3..][0] == THKBTokenizerEntry && TokenizerEntries[3..][1..] == TokenizerEntries[4..];
    done := reg.Add(THKBTokenizerEntry);
    if !done {
      return;
    }
    assert TokenizerEntries[4..] == [];
  }

  /** One section of `register_processors`: the two model processors, in order; a refused
      key stops it. */
  method RegisterModelProcessors(reg: Registry) returns (done: bool)
    requires reg.Valid()
    modifies reg
    ensures reg.Valid()
    ensures reg.entries == RegisterAll(old(reg.entries), ModelProcessorEntries).entries
    ensures done <==> RegisterAll(old(reg.entries), ModelProcessorEntries).duplicate.None?
  {
    RegisterAllFirst(reg.entries, ModelProcessorEntries[0..]);
    assert ModelProcessorEntries[0..][0] == ModelProcessorEntry && ModelProcessorEntries[0..][1..] == ModelProcessorEntries[1..];
    done := reg.Add(ModelProcessorEntry);
    if !done {
      return;
    }
    RegisterAllFirst(reg.entries, ModelProcessorEntries[1..]);
    assert ModelProcessorEntries[1..][0] == ModelMemoryProcessorEntry && ModelProcessorEntries[1..][1..] == ModelProcessorEntries[2..];
    done := reg.Add(ModelMemoryProcessorEntry);
    if !done {
      return;
    }
    assert ModelProcessorEntries[2..] == [];
  }

  /** One section of `register_processors`: the four pipelines, in order; a refused
      key stops it. */
  method RegisterPipelines(reg: Registry) returns (done: bool)
    requires reg.Valid()
    modifies reg
    ensures reg.Valid()
    ensures reg.entries == RegisterAll(old(reg.entries), PipelineEntries).entries
    ensures done <==> RegisterAll(old(reg.entries), PipelineEntries).duplicate.None?
  {
    RegisterAllFirst(reg.entries, PipelineEntries[0..]);
    assert PipelineEntries[0..][0] == HFPipelineEntry && PipelineEntries[0..][1..] == PipelineEntries[1..];
    done := reg.Add(HFPipelineEntry);
    if !done {
      return;
    }
    RegisterAllFirst(reg.entries, PipelineEntries[1..]);
    assert PipelineEntries[1..][0] == HFKBPipelineEntry && PipelineEntries[1..][1..] == PipelineEntries[2..];
    done := reg.Add(HFKBPipelineEntry);
    if !done {
      return;
    }
    RegisterAllFirst(reg.entries, PipelineEntries[2..]);
    assert PipelineEntries[2..][0] == THPipelineEntry && PipelineEntries[2..][1..] == PipelineEntries[3..];
    done := reg.Add(THPipelineEntry);
    if !done {
      return;
    }
    RegisterAllFirst(reg.entries, PipelineEntries[3..]);
    assert PipelineEntries[3..][0] == THKBPipelineEntry && PipelineEntries[3..][1..] == PipelineEntries[4..];
    done := reg.Add(THKBPipelineEntry);
    if !done {
      return;
    }
    assert PipelineEntries[4..] == [];
  }

  /** `register_processors`: the tokenizers, the model processors, then
      the pipelines; a refused key stops it. */
  method RegisterProcessors(reg: Registry) returns (done: bool)
    requires reg.Valid()
    modifies reg
    ensures reg.Valid()
    ensures reg.entries == RegisterAll(old(reg.entries), ProcessorEntries).entries
    ensures done <==> RegisterAll(old(reg.entries), ProcessorEntries).duplicate.None?
  {
    RegisterAllAppend(reg.entries, TokenizerEntries + ModelProcessorEntries, PipelineEntries);
    RegisterAllAppend(reg.entries, TokenizerEntries, ModelProcessorEntries);
    done := RegisterTokenizers(reg);
    if !done {
      return;
    }
    done := RegisterModelProcessors(reg);
    if !done {
      return;
    }
    done := RegisterPipelines(reg);
  }

  /** The tag sets of the ten registrations, in order. */
  const TagSets: seq<set<string>> := [
    {"tokenizer", "hf"}, {"tokenizer", "kb", "hf"}, {"tokenizer"}, {"tokenizer", "kb"},
    {"model"}, {"model", "memory"}, {"hf"}, {"kb", "hf"}, {}, {"kb"}]

  /** Every registration is under name `processor` in namespace `nle/ibm`,
      with the tag sets above, in order. */
  lemma ProcessorTagSets()
    ensures |ProcessorEntries| == 10
    ensures forall i :: 0 <= i < 10 ==> ProcessorEntries[i].key == ProcessorKey(TagSets[i])
  {
  }

  /** The five tags that tell the registrations apart. */
  function Signature(tags: set<string>): (bool, bool, bool, bool, bool) {
    ("tokenizer" in tags, "kb" in tags, "hf" in tags, "model" in tags, "memory" in tags)
  }

  /** No two of the ten registrations collide. */
  lemma ProcessorKeysDistinct()
    ensures DistinctKeys(ProcessorEntries)
  {
    var sigs := seq(10, i requires 0 <= i < 10 => Signature(ProcessorEntries[i].key.tags));
    assert sigs == [
      (true, false, true, false, false), (true, true, true, false, false),
      (true, false, false, false, false), (true, true, false, false, false),
      (false, false, false, true, false), (false, false, false, true, true),
      (false, false, true, false, false), (false, true, true, false, false),
      (false, false, false, false, false), (false, true, false, false, false)];
    forall i, j | 0 <= i < j < 10 ensures ProcessorEntries[i].key != ProcessorEntries[j].key {
      assert sigs[i] != sigs[j];
    }
  }

  /** A pipeline registration's arguments. */
  predicate IsPipeline(e: Entry) {
    e.binding.BindPipelineVariants?
  }

  /** The last four registrations are the pipelines. Each passes three keys
      and three stage names: a tokenizer stage, `weights_processor` and
      `model_processor`. The tokenizer stage is named `kb_tokenizer` exactly
      when its key carries the `kb` tag, and then the model stage is the
      memory processor. The middle key is the external weights processor. */
  lemma PipelineShape()
    ensures forall i :: 0 <= i < |ProcessorEntries| ==> (IsPipeline(ProcessorEntries[i]) <==> 6 <= i)
    ensures forall e :: e in ProcessorEntries && IsPipeline(e) ==>
      var args := e.binding.args;
      && |args.keys| == 3 && |args.names| == 3
      && args.names[1..] == ["weights_processor", "model_processor"]
      && args.names[0] in {"tokenizer", "kb_tokenizer"}
      && (args.names[0] == "kb_tokenizer" <==> "kb" in args.keys[0].tags)
      && ("kb" in args.keys[0].tags <==> "memory" in args.keys[2].tags)
      && "tokenizer" in args.keys[0].tags && "model" in args.keys[2].tags
      && args.keys[1] == WeightsKey
  {
  }

  /** The registration at position `i`, made before position `j`, has the
      key `key`. */
  lemma RegisteredBefore(key: RegistrationKey, i: int, j: int)
    requires 0 <= i < j <= |ProcessorEntries| && ProcessorEntries[i].key == key
    ensures key in KeysOf(ProcessorEntries[..j])
  {
    assert KeysOf(ProcessorEntries[..j])[i] == ProcessorEntries[..j][i].key;
  }

  /** The stage keys of the pipeline at position `j` in namespace `nle/ibm`
      are registered before it. */
  lemma PipelineStagesRegisteredEarlier(j: int)
    requires 6 <= j < 10
    ensures forall k :: 0 <= k < |ProcessorEntries[j].binding.args.keys| &&
                        ProcessorEntries[j].binding.args.keys[k].namespace == "nle/ibm" ==>
                        ProcessorEntries[j].binding.args.keys[k] in KeysOf(ProcessorEntries[..j])
  {
    var keys := ProcessorEntries[j].binding.args.keys;
    var kb := j == 7 || j == 9;
    var tokenizerAt := if j == 6 then 0 else if j == 7 then 1 else if j == 8 then 2 else 3;
    var modelAt := if kb then 5 else 4;
    assert |keys| == 3 && keys[1] == WeightsKey;
    assert keys[0] == ProcessorEntries[tokenizerAt].key;
    assert keys[2] == ProcessorEntries[modelAt].key;
    RegisteredBefore(keys[0], tokenizerAt, j);
    RegisteredBefore(keys[2], modelAt, j);
  }

  /** Every pipeline key in namespace `nle/ibm` is the key of a registration
      made earlier in `register_processors`; the weights key is not
      registered here. */
  lemma PipelineKeysRegisteredEarlier()
    ensures forall j, k ::
              (0 <= j < |ProcessorEntries| && IsPipeline(ProcessorEntries[j]) &&
               0 <= k < |ProcessorEntries[j].binding.args.keys| &&
               ProcessorEntries[j].binding.args.keys[k].namespace == "nle/ibm") ==>
              ProcessorEntries[j].binding.args.keys[k] in KeysOf(ProcessorEntries[..j])
    ensures WeightsKey !in KeysOf(ProcessorEntries)
  {
    forall j | 0 <= j < |ProcessorEntries| && IsPipeline(ProcessorEntries[j])
      ensures forall k :: 0 <= k < |ProcessorEntries[j].binding.args.keys| &&
                          ProcessorEntries[j].binding.args.keys[k].namespace == "nle/ibm" ==>
                          ProcessorEntries[j].binding.args.keys[k] in KeysOf(ProcessorEntries[..j])
    {
      assert 6 <= j;
      PipelineStagesRegisteredEarlier(j);
    }
    var keys := KeysOf(ProcessorEntries);
    assert forall i :: 0 <= i < |keys| ==> keys[i].namespace == "nle/ibm";
  }

  /** Registering the ten entries goes through whenever none of their keys
      is registered yet, and appends all ten in order. */
  lemma RegisterProcessorsSucceeds(entries: seq<Entry>)
    requires forall e :: e in ProcessorEntries ==> e.key !in KeysOf(entries)
    ensures RegisterAll(entries, ProcessorEntries) == Outcome(entries + ProcessorEntries, None)
  {
    ProcessorKeysDistinct();
    RegisterAllSucceeds(entries, ProcessorEntries);
  }

  /** The model and processor registrations never collide: their names
      differ. */
  lemma ModelAndProcessorKeysDisjoint()
    ensures forall e :: e in ProcessorEntries ==> e.key !in KeysOf(ModelConfigs.ModelEntries)
    ensures forall e :: e in ModelConfigs.ModelEntries ==> e.key !in KeysOf(ProcessorEntries)
  {
    ProcessorTagSets();
    var modelKeys := KeysOf(ModelConfigs.ModelEntries);
    assert forall i :: 0 <= i < |modelKeys| ==> modelKeys[i].name == "model";
    var processorKeys := KeysOf(ProcessorEntries);
    assert forall i :: 0 <= i < |processorKeys| ==> processorKeys[i].name == "processor";
  }

  /** A fresh registry takes all twelve registrations when the models are
      registered first. */
  lemma ModelsThenProcessors()
    ensures var models := RegisterAll([], ModelConfigs.ModelEntries);
      && models == Outcome(ModelConfigs.ModelEntries, None)
      && RegisterAll(models.entries, ProcessorEntries) ==
           Outcome(ModelConfigs.ModelEntries + ProcessorEntries, None)
  {
    ModelConfigs.RegisterModelsSucceeds([]);
    assert [] + ModelConfigs.ModelEntries == ModelConfigs.ModelEntries;
    ModelAndProcessorKeysDisjoint();
    RegisterProcessorsSucceeds(ModelConfigs.ModelEntries);
  }

  /** A fresh registry takes all twelve registrations when the processors
      are registered first. */
  lemma ProcessorsThenModels()
    ensures var processors := RegisterAll([], ProcessorEntries);
      && processors == Outcome(ProcessorEntries, None)
      && RegisterAll(processors.entries, ModelConfigs.ModelEntries) ==
           Outcome(ProcessorEntries + ModelConfigs.ModelEntries, None)
  {
    RegisterProcessorsSucceeds([]);
    assert [] + ProcessorEntries == ProcessorEntries;
    ModelAndProcessorKeysDisjoint();
    ModelConfigs.RegisterModelsSucceeds(ProcessorEntries);
  }
}
