/** The two model configurations and their registration.

    `HFBaselineConfig.get_default` takes the network parent's default,
    sets `epochs` to 50 and declares six options. `HFMANNConfig.get_default`
    takes the memory-network parent's default and merges the whole baseline
    configuration over it. Every baseline option replaces the parent's
    option of the same name, or is appended when the parent has none. The
    exception is `conditions`: the baseline's dictionary is updated with the
    parent's, so the parent's entries win on shared keys. It then overrides
    `lookup_weights`, `ss_margin` and the variants of `kb_sampler` and
    `ss_coefficient`. The parents' own options are not part of this model:
    both parents enter as arbitrary well-formed schemas. */
module ModelConfigs {
  import opened Wrappers
  import opened Registration
  import opened Configurations
  import opened Sequences

  // ---------------------------------------------------------------------
  // HFBaselineConfig
  // ---------------------------------------------------------------------

  const HfModelNameSpec := OptionSpec(
    variants := Some([StrValue("distilbert-base-uncased")]),
    isRequired := true,
    description := Some("HugginFace's model card."))

  const FreezeHfSpec := OptionSpec(
    value := BoolValue(false),
    allowedRange := Some([BoolValue(false), BoolValue(true)]),
    typeHint := Some("bool"),
    description := Some("If enabled, the HF model weights are freezed."))

  const NumClassesSpec := OptionSpec(
    value := IntValue(2),
    typeHint := Some("int"),
    description := Some("Number of classification classes."),
    tags := {"model"},
    isRequired := true)

  const OptimizerClassSpec := OptionSpec(
    value := ClassValue("torch.optim.Adam"),
    isRequired := true,
    tags := {"model"},
    description := Some("Optimizer to use for network weights update"))

  const OptimizerArgsSpec := OptionSpec(
    value := DictValue(map["lr" := FloatLiteral("5e-06"), "weight_decay" := FloatLiteral("1e-05")]),
    typeHint := Some("Dict"),
    tags := {"model"},
    description := Some("Arguments for creating the network optimizer"))

  const DropoutRateSpec := OptionSpec(
    value := FloatLiteral("0.20"),
    typeHint := Some("float"),
    description := Some("Dropout rate for dropout layer"))

  /** The options the baseline declares, in declaration order. */
  const BaselineNames: seq<string> :=
    ["hf_model_name", "freeze_hf", "num_classes", "optimizer_class", "optimizer_args", "dropout_rate"]

  /** The baseline's default configuration over the network parent's: the
      parent's options in their order, then the six baseline options.
      BaselineSucceeds states when it fails. */
  function BaselineSchema(network: Schema): (r: Result<Schema, ConfigError>)
    ensures r.Ok? ==> r.value.names == network.names + BaselineNames
  {
    var s0 :- SetValue(network, "epochs", IntValue(50));
    var s1 :- AddOption(s0, "hf_model_name", HfModelNameSpec);
    var s2 :- AddOption(s1, "freeze_hf", FreezeHfSpec);
    var s3 :- AddOption(s2, "num_classes", NumClassesSpec);
    var s4 :- AddOption(s3, "optimizer_class", OptimizerClassSpec);
    var s5 :- AddOption(s4, "optimizer_args", OptimizerArgsSpec);
    AddOption(s5, "dropout_rate", DropoutRateSpec)
  }

  /** The baseline's default is a well-formed schema. */
  lemma BaselineWellFormed(network: Schema)
    requires WellFormed(network)
    ensures BaselineSchema(network).Ok? ==> WellFormed(BaselineSchema(network).value)
  {
    var s0 := SetValue(network, "epochs", IntValue(50));
    SetValueWellFormed(network, "epochs", IntValue(50));
    if s0.Ok? {
      var s1 := AddOption(s0.value, "hf_model_name", HfModelNameSpec);
      AddOptionWellFormed(s0.value, "hf_model_name", HfModelNameSpec);
      if s1.Ok? {
        var s2 := AddOption(s1.value, "freeze_hf", FreezeHfSpec);
        AddOptionWellFormed(s1.value, "freeze_hf", FreezeHfSpec);
        if s2.Ok? {
          var s3 := AddOption(s2.value, "num_classes", NumClassesSpec);
          AddOptionWellFormed(s2.value, "num_classes", NumClassesSpec);
          if s3.Ok? {
            var s4 := AddOption(s3.value, "optimizer_class", OptimizerClassSpec);
            AddOptionWellFormed(s3.value, "optimizer_class", OptimizerClassSpec);
            if s4.Ok? {
              var s5 := AddOption(s4.value, "optimizer_args", OptimizerArgsSpec);
              AddOptionWellFormed(s4.value, "optimizer_args", OptimizerArgsSpec);
              if s5.Ok? {
                AddOptionWellFormed(s5.value, "dropout_rate", DropoutRateSpec);
              }
            }
          }
        }
      }
    }
  }

  /** The baseline's default exists exactly when the parent declares
      `epochs` and none of the six new options; a missing `epochs` is
      reported first. */
  lemma BaselineSucceeds(network: Schema)
    ensures BaselineSchema(network).Ok? <==>
              "epochs" in network.options && forall n :: n in BaselineNames ==> n !in network.options
    ensures "epochs" !in network.options ==> BaselineSchema(network) == Err(MissingOption("epochs"))
  {
    AbsentBaselineNames(network.options.Keys);
    if BaselineSchema(network).Ok? {
      BaselineNeedsAbsent(network);
    }
    if "epochs" in network.options && forall n :: n in BaselineNames ==> n !in network.options {
      BaselineAbsentSucceeds(network);
    }
  }

  lemma BaselineNeedsAbsent(network: Schema)
    requires BaselineSchema(network).Ok?
    ensures "epochs" in network.options
    ensures && "hf_model_name" !in network.options && "freeze_hf" !in network.options
            && "num_classes" !in network.options && "optimizer_class" !in network.options
            && "optimizer_args" !in network.options && "dropout_rate" !in network.options
  {
    var s0 := SetValue(network, "epochs", IntValue(50)).value;
    var s1 := AddOption(s0, "hf_model_name", HfModelNameSpec).value;
    var s2 := AddOption(s1, "freeze_hf", FreezeHfSpec).value;
    var s3 := AddOption(s2, "num_classes", NumClassesSpec).value;
    var s4 := AddOption(s3, "optimizer_class", OptimizerClassSpec).value;
    var s5 := AddOption(s4, "optimizer_args", OptimizerArgsSpec).value;
    assert network.options.Keys <= s1.options.Keys <= s2.options.Keys <= s3.options.Keys
           <= s4.options.Keys <= s5.options.Keys;
  }

  lemma BaselineAbsentSucceeds(network: Schema)
    requires "epochs" in network.options
    requires && "hf_model_name" !in network.options && "freeze_hf" !in network.options
             && "num_classes" !in network.options && "optimizer_class" !in network.options
             && "optimizer_args" !in network.options && "dropout_rate" !in network.options
    ensures BaselineSchema(network).Ok?
  {
    var s0 := SetValue(network, "epochs", IntValue(50)).value;
    var rest := {"freeze_hf", "num_classes", "optimizer_class", "optimizer_args", "dropout_rate"};
    AddOptionKeepsAbsent(s0, "hf_model_name", HfModelNameSpec, rest);
    var s1 := AddOption(s0, "hf_model_name", HfModelNameSpec).value;
    rest := rest - {"freeze_hf"};
    AddOptionKeepsAbsent(s1, "freeze_hf", FreezeHfSpec, rest);
    var s2 := AddOption(s1, "freeze_hf", FreezeHfSpec).value;
    rest := rest - {"num_classes"};
    AddOptionKeepsAbsent(s2, "num_classes", NumClassesSpec, rest);
    var s3 := AddOption(s2, "num_classes", NumClassesSpec).value;
    rest := rest - {"optimizer_class"};
    AddOptionKeepsAbsent(s3, "optimizer_class", OptimizerClassSpec, rest);
    var s4 := AddOption(s3, "optimizer_class", OptimizerClassSpec).value;
    rest := rest - {"optimizer_args"};
    AddOptionKeepsAbsent(s4, "optimizer_args", OptimizerArgsSpec, rest);
    var s5 := AddOption(s4, "optimizer_args", OptimizerArgsSpec).value;
    assert BaselineSchema(network) == AddOption(s5, "dropout_rate", DropoutRateSpec);
  }

  /** Declaring one option leaves every other undeclared option undeclared. */
  lemma AddOptionKeepsAbsent(s: Schema, name: string, spec: OptionSpec, rest: set<string>)
    requires name !in s.options && name !in rest
    requires forall n :: n in rest ==> n !in s.options
    ensures forall n :: n in rest ==> n !in AddOption(s, name, spec).value.options
  {
  }

  lemma AbsentBaselineNames(o: set<string>)
    ensures (forall n :: n in BaselineNames ==> n !in o) <==>
              && "hf_model_name" !in o && "freeze_hf" !in o && "num_classes" !in o
              && "optimizer_class" !in o && "optimizer_args" !in o && "dropout_rate" !in o
  {
  }

  /** The baseline's default: the parent's options in their order, `epochs`
      set to 50 and everything else of the parent unchanged, then the six
      options in declaration order with their declared specs. */
  lemma BaselineOptions(network: Schema)
    requires BaselineSchema(network).Ok?
    ensures var s := BaselineSchema(network).value;
      && s.names == network.names + BaselineNames
      && "epochs" in network.options && network.options.Keys <= s.options.Keys
      && "hf_model_name" in s.options && "freeze_hf" in s.options && "num_classes" in s.options
      && "optimizer_class" in s.options && "optimizer_args" in s.options && "dropout_rate" in s.options
      && s.options["epochs"] == network.options["epochs"].(value := IntValue(50))
      && (forall n :: n in network.options && n != "epochs" ==> s.options[n] == network.options[n])
      && s.options["hf_model_name"] == HfModelNameSpec
      && s.options["freeze_hf"] == FreezeHfSpec
      && s.options["num_classes"] == NumClassesSpec
      && s.options["optimizer_class"] == OptimizerClassSpec
      && s.options["optimizer_args"] == OptimizerArgsSpec
      && s.options["dropout_rate"] == DropoutRateSpec
  {
    BaselineNeedsAbsent(network);
    var s0 := SetValue(network, "epochs", IntValue(50)).value;
    var s1 := AddOption(s0, "hf_model_name", HfModelNameSpec).value;
    var s2 := AddOption(s1, "freeze_hf", FreezeHfSpec).value;
    var s3 := AddOption(s2, "num_classes", NumClassesSpec).value;
    var s4 := AddOption(s3, "optimizer_class", OptimizerClassSpec).value;
    var s5 := AddOption(s4, "optimizer_args", OptimizerArgsSpec).value;
    assert BaselineSchema(network) == AddOption(s5, "dropout_rate", DropoutRateSpec);
  }

  /** What the baseline promises its users: `hf_model_name` is required,
      has no default and exactly one variant, `distilbert-base-uncased`;
      `freeze_hf` defaults to False, which its allowed range accepts;
      `num_classes` (default 2) and `optimizer_class` are required; and
      `num_classes`, `optimizer_class` and `optimizer_args` carry the tag
      `model`. */
  lemma BaselineFacts(network: Schema)
    requires BaselineSchema(network).Ok?
    ensures var o := BaselineSchema(network).value.options;
      && o["epochs"].value == IntValue(50)
      && o["hf_model_name"].isRequired && o["hf_model_name"].value == NoneValue
      && o["hf_model_name"].variants == Some([StrValue("distilbert-base-uncased")])
      && o["freeze_hf"].value == BoolValue(false)
      && o["freeze_hf"].allowedRange.Some? && o["freeze_hf"].value in o["freeze_hf"].allowedRange.value
      && o["num_classes"].isRequired && o["num_classes"].value == IntValue(2)
      && o["optimizer_class"].isRequired
      && "model" in o["num_classes"].tags && "model" in o["optimizer_class"].tags
      && "model" in o["optimizer_args"].tags
  {
    BaselineOptions(network);
  }

  /** `HFBaselineConfig.get_default`. */
  method HFBaselineDefault(network: Schema) returns (r: Result<Configuration, ConfigError>)
    requires WellFormed(network)
    ensures r.Ok? <==> BaselineSchema(network).Ok?
    ensures r.Ok? ==> fresh(r.value) && r.value.Valid() && r.value.Model() == BaselineSchema(network).value
    ensures r.Err? ==> r.error == BaselineSchema(network).error
  {
    var config := new Configuration(network);
    var step :- config.SetValueOf("epochs", IntValue(50));
    ghost var s0 := config.Model();
    step :- config.Add("hf_model_name", HfModelNameSpec);
    ghost var s1 := config.Model();
    step :- config.Add("freeze_hf", FreezeHfSpec);
    ghost var s2 := config.Model();
    step :- config.Add("num_classes", NumClassesSpec);
    ghost var s3 := config.Model();
    step :- config.Add("optimizer_class", OptimizerClassSpec);
    ghost var s4 := config.Model();
    step :- config.Add("optimizer_args", OptimizerArgsSpec);
    ghost var s5 := config.Model();
    step :- config.Add("dropout_rate", DropoutRateSpec);
    assert BaselineSchema(network) == AddOption(s5, "dropout_rate", DropoutRateSpec);
    return Ok(config);
  }

  // ---------------------------------------------------------------------
  // The merge of the baseline into HFMANNConfig
  // ---------------------------------------------------------------------

  /** One iteration of the merge loop: baseline option `key` with spec
      `spec` goes into `s`. Only `conditions` can fail, and a step declares
      `key` and keeps every other option. */
  function MergeStep(s: Schema, key: string, spec: OptionSpec): (r: Result<Schema, ConfigError>)
    ensures r.Err? ==> key == "conditions" && (r.error == MissingOption(key) || r.error == NotADict(key))
    ensures r.Ok? ==> r.value.options.Keys == s.options.Keys + {key}
    ensures r.Ok? ==> forall n :: n in s.options && n != key ==> r.value.options[n] == s.options[n]
  {
    if key != "conditions" then Ok(PutOption(s, key, spec))
    else if key !in s.options then Err(MissingOption(key))
    else match (spec.value, s.options[key].value)
      case (DictValue(own), DictValue(parent)) => Ok(PutOption(s, key, spec.(value := DictValue(own + parent))))
      case _ => Err(NotADict(key))
  }

  /** The merge loop over `keys`, in order, taking each key's spec from
      `opts`; the first failing step stops it. */
  function Merge(s: Schema, keys: seq<string>, opts: map<string, OptionSpec>): (r: Result<Schema, ConfigError>)
    requires forall k :: k in keys ==> k in opts
    ensures r.Err? ==> "conditions" in keys
    ensures r.Ok? ==> forall n :: n in s.options || n in keys ==> n in r.value.options
    decreases |keys|
  {
    if keys == [] then Ok(s)
    else
      var next :- MergeStep(s, keys[0], opts[keys[0]]);
      Merge(next, keys[1..], opts)
  }

  /** The condition under which the merge goes through: when `conditions`
      is merged, both sides hold a dictionary for it. */
  ghost predicate MergeAllowed(s: Schema, keys: seq<string>, opts: map<string, OptionSpec>) {
    "conditions" in keys ==>
      && "conditions" in s.options && "conditions" in opts
      && opts["conditions"].value.DictValue? && s.options["conditions"].value.DictValue?
  }

  /** The keys of `keys` that `existing` lacks, in order. */
  function NewNames(keys: seq<string>, existing: set<string>): seq<string> {
    if keys == [] then []
    else (if keys[0] in existing then [] else [keys[0]]) + NewNames(keys[1..], existing)
  }

  lemma {:induction false} NewNamesExtend(keys: seq<string>, existing: set<string>, k: string)
    requires k !in keys
    ensures NewNames(keys, existing + {k}) == NewNames(keys, existing)
    decreases |keys|
  {
    if keys != [] {
      assert keys[0] != k;
      NewNamesExtend(keys[1..], existing, k);
    }
  }

  lemma DistinctTail(keys: seq<string>)
    requires keys != [] && Distinct(keys)
    ensures Distinct(keys[1..]) && keys[0] !in keys[1..]
  {
    forall i, j | 0 <= i < j < |keys[1..]| ensures keys[1..][i] != keys[1..][j] {
      assert keys[1..][i] == keys[i + 1] && keys[1..][j] == keys[j + 1];
    }
  }

  /** The merge goes through exactly when it is allowed. */
  lemma {:induction false} MergeSucceeds(s: Schema, keys: seq<string>, opts: map<string, OptionSpec>)
    requires forall k :: k in keys ==> k in opts
    requires Distinct(keys)
    ensures Merge(s, keys, opts).Ok? <==> MergeAllowed(s, keys, opts)
    decreases |keys|
  {
    if keys != [] {
      DistinctTail(keys);
      var step := MergeStep(s, keys[0], opts[keys[0]]);
      if step.Ok? {
        MergeSucceeds(step.value, keys[1..], opts);
        if keys[0] != "conditions" {
          assert "conditions" in keys <==> "conditions" in keys[1..];
          if "conditions" in s.options {
            assert step.value.options["conditions"] == s.options["conditions"];
          }
        }
      }
    }
  }

  /** A merged schema: every merged key except `conditions` holds the
      merged spec; `conditions` holds the merged spec with its dictionary
      updated by the parent's (the parent wins on shared entries); and every
      option of the parent that is not merged is unchanged. */
  lemma {:induction false} MergeOptions(s: Schema, keys: seq<string>, opts: map<string, OptionSpec>)
    requires forall k :: k in keys ==> k in opts
    requires Distinct(keys)
    requires Merge(s, keys, opts).Ok?
    ensures var m := Merge(s, keys, opts).value;
      && (forall n :: n in keys && n != "conditions" ==> n in m.options && m.options[n] == opts[n])
      && (forall n :: n in s.options && n !in keys ==> n in m.options && m.options[n] == s.options[n])
      && ("conditions" in keys ==>
            && "conditions" in s.options && s.options["conditions"].value.DictValue?
            && opts["conditions"].value.DictValue? && "conditions" in m.options
            && m.options["conditions"] == opts["conditions"].(value := DictValue(
                 opts["conditions"].value.entries + s.options["conditions"].value.entries)))
    decreases |keys|
  {
    if keys != [] {
      DistinctTail(keys);
      var k := keys[0];
      var next := MergeStep(s, k, opts[k]).value;
      MergeOptions(next, keys[1..], opts);
      assert forall n :: n in keys <==> n == k || n in keys[1..] by {
        assert keys == [k] + keys[1..];
      }
    }
  }

  /** A merge step stores the key's spec, so the order grows exactly as for
      a store. */
  lemma MergeStepStores(s: Schema, key: string, spec: OptionSpec)
    requires MergeStep(s, key, spec).Ok?
    ensures var next := MergeStep(s, key, spec).value;
      && next.names == (if key in s.options then s.names else s.names + [key])
      && next.options.Keys == s.options.Keys + {key}
  {
  }

  /** The first merge step, as MergeNames uses it: the names it appends
      (`head`) and the new names left for the rest of the merge. */
  lemma MergeNamesStep(s: Schema, keys: seq<string>, opts: map<string, OptionSpec>)
    returns (head: seq<string>)
    requires keys != [] && forall k :: k in keys ==> k in opts
    requires keys[0] !in keys[1..]
    requires Merge(s, keys, opts).Ok?
    ensures MergeStep(s, keys[0], opts[keys[0]]).Ok?
    ensures var next := MergeStep(s, keys[0], opts[keys[0]]).value;
      && Merge(s, keys, opts) == Merge(next, keys[1..], opts)
      && next.names == s.names + head
      && NewNames(keys, s.options.Keys) == head + NewNames(keys[1..], next.options.Keys)
  {
    var k := keys[0];
    var next := MergeStep(s, k, opts[k]).value;
    head := if k in s.options.Keys then [] else [k];
    MergeStepStores(s, k, opts[k]);
    NewNamesExtend(keys[1..], s.options.Keys, k);
  }

  /** A merged schema keeps the parent's options in their order and appends
      the merged keys the parent lacked, in merge order. */
  lemma {:induction false} MergeNames(s: Schema, keys: seq<string>, opts: map<string, OptionSpec>)
    requires forall k :: k in keys ==> k in opts
    requires Distinct(keys)
    requires Merge(s, keys, opts).Ok?
    ensures Merge(s, keys, opts).value.names == s.names + NewNames(keys, s.options.Keys)
    decreases |keys|
  {
    if keys == [] {
      assert s.names + [] == s.names;
    } else {
      DistinctTail(keys);
      var next := MergeStep(s, keys[0], opts[keys[0]]).value;
      var head := MergeNamesStep(s, keys, opts);
      var tail := NewNames(keys[1..], next.options.Keys);
      assert Merge(s, keys, opts).value.names == next.names + tail by {
        MergeNames(next, keys[1..], opts);
      }
      AppendAssociates(s.names, head, tail);
    }
  }

  // ---------------------------------------------------------------------
  // HFMANNConfig
  // ---------------------------------------------------------------------

  const SamplerVariants: seq<Value> := [
    KeyValue(RegistrationKey("sampler", {"uniform"}, "nle/ibm")),
    KeyValue(RegistrationKey("sampler", {"attention"}, "nle/ibm")),
    KeyValue(RegistrationKey("sampler", {"gain"}, "nle/ibm"))]

  const CoefficientVariants: seq<Value> := [FloatLiteral("0.0"), FloatLiteral("1.0")]

  /** The options assigned after the merge. */
  const OverriddenNames: set<string> := {"lookup_weights", "kb_sampler", "ss_margin", "ss_coefficient"}

  /** The assignments after the merge. They go through exactly when the
      four options are declared, and declare nothing new. */
  function Override(merged: Schema): (r: Result<Schema, ConfigError>)
    ensures r.Ok? <==> OverriddenNames <= merged.options.Keys
    ensures r.Err? ==> r.error.MissingOption? && r.error.name in OverriddenNames
    ensures r.Ok? ==> r.value.names == merged.names && r.value.options.Keys == merged.options.Keys
  {
    var s1 :- SetValue(merged, "lookup_weights", ListValue([IntValue(32)]));
    var s2 :- SetVariants(s1, "kb_sampler", SamplerVariants);
    var s3 :- SetValue(s2, "ss_margin", FloatLiteral("0.5"));
    SetVariants(s3, "ss_coefficient", CoefficientVariants)
  }

  /** The merge of a well-formed baseline default into the memory parent's
      default, then the assignments. */
  function MergeAndOverride(memory: Schema, baseline: Schema): Result<Schema, ConfigError>
    requires WellFormed(baseline)
  {
    var merged :- Merge(memory, baseline.names, baseline.options);
    Override(merged)
  }

  /** The memory model's default configuration over the two parents'. It
      declares every option of the memory parent and of the baseline. */
  function HFMANNSchema(memory: Schema, network: Schema): (r: Result<Schema, ConfigError>)
    requires WellFormed(network)
    ensures r.Ok? ==> BaselineSchema(network).Ok?
    ensures r.Ok? ==> forall n :: n in memory.options || n in BaselineSchema(network).value.options ==> n in r.value.options
  {
    var baseline :- BaselineSchema(network);
    BaselineWellFormed(network);
    MergeAndOverride(memory, baseline)
  }

  lemma WellFormedDistinct(s: Schema)
    requires WellFormed(s)
    ensures Distinct(s.names) && forall k :: k in s.names ==> k in s.options
  {
  }

  /** The merged schema declares the parent's options and the merged keys. */
  lemma {:induction false} MergeKeys(s: Schema, keys: seq<string>, opts: map<string, OptionSpec>)
    requires forall k :: k in keys ==> k in opts
    requires Merge(s, keys, opts).Ok?
    ensures forall n :: n in Merge(s, keys, opts).value.options <==> n in s.options || n in keys
    decreases |keys|
  {
    if keys != [] {
      var k := keys[0];
      MergeStepStores(s, k, opts[k]);
      MergeKeys(MergeStep(s, k, opts[k]).value, keys[1..], opts);
      assert forall n :: n in keys <==> n == k || n in keys[1..] by {
        assert keys == [k] + keys[1..];
      }
    }
  }

  /** The assignments go through exactly when all four options are
      declared; they keep the order, set the four options and leave every
      other option unchanged. */
  lemma OverrideSpec(m: Schema)
    ensures Override(m).Ok? <==> forall n :: n in OverriddenNames ==> n in m.options
    ensures Override(m).Ok? ==>
      var o := Override(m).value;
      && o.names == m.names
      && o.options.Keys == m.options.Keys
      && (forall n :: n in m.options && n !in OverriddenNames ==> o.options[n] == m.options[n])
      && o.options["lookup_weights"] == m.options["lookup_weights"].(value := ListValue([IntValue(32)]))
      && o.options["kb_sampler"] == m.options["kb_sampler"].(variants := Some(SamplerVariants))
      && o.options["ss_margin"] == m.options["ss_margin"].(value := FloatLiteral("0.5"))
      && o.options["ss_coefficient"] == m.options["ss_coefficient"].(variants := Some(CoefficientVariants))
  {
    var s1 := SetValue(m, "lookup_weights", ListValue([IntValue(32)]));
    if s1.Ok? {
      var s2 := SetVariants(s1.value, "kb_sampler", SamplerVariants);
      if s2.Ok? {
        var s3 := SetValue(s2.value, "ss_margin", FloatLiteral("0.5"));
        if s3.Ok? {
          assert Override(m) == SetVariants(s3.value, "ss_coefficient", CoefficientVariants);
        }
      }
    }
  }

  /** The merge-and-assign step goes through exactly when the merge is
      allowed and every overridden option is declared by one of the two
      sides. */
  lemma MergeAndOverrideSucceeds(memory: Schema, baseline: Schema)
    requires WellFormed(baseline)
    ensures MergeAndOverride(memory, baseline).Ok? <==>
              MergeAllowed(memory, baseline.names, baseline.options) &&
              forall n :: n in OverriddenNames ==> n in memory.options || n in baseline.options
  {
    WellFormedDistinct(baseline);
    MergeSucceeds(memory, baseline.names, baseline.options);
    var merged := Merge(memory, baseline.names, baseline.options);
    if merged.Ok? {
      MergeKeys(memory, baseline.names, baseline.options);
      OverrideSpec(merged.value);
    }
  }

  /** The memory model's default exists exactly when the baseline's does,
      the merge is allowed, and every overridden option is declared by one
      of the two sides. */
  lemma HFMANNSucceeds(memory: Schema, network: Schema)
    requires WellFormed(memory) && WellFormed(network)
    ensures HFMANNSchema(memory, network).Ok? <==>
              BaselineSchema(network).Ok? &&
              var b := BaselineSchema(network).value;
              MergeAllowed(memory, b.names, b.options) &&
              forall n :: n in OverriddenNames ==> n in memory.options || n in b.options
  {
    BaselineWellFormed(network);
    if BaselineSchema(network).Ok? {
      MergeAndOverrideSucceeds(memory, BaselineSchema(network).value);
    }
  }

  /** The assignments after the merge take precedence: `lookup_weights` is
      `[32]`, the variants of `kb_sampler` are the three sampler keys tagged
      `uniform`, `attention` and `gain` in that order, `ss_margin` is 0.5,
      and `ss_coefficient` has exactly the two variants 0.0 and 1.0. */
  lemma HFMANNOverrides(memory: Schema, network: Schema)
    requires WellFormed(memory) && WellFormed(network)
    requires HFMANNSchema(memory, network).Ok?
    ensures var o := HFMANNSchema(memory, network).value.options;
      && "lookup_weights" in o && o["lookup_weights"].value == ListValue([IntValue(32)])
      && "kb_sampler" in o && o["kb_sampler"].variants == Some([
           KeyValue(RegistrationKey("sampler", {"uniform"}, "nle/ibm")),
           KeyValue(RegistrationKey("sampler", {"attention"}, "nle/ibm")),
           KeyValue(RegistrationKey("sampler", {"gain"}, "nle/ibm"))])
      && "ss_margin" in o && o["ss_margin"].value == FloatLiteral("0.5")
      && "ss_coefficient" in o && o["ss_coefficient"].variants.Some?
      && |o["ss_coefficient"].variants.value| == 2
      && o["ss_coefficient"].variants.value == [FloatLiteral("0.0"), FloatLiteral("1.0")]
  {
    BaselineWellFormed(network);
    var b := BaselineSchema(network).value;
    var merged := Merge(memory, b.names, b.options).value;
    OverrideSpec(merged);
  }

  /** The memory model's default lists the memory parent's options in
      their order, followed by the baseline options it lacked, in the
      baseline's order. */
  lemma HFMANNOrder(memory: Schema, network: Schema)
    requires WellFormed(memory) && WellFormed(network)
    requires HFMANNSchema(memory, network).Ok?
    ensures BaselineSchema(network).Ok?
    ensures HFMANNSchema(memory, network).value.names ==
              memory.names + NewNames(BaselineSchema(network).value.names, memory.options.Keys)
  {
    BaselineWellFormed(network);
    var b := BaselineSchema(network).value;
    WellFormedDistinct(b);
    var merged := Merge(memory, b.names, b.options).value;
    MergeNames(memory, b.names, b.options);
    OverrideSpec(merged);
  }

  /** Apart from the four assignments, the memory model's default is the
      merge: baseline options (from the network parent and the six declared
      ones) replace the memory parent's, `conditions` holds the baseline's
      dictionary updated by the memory parent's, and the memory parent's
      other options are unchanged. */
  lemma HFMANNMerged(memory: Schema, network: Schema)
    requires WellFormed(memory) && WellFormed(network)
    requires HFMANNSchema(memory, network).Ok?
    ensures BaselineSchema(network).Ok?
    ensures var s := HFMANNSchema(memory, network).value;
      var b := BaselineSchema(network).value;
      && (forall n :: n in b.options && n != "conditions" && n !in OverriddenNames ==>
            n in s.options && s.options[n] == b.options[n])
      && (forall n :: n in memory.options && n !in b.options && n !in OverriddenNames ==>
            n in s.options && s.options[n] == memory.options[n])
      && ("conditions" in b.options ==>
            && "conditions" in memory.options && memory.options["conditions"].value.DictValue?
            && b.options["conditions"].value.DictValue? && "conditions" in s.options
            && s.options["conditions"] == b.options["conditions"].(value := DictValue(
                 b.options["conditions"].value.entries + memory.options["conditions"].value.entries)))
  {
    BaselineWellFormed(network);
    var b := BaselineSchema(network).value;
    assert HFMANNSchema(memory, network) == MergeAndOverride(memory, b);
    MergeAndOverrideKeeps(memory, b);
  }

  /** What the merge and the assignments keep of either side. */
  lemma MergeAndOverrideKeeps(memory: Schema, b: Schema)
    requires WellFormed(b)
    requires MergeAndOverride(memory, b).Ok?
    ensures var s := MergeAndOverride(memory, b).value;
      && (forall n :: n in b.options && n != "conditions" && n !in OverriddenNames ==>
            n in s.options && s.options[n] == b.options[n])
      && (forall n :: n in memory.options && n !in b.options && n !in OverriddenNames ==>
            n in s.options && s.options[n] == memory.options[n])
      && ("conditions" in b.options ==>
            && "conditions" in memory.options && memory.options["conditions"].value.DictValue?
            && b.options["conditions"].value.DictValue? && "conditions" in s.options
            && s.options["conditions"] == b.options["conditions"].(value := DictValue(
                 b.options["conditions"].value.entries + memory.options["conditions"].value.entries)))
  {
    WellFormedDistinct(b);
    var merged := Merge(memory, b.names, b.options).value;
    assert MergeAndOverride(memory, b) == Override(merged);
    MergeOptions(memory, b.names, b.options);
    OverrideSpec(merged);
  }

  /** The merge loop: every option of `baseline`, in order, goes into
      `config`; for `conditions` the baseline's dictionary is first updated
      with the one `config` holds. */
  method MergeInto(config: Configuration, baseline: Configuration) returns (r: Result<(), ConfigError>)
    requires config != baseline && config.Valid() && baseline.Valid()
    modifies config
    ensures config.Valid()
    ensures var m := Merge(old(config.Model()), baseline.names, baseline.options);
      && (r.Ok? <==> m.Ok?)
      && (r.Ok? ==> config.Model() == m.value)
      && (r.Err? ==> r.error == m.error)
  {
    ghost var b := baseline.Model();
    ghost var start := config.Model();
    WellFormedDistinct(b);
    var i := 0;
    while i < |baseline.names|
      invariant 0 <= i <= |baseline.names|
      invariant config.Valid()
      invariant Merge(start, b.names, b.options) == Merge(config.Model(), b.names[i..], b.options)
    {
      var key := baseline.names[i];
      assert b.names[i..][0] == key && b.names[i..][1..] == b.names[i + 1..];
      var step := MergeOptionInto(config, key, baseline.options[key]);
      if step.Err? {
        return Err(step.error);
      }
      i := i + 1;
    }
    assert b.names[i..] == [];
    return Ok(());
  }

  /** One iteration of the merge loop on `config`: the baseline's spec for
      `key` is stored, for `conditions` with the dictionary `config` holds
      merged into it. */
  method MergeOptionInto(config: Configuration, key: string, spec: OptionSpec) returns (r: Result<(), ConfigError>)
    requires config.Valid()
    modifies config
    ensures config.Valid()
    ensures var m := MergeStep(old(config.Model()), key, spec);
      && (r.Ok? <==> m.Ok?)
      && (r.Ok? ==> config.Model() == m.value)
      && (r.Err? ==> r.error == m.error && unchanged(config))
  {
    var stored := spec;
    if key == "conditions" {
      if key !in config.options {
        return Err(MissingOption(key));
      }
      match (spec.value, config.options[key].value) {
        case (DictValue(own), DictValue(parent)) =>
          stored := spec.(value := DictValue(own + parent));
        case _ =>
          return Err(NotADict(key));
      }
    }
    config.Put(key, stored);
    return Ok(());
  }

  /** `HFMANNConfig.get_default`. */
  method HFMANNDefault(memory: Schema, network: Schema) returns (r: Result<Configuration, ConfigError>)
    requires WellFormed(memory) && WellFormed(network)
    ensures r.Ok? <==> HFMANNSchema(memory, network).Ok?
    ensures r.Ok? ==> fresh(r.value) && r.value.Valid() && r.value.Model() == HFMANNSchema(memory, network).value
    ensures r.Err? ==> r.error == HFMANNSchema(memory, network).error
  {
    var config := new Configuration(memory);
    var baseline :- HFBaselineDefault(network);
    var step :- MergeInto(config, baseline);
    step :- config.SetValueOf("lookup_weights", ListValue([IntValue(32)]));
    step :- config.SetVariantsOf("kb_sampler", SamplerVariants);
    step :- config.SetValueOf("ss_margin", FloatLiteral("0.5"));
    step :- config.SetVariantsOf("ss_coefficient", CoefficientVariants);
    return Ok(config);
  }

  // ---------------------------------------------------------------------
  // register_models
  // ---------------------------------------------------------------------

  const HFBaselineEntry := Entry(RegistrationKey("model", {"hf", "baseline"}, "nle/ibm"),
                                 "HFBaselineConfig", "HFBaseline", BindVariants)
  const HFMANNEntry := Entry(RegistrationKey("model", {"hf", "memory"}, "nle/ibm"),
                             "HFMANNConfig", "HFMANN", BindVariants)
  const ModelEntries: seq<Entry> := [HFBaselineEntry, HFMANNEntry]

  /** `register_models`: the two registrations, in order; a refused key
      stops it. */
  method RegisterModels(reg: Registry) returns (done: bool)
    requires reg.Valid()
    modifies reg
    ensures reg.Valid()
    ensures reg.entries == RegisterAll(old(reg.entries), ModelEntries).entries
    ensures done <==> RegisterAll(old(reg.entries), ModelEntries).duplicate.None?
  {
    ghost var before := reg.entries;
    assert ModelEntries == [HFBaselineEntry] + [HFMANNEntry];
    done := reg.Add(HFBaselineEntry);
    if !done {
      return;
    }
    assert RegisterAll(before, ModelEntries) == RegisterAll(reg.entries, [HFMANNEntry]);
    ghost var middle := reg.entries;
    done := reg.Add(HFMANNEntry);
    if done {
      assert RegisterAll(middle, [HFMANNEntry]) == RegisterAll(reg.entries, []);
    }
  }

  /** The two model registrations use distinct keys under name `model` in
      namespace `nle/ibm`, tagged `{hf, baseline}` and `{hf, memory}`; so
      registering them goes through whenever neither key is registered
      yet, and appends both. */
  lemma RegisterModelsSucceeds(entries: seq<Entry>)
    requires forall e :: e in ModelEntries ==> e.key !in KeysOf(entries)
    ensures DistinctKeys(ModelEntries)
    ensures forall e :: e in ModelEntries ==> e.key.name == "model" && e.key.namespace == "nle/ibm"
    ensures RegisterAll(entries, ModelEntries) == Outcome(entries + ModelEntries, None)
  {
    assert "baseline" in HFBaselineEntry.key.tags && "baseline" !in HFMANNEntry.key.tags;
    RegisterAllSucceeds(entries, ModelEntries);
  }
}
