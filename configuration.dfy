/** A component configuration as the configuration classes build it: an
    ordered table of named options, each with its default value, type hint,
    tags, required flag, allowed range, variants and description.

    The operations are the ones `get_default` uses: `add` declares a new
    option, `config[name] = spec` stores a spec (replacing it in place or
    appending it), `config.name = v` overwrites a declared option's value,
    and `config.get(name).variants = vs` overwrites its variants. */
module Configurations {
  import opened Wrappers
  import opened Registration
  import opened Sequences

  /** The option values the configurations use. Floating-point constants
      are carried by their literal text and never computed with; a class
      reference is carried by its qualified name. */
  datatype Value =
    | NoneValue
    | BoolValue(b: bool)
    | IntValue(i: int)
    | StrValue(s: string)
    | FloatLiteral(literal: string)
    | ListValue(items: seq<Value>)
    | DictValue(entries: map<string, Value>)
    | KeyValue(key: RegistrationKey)
    | ClassValue(qualifiedName: string)

  /** One option. The defaults are those of `add`'s keyword arguments; an
      allowed range is the list of values the range predicate accepts. */
  datatype OptionSpec = OptionSpec(
    value: Value := NoneValue,
    typeHint: Option<string> := None,
    description: Option<string> := None,
    tags: set<string> := {},
    isRequired: bool := false,
    allowedRange: Option<seq<Value>> := None,
    variants: Option<seq<Value>> := None)

  datatype ConfigError =
    | DuplicateOption(name: string)
    | MissingOption(name: string)
    | NotADict(name: string)

  /** The option names in declaration order, and each name's spec. */
  datatype Schema = Schema(names: seq<string>, options: map<string, OptionSpec>)

  /** Every option is declared once, and exactly the declared names have a
      spec. */
  ghost predicate WellFormed(s: Schema) {
    && Distinct(s.names)
    && (forall n :: n in s.options <==> n in s.names)
  }

  /** `add`: declares a new option at the end; a name already declared is
      refused. Every option declared before keeps its spec. */
  function AddOption(s: Schema, name: string, spec: OptionSpec): (r: Result<Schema, ConfigError>)
    ensures r.Ok? <==> name !in s.options
    ensures r.Err? ==> r.error == DuplicateOption(name)
    ensures r.Ok? ==> r.value.names == s.names + [name] && name in r.value.options && r.value.options[name] == spec
    ensures r.Ok? ==> forall n :: n in s.options ==> n in r.value.options && r.value.options[n] == s.options[n]
  {
    if name in s.options then Err(DuplicateOption(name))
    else Ok(Schema(s.names + [name], s.options[name := spec]))
  }

  /** `config[name] = spec`: replaces the spec of a declared option where it
      stands, or declares the option at the end. Only `name`'s spec changes. */
  function PutOption(s: Schema, name: string, spec: OptionSpec): (r: Schema)
    ensures name in r.options && r.options[name] == spec
    ensures r.options.Keys == s.options.Keys + {name}
    ensures forall n :: n in s.options && n != name ==> r.options[n] == s.options[n]
  {
    if name in s.options then Schema(s.names, s.options[name := spec])
    else Schema(s.names + [name], s.options[name := spec])
  }

  /** `config.name = v`: overwrites the value of a declared option; only
      that value changes. An undeclared name is refused. */
  function SetValue(s: Schema, name: string, v: Value): (r: Result<Schema, ConfigError>)
    ensures r.Ok? <==> name in s.options
    ensures r.Err? ==> r.error == MissingOption(name)
    ensures r.Ok? ==> r.value.names == s.names && r.value.options.Keys == s.options.Keys
    ensures r.Ok? ==> r.value.options[name].value == v &&
                      r.value.options[name].(value := s.options[name].value) == s.options[name]
    ensures r.Ok? ==> forall n :: n in s.options && n != name ==> r.value.options[n] == s.options[n]
  {
    if name !in s.options then Err(MissingOption(name))
    else Ok(Schema(s.names, s.options[name := s.options[name].(value := v)]))
  }

  /** `config.get(name).variants = vs`: overwrites the variants of a
      declared option; only those variants change. An undeclared name is
      refused. */
  function SetVariants(s: Schema, name: string, vs: seq<Value>): (r: Result<Schema, ConfigError>)
    ensures r.Ok? <==> name in s.options
    ensures r.Err? ==> r.error == MissingOption(name)
    ensures r.Ok? ==> r.value.names == s.names && r.value.options.Keys == s.options.Keys
    ensures r.Ok? ==> r.value.options[name].variants == Some(vs) &&
                      r.value.options[name].(variants := s.options[name].variants) == s.options[name]
    ensures r.Ok? ==> forall n :: n in s.options && n != name ==> r.value.options[n] == s.options[n]
  {
    if name !in s.options then Err(MissingOption(name))
    else Ok(Schema(s.names, s.options[name := s.options[name].(variants := Some(vs))]))
  }

  /** Each operation keeps a schema well formed: `add` and a store of a new
      name extend the order by that name, the others keep it. */
  lemma AddOptionWellFormed(s: Schema, name: string, spec: OptionSpec)
    requires WellFormed(s)
    ensures AddOption(s, name, spec).Ok? ==> WellFormed(AddOption(s, name, spec).value)
  {
    if name !in s.options {
      DistinctAppend(s.names, name);
    }
  }

  lemma PutOptionWellFormed(s: Schema, name: string, spec: OptionSpec)
    requires WellFormed(s)
    ensures WellFormed(PutOption(s, name, spec))
  {
    if name !in s.options {
      DistinctAppend(s.names, name);
    }
  }

  lemma SetValueWellFormed(s: Schema, name: string, v: Value)
    requires WellFormed(s)
    ensures SetValue(s, name, v).Ok? ==> WellFormed(SetValue(s, name, v).value)
  {
  }

  lemma SetVariantsWellFormed(s: Schema, name: string, vs: seq<Value>)
    requires WellFormed(s)
    ensures SetVariants(s, name, vs).Ok? ==> WellFormed(SetVariants(s, name, vs).value)
  {
  }

  /** A configuration object that `get_default` grows step by step. */
  class Configuration {
    var names: seq<string>
    var options: map<string, OptionSpec>

    function Model(): Schema
      reads this
    {
      Schema(names, options)
    }

    ghost predicate Valid()
      reads this
    {
      WellFormed(Model())
    }

    /** The configuration a parent's `get_default` returns. */
    constructor (s: Schema)
      requires WellFormed(s)
      ensures Valid() && Model() == s
    {
      names := s.names;
      options := s.options;
    }

    method Add(name: string, spec: OptionSpec) returns (r: Result<(), ConfigError>)
      requires Valid()
      modifies this
      ensures Valid()
      ensures r.Ok? <==> AddOption(old(Model()), name, spec).Ok?
      ensures r.Ok? ==> Model() == AddOption(old(Model()), name, spec).value
      ensures r.Err? ==> r.error == AddOption(old(Model()), name, spec).error && Model() == old(Model())
    {
      if name in options {
        return Err(DuplicateOption(name));
      }
      AddOptionWellFormed(Model(), name, spec);
      names := names + [name];
      options := options[name := spec];
      return Ok(());
    }

    method Put(name: string, spec: OptionSpec)
      requires Valid()
      modifies this
      ensures Valid()
      ensures Model() == PutOption(old(Model()), name, spec)
    {
      PutOptionWellFormed(Model(), name, spec);
      if name !in options {
        names := names + [name];
      }
      options := options[name := spec];
    }

    method SetValueOf(name: string, v: Value) returns (r: Result<(), ConfigError>)
      requires Valid()
      modifies this
      ensures Valid()
      ensures r.Ok? <==> SetValue(old(Model()), name, v).Ok?
      ensures r.Ok? ==> Model() == SetValue(old(Model()), name, v).value
      ensures r.Err? ==> r.error == SetValue(old(Model()), name, v).error && Model() == old(Model())
    {
      if name !in options {
        return Err(MissingOption(name));
      }
      options := options[name := options[name].(value := v)];
      return Ok(());
    }

    method SetVariantsOf(name: string, vs: seq<Value>) returns (r: Result<(), ConfigError>)
      requires Valid()
      modifies this
      ensures Valid()
      ensures r.Ok? <==> SetVariants(old(Model()), name, vs).Ok?
      ensures r.Ok? ==> Model() == SetVariants(old(Model()), name, vs).value
      ensures r.Err? ==> r.error == SetVariants(old(Model()), name, vs).error && Model() == old(Model())
    {
      if name !in options {
        return Err(MissingOption(name));
      }
      options := options[name := options[name].(variants := Some(vs))];
      return Ok(());
    }
  }
}
