# IBM claim-detection components, modelled in Dafny

This project models three core files of the IBM claim-detection experiments
of *bert-natural-explanations* and proves properties of the model.

- **The IBM data loader** (`ibm/components/data_loader.py`).
  - `load_kb` reads the knowledge base one line at a time.
  - `get_splits` keeps the first `samples_amount` rows of the table.
  - `parse` turns a table into a field container with four fields, in order:
    the sentences (`text`), the labels (`label`), the knowledge base (`kb`),
    and one evidence mask per sample (`memory_targets`).
  - Each mask comes from decoding the sample's `evidence_targets` cell and
    setting those positions of an all-zero vector to 1.
- **The model configurations** (`ibm/configurations/model.py`).
  - `HFBaselineConfig.get_default` sets `epochs` to 50 and declares six options.
  - `HFMANNConfig.get_default` merges the whole baseline default into the
    memory network's default, then overrides four options.
  - `register_models` makes two registrations.
- **The processor configurations** (`ibm/configurations/processor.py`).
  - There are three option schemas.
  - `register_processors` makes ten registrations:
    four tokenizers, two model processors and four ordered pipelines.

The modules:

| module | file | what it holds |
|---|---|---|
| `Wrappers` | `wrappers.dfy` | `Option` and `Result` |
| `Sequences` | `sequences.dfy` | pairwise distinct elements, occurrence counts and Python's `sep.join`, shared by the other modules |
| `TargetDecoding` | `target_decoding.dfy` | decoding of an `evidence_targets` cell, Python's `int()`, and the round trip with Python's list printing |
| `EvidenceMask` | `evidence_mask.dfy` | numpy's mask assignment, as a function and as the in-place array loop |
| `KbLines` | `kb_lines.dfy` | universal-newline reading and line splitting of the knowledge-base text |
| `Fields` | `field_dict.dfy` | the field container (`FieldDict`) the loader fills |
| `Loader` | `ibm_loader.dfy` | the `IBMLoader` class: `load_kb`, `load_data`, `get_splits`, `parse` |
| `Registration` | `registration.dfy` | registration keys, the append-only registry, and a registration function's outcome |
| `Configurations` | `configuration.dfy` | option specs, schemas, and the `Configuration` class with `add`, item assignment and attribute assignment |
| `ModelConfigs` | `model_config.dfy` | `HFBaselineConfig`, `HFMANNConfig` and `register_models` |
| `ProcessorConfigs` | `processor_config.dfy` | the three processor configurations and `register_processors` |

The model follows the source's shape:

- Each imperative operation is a method on a class whose fields it updates:
  the loader, the field container, the configuration and the registry.
- Each such method is proved against a pure function of the same name family:
  - `Parse` against `ParsedFields`;
  - `HFBaselineDefault` against `BaselineSchema`;
  - `MergeInto` against `Merge`;
  - `RegisterProcessors` against `RegisterAll`.
- The properties are proved about those functions.
- The mask loop works on an `array`, as numpy does.

## Model

| member | source | states |
|---|---|---|
| TargetDecoding.RemoveBrackets | ibm/components/data_loader.py:83 | the text after both `replace` calls holds no bracket, is no longer than before, and a text without brackets is unchanged |
| TargetDecoding.Split | ibm/components/data_loader.py:83 | `split(',')` gives one piece more than there are commas, no piece holds a comma, and joining the pieces with commas gives the text back |
| TargetDecoding.ParseInt | ibm/components/data_loader.py:83 | `int(item)` either gives a value or fails with an error naming the piece it refused; ParseIntLiteral and ParseIntOnlyLiterals together state exactly which pieces it accepts and with which value, so every other piece is refused |
| TargetDecoding.LiteralValue | ibm/components/data_loader.py:83 | a stripped text has a value only when it starts with a sign or a digit and ends with a digit, and the value is negative only after a `-` |
| TargetDecoding.ParseIntLiteral | ibm/components/data_loader.py:83 | `int()` accepts surrounding white space (space, `\t`, `\n`, `\v`, `\f`, `\r`), an optional `+` or `-`, and digit groups joined by single underscores, and gives the signed value of the digits with the underscores dropped |
| TargetDecoding.ParseIntOnlyLiterals | ibm/components/data_loader.py:83 | conversely, every piece `int()` accepts is white space of those six characters, an optional `+` or `-`, digit groups joined by single underscores and white space, and its value is the signed value of those digits; `"1.5"`, `"a"`, `"1 2"`, `"1__0"`, `"+-1"` and `"\x1c1"` are therefore refused |
| TargetDecoding.LeadingNonLiteralRefused | ibm/components/data_loader.py:83 | `int()` refuses a piece that starts with anything other than white space, a sign or a digit, the separators 0x1C-0x1F included, naming the piece |
| TargetDecoding.BlankPieceRefused | ibm/components/data_loader.py:83 | `int()` refuses an empty or all-blank piece, naming it |
| TargetDecoding.ParseIntPadded | ibm/components/data_loader.py:83 | `int()` of a natural number's decimal text after leading white space gives the number back |
| TargetDecoding.Collect | ibm/components/data_loader.py:83-84 | a comprehension succeeds exactly when every item does and then holds every item's value in order; otherwise it reports the first failing item's error |
| TargetDecoding.ParseEach | ibm/components/data_loader.py:83 | the inner comprehension gives one value per piece, or an error naming one of the pieces |
| TargetDecoding.ParseEachSpec | ibm/components/data_loader.py:83 | the inner comprehension succeeds exactly when `int()` accepts every piece, then holds their values in order; otherwise it names the first piece refused |
| TargetDecoding.DecodeTargets | ibm/components/data_loader.py:83-84 | the cell `"[]"` decodes to the empty list, and any other cell that decodes names at least one index |
| TargetDecoding.DecodeLength | ibm/components/data_loader.py:83-84 | a cell decodes to the empty list exactly when it is `"[]"`; any other cell that decodes names one index more than it has commas once its brackets are removed |
| TargetDecoding.DecodeBracketed | ibm/components/data_loader.py:83-84 | a bracket-free body written between brackets decodes as the split of that body |
| TargetDecoding.DecodeRefusesBlankPiece | ibm/components/data_loader.py:83-84 | a cell other than `"[]"` with a blank piece between its commas is refused, at that piece or an earlier one |
| TargetDecoding.TrailingCommaRefused | ibm/components/data_loader.py:83-84 | a list written with a trailing comma, such as `[1,]`, is refused |
| TargetDecoding.BlankCellRefused | ibm/components/data_loader.py:83-84 | brackets holding only blanks, such as `[ ]`, are refused |
| TargetDecoding.DoubleCommaRefused | ibm/components/data_loader.py:83-84 | a list with two commas in a row, such as `[1,,2]`, is refused |
| TargetDecoding.SplitBody | ibm/components/data_loader.py:83 | splitting a printed list body on commas gives one piece per number, each the number's text behind its blank |
| TargetDecoding.ParsePadded | ibm/components/data_loader.py:83 | reading those pieces with `int()` gives the numbers back, in order |
| TargetDecoding.NatToString | ibm/components/data_loader.py:83-84 | the text `str(n)` writes for a natural number is a non-empty run of digits whose value is `n` |
| TargetDecoding.RoundTrip | ibm/components/data_loader.py:83-84 | decoding the text `str(xs)` writes for a list of natural numbers gives `xs` back, the empty list included |
| EvidenceMask.Position | ibm/components/data_loader.py:88 | numpy writes an accepted index `i` at a position inside the mask, at `i` itself when `i` is not negative |
| EvidenceMask.Zeros | ibm/components/data_loader.py:87 | `np.zeros(k)` has length `k` and is 0 everywhere |
| EvidenceMask.MarkAll | ibm/components/data_loader.py:88 | `mask[targets] = 1` keeps the mask's length and keeps a 0/1 mask 0/1; it fails only at one of the targets out of bounds for the mask |
| EvidenceMask.MarkAllSpec | ibm/components/data_loader.py:88 | `mask[targets] = 1` goes through exactly when every index is in `[-k, k)`; it then sets exactly the hit positions to 1 and keeps the rest; otherwise it fails at the first index out of bounds |
| EvidenceMask.TargetMask | ibm/components/data_loader.py:87-88 | a sample's mask has length `k` and holds only 0 and 1; an error names one of the targets and the size `k` |
| EvidenceMask.TargetMaskSpec | ibm/components/data_loader.py:87-88 | a sample's mask exists exactly when every target is in bounds; it has length `len(kb)` and is 1 exactly at the positions the targets hit |
| EvidenceMask.MaskMembership | ibm/components/data_loader.py:87-88 | for targets in `[0, k)`, position `p` of the mask is 1 exactly when `p` is a target, and 0 otherwise |
| EvidenceMask.SameTargetsSameMask | ibm/components/data_loader.py:88 | two target lists holding the same indices give the same mask and the same acceptance, whatever their order and repetitions |
| EvidenceMask.DedupSameMask | ibm/components/data_loader.py:88 | repeated indices give the same mask as the list without repetitions |
| EvidenceMask.Dedup | ibm/components/data_loader.py:88 | the reference list without repetitions holds the same indices, each once |
| EvidenceMask.EmptyTargetsMask | ibm/components/data_loader.py:87-88 | a sample with no targets gets the all-zero mask |
| EvidenceMask.BuildMask | ibm/components/data_loader.py:87-88 | the in-place array loop computes exactly the sample's mask, or the same error |
| EvidenceMask.MemoryTargets | ibm/components/data_loader.py:85-90 | `memory_targets` has one row of length `len(kb)` per sample; an error carries the size `len(kb)` |
| EvidenceMask.MemoryTargetsSpec | ibm/components/data_loader.py:85-90 | `memory_targets` exists exactly when every sample's mask does; it then has one row per sample, in sample order, each that sample's mask of length `len(kb)` |
| EvidenceMask.BuildMemoryTargets | ibm/components/data_loader.py:85-90 | the loop over the samples computes exactly `memory_targets`, or the first sample's error |
| KbLines.NormalizeNewlines | ibm/components/data_loader.py:27 | reading in text mode leaves no carriage return and never lengthens the text |
| KbLines.NormalizeNewlinesReplaces | ibm/components/data_loader.py:27 | text-mode reading equals replacing every `\r\n` by `\n` and then every remaining `\r` by `\n`, both from left to right |
| KbLines.CrLfStep | ibm/components/data_loader.py:27 | a `\r\n` after a text without carriage returns becomes one `\n`, and reading goes on after it |
| KbLines.LoneCrStep | ibm/components/data_loader.py:27 | a `\r` not followed by `\n` becomes a `\n`, and reading goes on after it |
| KbLines.NormalizeCrLfFile | ibm/components/data_loader.py:27 | a file whose lines end in `\r\n` reads as the same lines ending in `\n` |
| KbLines.NormalizePlainText | ibm/components/data_loader.py:27 | a text without carriage returns is read unchanged |
| KbLines.Lines | ibm/components/data_loader.py:28 | iterating over a file gives no line exactly when the text is empty, and never more lines than characters |
| KbLines.LineEnd | ibm/components/data_loader.py:28 | the first line runs up to and including the first `\n`, or to the end of the text when there is none |
| KbLines.LinesConcat | ibm/components/data_loader.py:28-29 | joining the lines gives the text back, so nothing is lost, added or reordered |
| KbLines.LinesShape | ibm/components/data_loader.py:28-29 | every line is non-empty, holds `\n` only at its end, and every line but the last ends in `\n` |
| KbLines.LinesCount | ibm/components/data_loader.py:28-29 | there is one line per `\n`, plus one for a last line without it |
| KbLines.LinesOfTerminated | ibm/components/data_loader.py:28-29 | the lines of a text written as lines each followed by `\n` are exactly those lines, each keeping its `\n` |
| KbLines.CrLfFileLines | ibm/components/data_loader.py:27-29 | a knowledge-base file written with `\r\n` endings is loaded as its lines, each ending in `\n` |
| Fields.Names | ibm/components/data_loader.py:66-96 | the field names, one per field, in insertion order |
| Fields.FieldDict.constructor | ibm/components/data_loader.py:66 | a new container is empty |
| Fields.FieldDict.Add | ibm/components/data_loader.py:67-71 | `add` appends the field when its name is new, keeping insertion order, and leaves the container unchanged otherwise |
| Loader.Sentences | ibm/components/data_loader.py:68 | the `Sentence` column: one entry per row, in row order |
| Loader.Labels | ibm/components/data_loader.py:73 | the `C_Label` column: one entry per row, in row order |
| Loader.TakeSamples | ibm/components/data_loader.py:56 | `df[:n]` is a prefix of the rows: all of them for `None`, `min(n, rows)` for `n >= 0`, and `max(rows + n, 0)` for a negative `n` |
| Loader.ParseNone | ibm/components/data_loader.py:63-64 | `parse(None)` is `None` |
| Loader.DecodeAll | ibm/components/data_loader.py:82-84 | the outer comprehension gives one list per row, or the error of one row's cell |
| Loader.DecodeAllSpec | ibm/components/data_loader.py:82-84 | the column decodes exactly when every cell does, and then holds each cell's indices, row by row |
| Loader.ParsedFields | ibm/components/data_loader.py:58-97 | `parse(None)` is `None`; a non-empty table without a loaded knowledge base is refused; a result holds four fields with distinct names |
| Loader.ParsedFieldsDecodeError | ibm/components/data_loader.py:82-84 | a cell that does not decode aborts `parse` with that cell's error |
| Loader.ParsedFieldsNoKb | ibm/components/data_loader.py:87 | with every cell decoded, rows and no loaded knowledge base abort `parse` |
| Loader.ParsedFieldsMaskError | ibm/components/data_loader.py:85-90 | otherwise a target the mask refuses aborts `parse` with the mask's error |
| Loader.ParsedFieldsOk | ibm/components/data_loader.py:82-90 | `parse` gets through exactly when decoding succeeds, the knowledge base is loaded whenever there is a row, and every mask can be built |
| Loader.ParsedFieldsValue | ibm/components/data_loader.py:66-96 | when every step succeeds, `parse` returns exactly the four fields built from the rows, the knowledge base and the masks |
| Loader.ParseSucceeds | ibm/components/data_loader.py:82-90 | `parse` succeeds exactly when every cell decodes, the knowledge base is loaded whenever there is a row, and every index is in bounds for a mask as long as the knowledge base |
| Loader.ParseFieldOrder | ibm/components/data_loader.py:66-96 | a successful `parse` holds exactly the fields `text`, `label`, `kb` and `memory_targets`, in that order, tagged `{text}`, `{label}`, `{metadata}` and `{metadata}` |
| Loader.ParseFieldValues | ibm/components/data_loader.py:66-96 | in a successful `parse`, `text` and `label` hold one entry per row, `kb` holds the loaded knowledge base, and `memory_targets` holds one mask per row, in row order, each that row's mask of length `len(kb)` |
| Loader.IBMLoader.constructor | ibm/components/data_loader.py:14-19 | a new loader holds no knowledge base yet |
| Loader.IBMLoader.LoadKb | ibm/components/data_loader.py:21-31 | the loop appends exactly the lines of the text-mode reading of the file, in file order, each keeping its `\n` |
| Loader.IBMLoader.LoadData | ibm/components/data_loader.py:33-49 | the table is returned as read, and the knowledge base becomes the lines of its file |
| Loader.IBMLoader.GetSplits | ibm/components/data_loader.py:51-56 | the training split is `df[:samples_amount]`, there is no validation or test split, and the knowledge base is loaded |
| Loader.IBMLoader.BaseFields | ibm/components/data_loader.py:66-81 | the first three `add` calls leave a fresh container holding `text`, `label` and `kb`, in that order |
| Loader.IBMLoader.Parse | ibm/components/data_loader.py:58-97 | the successive `add` calls and the mask loop return exactly what `ParsedFields` describes: `None`, the four fields in a fresh container, or the same error |
| Registration.RegisterAll | ibm/configurations/processor.py:77-213 | a registration function's `add` calls only grow the registry, by at most the batch, and the key it stops at is registered |
| Registration.DistinctKeysOfEntries | ibm/configurations/processor.py:77-213 | no two registered entries share a key exactly when the list of their keys has no repetition |
| Registration.RegisterAllWhole | ibm/configurations/processor.py:77-213 | a registration function that does not stop has appended its whole batch, in order |
| Registration.RegisterAllAppend | ibm/configurations/processor.py:77-213 | registering two batches in a row equals registering the first and then, unless it stopped, the second |
| Registration.RegisterAllPrefix | ibm/configurations/processor.py:77-213 | a registration function appends a prefix of its batch, in order, and the registered keys stay distinct |
| Registration.RegisterAllSucceeds | ibm/configurations/processor.py:77-213 | a registration function registers its whole batch exactly when the batch's keys are distinct and none is registered yet, and then appends the batch in order |
| Registration.RegisterAllStops | ibm/configurations/processor.py:77-213 | when it stops, it stops at one of the batch's keys that is already registered |
| Registration.RegistrableStep | ibm/configurations/processor.py:77-213 | after one fresh key is added, the rest of the batch is registrable exactly when the whole batch was |
| Registration.Registry.Add | ibm/configurations/model.py:93-97 | an `add_and_bind` call registers the entry exactly when its key is new, and otherwise leaves the registry unchanged; the keys stay distinct |
| Configurations.AddOption | ibm/configurations/model.py:21-24 | `add` succeeds exactly when the name is new, then appends it to the order with its spec and keeps every other option; otherwise it reports the duplicate |
| Configurations.PutOption | ibm/configurations/model.py:69 | `config[key] = value` stores the spec under the key, declares nothing else, and keeps every other option |
| Configurations.SetValue | ibm/configurations/model.py:20 | `config.name = v` succeeds exactly when the name is declared; it changes only that option's value and keeps the order and every other option; otherwise it reports the missing name |
| Configurations.SetVariants | ibm/configurations/model.py:74 | `config.get(name).variants = vs` succeeds exactly when the name is declared; it changes only that option's variants and keeps the order and every other option; otherwise it reports the missing name |
| Configurations.AddOptionWellFormed | ibm/configurations/model.py:21-24 | `add` keeps a schema well formed: names are declared once and exactly the declared names have a spec |
| Configurations.PutOptionWellFormed | ibm/configurations/model.py:69 | `config[key] = value` keeps a schema well formed |
| Configurations.SetValueWellFormed | ibm/configurations/model.py:20 | `config.name = v` keeps a schema well formed |
| Configurations.SetVariantsWellFormed | ibm/configurations/model.py:74 | `config.get(name).variants = vs` keeps a schema well formed |
| Configurations.Configuration.constructor | ibm/configurations/model.py:18 | `super().get_default()` is the parent's schema |
| Configurations.Configuration.Add | ibm/configurations/model.py:21-24 | `add` appends a new option with its spec, or refuses a name already declared and leaves the configuration unchanged |
| Configurations.Configuration.Put | ibm/configurations/model.py:69 | `config[key] = value` replaces the spec in place, or appends the option when it is new |
| Configurations.Configuration.SetValueOf | ibm/configurations/model.py:20 | `config.name = v` overwrites a declared option's value and nothing else, or fails on an undeclared name |
| Configurations.Configuration.SetVariantsOf | ibm/configurations/model.py:74 | `config.get(name).variants = vs` overwrites a declared option's variants and nothing else, or fails on an undeclared name |
| ModelConfigs.BaselineSchema | ibm/configurations/model.py:18-54 | the baseline default lists the parent's options in order, then the six new options in declaration order |
| ModelConfigs.BaselineWellFormed | ibm/configurations/model.py:18-54 | the baseline default is a well-formed schema |
| ModelConfigs.BaselineSucceeds | ibm/configurations/model.py:18-54 | the baseline default exists exactly when the parent declares `epochs` and none of the six new options; a missing `epochs` is reported first |
| ModelConfigs.BaselineOptions | ibm/configurations/model.py:18-54 | the baseline default keeps the parent's options in order with `epochs` set to 50 and every other parent option unchanged, then declares the six options in order with their specs |
| ModelConfigs.BaselineFacts | ibm/configurations/model.py:20-48 | `epochs` is 50; `hf_model_name` is required, has no default and the single variant `distilbert-base-uncased`; `freeze_hf` defaults to False, which its range accepts; `num_classes` (2) and `optimizer_class` are required; `num_classes`, `optimizer_class` and `optimizer_args` are tagged `model` |
| ModelConfigs.HFBaselineDefault | ibm/configurations/model.py:12-54 | the step-by-step `get_default` builds exactly the baseline default, or stops with the same error |
| ModelConfigs.MergeStep | ibm/configurations/model.py:67-69 | one merge iteration declares its key and keeps every other option; only `conditions` can fail, when the parent lacks it or either side's value is not a dictionary |
| ModelConfigs.Merge | ibm/configurations/model.py:66-69 | the merge fails only when `conditions` is merged, and a merged schema declares every option of the parent and every merged key |
| ModelConfigs.MergeSucceeds | ibm/configurations/model.py:66-69 | the merge loop goes through exactly when, if `conditions` is merged, both sides hold a dictionary for it |
| ModelConfigs.MergeOptions | ibm/configurations/model.py:66-69 | after the merge, every merged key other than `conditions` holds the baseline's spec; `conditions` holds the baseline's dictionary updated by the parent's, so the parent wins on shared keys; the parent's other options are unchanged |
| ModelConfigs.MergeStepStores | ibm/configurations/model.py:67-69 | one merge step stores its key: the order grows by the key exactly when the key is new |
| ModelConfigs.MergeKeys | ibm/configurations/model.py:66-69 | the merged schema declares exactly the parent's options and the merged keys |
| ModelConfigs.MergeNames | ibm/configurations/model.py:66-69 | the merged schema keeps the parent's order and appends the merged keys the parent lacked, in merge order |
| ModelConfigs.MergeInto | ibm/configurations/model.py:66-69 | the in-place merge loop computes exactly the merge, or the same error |
| ModelConfigs.MergeOptionInto | ibm/configurations/model.py:67-69 | one iteration of the in-place loop computes exactly the merge step, and changes nothing when it fails |
| ModelConfigs.Override | ibm/configurations/model.py:71-86 | the four assignments succeed exactly when all four options are declared, keep the order and the declared options, and otherwise report one of the four as missing |
| ModelConfigs.OverrideSpec | ibm/configurations/model.py:71-86 | the four assignments go through exactly when all four options are declared; they keep the order, set those four and leave every other option unchanged |
| ModelConfigs.MergeAndOverrideSucceeds | ibm/configurations/model.py:63-86 | merge-then-assign goes through exactly when the merge is allowed and each overridden option is declared by one of the two sides |
| ModelConfigs.HFMANNSchema | ibm/configurations/model.py:57-88 | the memory model's default exists only when the baseline's does, and declares every option of the memory parent and every option of the baseline's default, inherited ones included |
| ModelConfigs.HFMANNSucceeds | ibm/configurations/model.py:57-88 | the memory model's default exists exactly when the baseline's does, the merge is allowed, and each overridden option is declared by one of the two sides |
| ModelConfigs.HFMANNOverrides | ibm/configurations/model.py:71-86 | the assignments take precedence: `lookup_weights` is `[32]`; `kb_sampler`'s variants are the sampler keys tagged `uniform`, `attention`, `gain`, in that order; `ss_margin` is 0.5; `ss_coefficient` has exactly the two variants 0.0 and 1.0 |
| ModelConfigs.HFMANNOrder | ibm/configurations/model.py:63-69 | the memory model's default lists the parent's options in order, then the baseline options the parent lacked, in baseline order |
| ModelConfigs.HFMANNMerged | ibm/configurations/model.py:66-69 | apart from the four assignments, the memory model's default is the merge: baseline specs win, except `conditions`, where the parent's entries win, and the parent's other options are unchanged |
| ModelConfigs.MergeAndOverrideKeeps | ibm/configurations/model.py:66-86 | for any well-formed baseline, merge-then-assign keeps the baseline's specs except `conditions` and the four assigned, keeps the parent's other options, and merges the two `conditions` dictionaries with the parent's entries winning |
| ModelConfigs.HFMANNDefault | ibm/configurations/model.py:57-88 | the step-by-step `get_default` builds exactly the memory model's default, or stops with the same error |
| ModelConfigs.RegisterModels | ibm/configurations/model.py:91-103 | `register_models` makes the two registrations in order and stops at the first refused key |
| ModelConfigs.RegisterModelsSucceeds | ibm/configurations/model.py:93-103 | the two model keys are distinct, named `model` in namespace `nle/ibm`, and are both registered whenever neither is registered yet |
| ProcessorConfigs.HFTokenizerSchema | ibm/configurations/processor.py:16-32 | the HF tokenizer default exists exactly when the base declares neither option, and lists the base options, then `hf_model_name` and `tokenization_args` |
| ProcessorConfigs.THTokenizerSchema | ibm/configurations/processor.py:41-51 | the torchtext tokenizer default exists exactly when the base lacks `tokenization_args`, and lists the base options, then `tokenization_args` |
| ProcessorConfigs.ModelProcessorSchema | ibm/configurations/processor.py:60-72 | the model processor default exists exactly when the base declares neither option, and lists the base options, then `num_workers` and `batch_size` |
| ProcessorConfigs.HFTokenizerDefaults | ibm/configurations/processor.py:10-32 | the HF tokenizer default exists exactly when the base declares neither option; it keeps the base options in order, then has a required `str` `hf_model_name` defaulting to `roberta-large` and `tokenization_args` with truncation, special tokens and a maximum length of 200 |
| ProcessorConfigs.THTokenizerDefaults | ibm/configurations/processor.py:35-51 | the torchtext tokenizer default exists exactly when the base lacks `tokenization_args`; it then adds it with language `en` and tokenizer `basic_english` |
| ProcessorConfigs.ModelProcessorDefaults | ibm/configurations/processor.py:54-72 | the model processor default exists exactly when the base declares neither option; `batch_size` is required with default 8, `num_workers` defaults to 0, both non-negative integers |
| ProcessorConfigs.HFTokenizerDefault | ibm/configurations/processor.py:10-32 | the step-by-step `get_default` builds exactly the HF tokenizer default, or stops with the same error |
| ProcessorConfigs.THTokenizerDefault | ibm/configurations/processor.py:35-51 | the step-by-step `get_default` builds exactly the torchtext tokenizer default, or stops with the same error |
| ProcessorConfigs.ModelProcessorDefault | ibm/configurations/processor.py:54-72 | the step-by-step `get_default` builds exactly the model processor default, or stops with the same error |
| ProcessorConfigs.RegisterTokenizers | ibm/configurations/processor.py:77-100 | the four tokenizer registrations, in order, stopping at the first refused key |
| ProcessorConfigs.RegisterModelProcessors | ibm/configurations/processor.py:102-113 | the two model processor registrations, in order, stopping at the first refused key |
| ProcessorConfigs.RegisterPipelines | ibm/configurations/processor.py:115-213 | the four pipeline registrations, in order, stopping at the first refused key |
| ProcessorConfigs.RegisterProcessors | ibm/configurations/processor.py:75-213 | `register_processors` makes the ten registrations in order and stops at the first refused key |
| ProcessorConfigs.ProcessorTagSets | ibm/configurations/processor.py:78-213 | all ten keys are named `processor` in namespace `nle/ibm`, with the tag sets `{tokenizer,hf}`, `{tokenizer,kb,hf}`, `{tokenizer}`, `{tokenizer,kb}`, `{model}`, `{model,memory}`, `{hf}`, `{kb,hf}`, none and `{kb}`, in order |
| ProcessorConfigs.ProcessorKeysDistinct | ibm/configurations/processor.py:78-213 | the ten keys are pairwise distinct, so no registration collides |
| ProcessorConfigs.PipelineShape | ibm/configurations/processor.py:115-213 | exactly the last four registrations are pipelines; each passes three keys and three names; the names are a tokenizer stage, `weights_processor` and `model_processor`; the stage is `kb_tokenizer` exactly when its key has the `kb` tag, and then the model stage is the memory processor; the middle key is the weights key |
| ProcessorConfigs.PipelineStagesRegisteredEarlier | ibm/configurations/processor.py:120-209 | each pipeline's stage keys in namespace `nle/ibm` are registered before that pipeline |
| ProcessorConfigs.PipelineKeysRegisteredEarlier | ibm/configurations/processor.py:78-213 | every pipeline key in namespace `nle/ibm` is the key of an earlier registration; the `{weights}` key in `nle` is not registered here |
| ProcessorConfigs.RegisterProcessorsSucceeds | ibm/configurations/processor.py:75-213 | the ten registrations all go through, appended in order, whenever none of their keys is registered yet |
| ProcessorConfigs.ModelAndProcessorKeysDisjoint | ibm/configurations/processor.py:78-213 | no processor key equals a model key, because their names differ |
| ProcessorConfigs.ModelsThenProcessors | ibm/configurations/processor.py:75-76 | on a fresh registry, the models and then the processors are all registered, twelve entries in order |
| ProcessorConfigs.ProcessorsThenModels | ibm/configurations/processor.py:75-76 | on a fresh registry, the processors and then the models are all registered, twelve entries in order |

## Left out

- Opening and reading the files is not modelled. This covers `FileManager`, `mkdir`, `pd.read_csv` and `open`. The table enters as a sequence of rows holding the `Sentence`, `C_Label` and `evidence_targets` cells. The knowledge-base file enters as its decoded text.
- Python's `int()` is modelled on ASCII text only. Unicode digits and Unicode white space are not, nor is CPython's treatment of a non-ASCII piece, where every Unicode white-space character (0x1C-0x1F included) is first turned into a space.
- TargetDecoding.ParseInt: CPython's limit on integer string conversion is not modelled. Since Python 3.11 (and the 3.7–3.10 security releases), `int()` raises `ValueError` on a decimal text of more than 4300 digits, leading zeros counted, unless the limit is changed with `sys.set_int_max_str_digits`. The model accepts literals of any length, so its contract is wider than the interpreter's default behaviour for such texts.
- TargetDecoding.ParseIntPadded: for the same reason, it holds only up to that limit in CPython: a number of more than 4300 digits cannot be read back.
- TargetDecoding.RoundTrip: under CPython's default limit, `str(xs)` itself raises for an element of 10^4300 or more, so the round trip is proved for lists whose printing the interpreter refuses as well.
- numpy masks hold floats; the model holds the integers 0 and 1. The final `np.array` conversion is not modelled.
- `parse` builds its container in the source's order: three `add` calls, then decoding, then the masks. A container abandoned by an error is not observable. Attaching `None` as `kb` for an empty table is kept.
- `FieldDict`, `Configuration` and `Registry` come from `cinnamon_core`, which is not part of this model. Their behaviour is reduced to what these files use:
  - a repeated `add` is refused and leaves the container unchanged;
  - item assignment stores in place or appends;
  - attribute assignment to an undeclared option is an error (`MissingOption`).
- Not modelled: variant expansion, fuzzy key matching, configuration validation, the difference between `add_and_bind` and `add_and_bind_variants`, and the `@register` decorator.
- `config[key]` in the merge is taken to be the option's spec. Updating a dictionary from it is taken to update from that spec's dictionary value. A spec whose value is not a dictionary is an error (`NotADict`).
- The parents' defaults (`NetworkConfig`, `MemoryNetworkConfig`, `Configuration`) are not part of this model. Each enters as an arbitrary well-formed schema.
- Python dictionaries keep insertion order. The model keeps the option order in a separate name list, and the entries of dictionary-valued options in a map without order.
- Floating-point values (`dropout_rate`, `lr`, `weight_decay`, `ss_margin`, the `ss_coefficient` variants) are carried as their literal text and never computed with.
- Foreign classes are carried by their qualified names: the component classes and `torch.optim.Adam`.
- `allowed_range` is a predicate in the source. The model carries the list of values it accepts.
- Python's `0 == False` and `1 == True` are not modelled. Option values of different kinds never compare equal.
- `register_processors` is one function in the source. The model splits it into three methods, one per commented section, and chains them. What is registered and in what order is the same.
- The in-place `update` of the baseline's `conditions` dictionary also changes the baseline configuration object. That object is discarded right after, so the change is not modelled.
