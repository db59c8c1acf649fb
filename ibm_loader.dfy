/** The IBM claim-detection loader: it reads the dataset table and the
    knowledge base, takes the first `samples_amount` rows as the training
    split, and turns a table into the four fields the pipeline consumes:
    the sentences, the labels, the knowledge base and one evidence mask per
    sample. The table is a sequence of rows holding the three columns the
    loader reads; the files themselves are parameters (their text, already
    read). */
module Loader {
  import opened Wrappers
  import TargetDecoding
  import EvidenceMask
  import KbLines
  import opened Fields

  /** One row of `dataset_{topic}.csv`: the `Sentence`, `C_Label` and
      `evidence_targets` columns. */
  datatype Row = Row(sentence: string, cLabel: string, evidenceTargets: string)

  datatype ParseError =
    | TargetDecodeError(decodeError: TargetDecoding.DecodeError)  // int() raised ValueError
    | KbNotLoaded                                                  // len(None) raised TypeError
    | TargetMaskError(maskError: EvidenceMask.MaskError)          // numpy raised IndexError

  const TextDescription := "Text to classify"
  const LabelDescription := "Claim label"
  const KbDescription := "Evidence texts"
  // The three literals are juxtaposed in the loader without separating blanks.
  const MemoryTargetsDescription :=
    "Ground-truth memory target mask associated to sample."
    + "The targets are used by strong supervision to guide a model to"
    + "correctly select explanations."

  function Sentences(rows: seq<Row>): (r: seq<string>)
    ensures |r| == |rows| && forall i :: 0 <= i < |rows| ==> r[i] == rows[i].sentence
  {
    seq(|rows|, i requires 0 <= i < |rows| => rows[i].sentence)
  }

  function Labels(rows: seq<Row>): (r: seq<string>)
    ensures |r| == |rows| && forall i :: 0 <= i < |rows| ==> r[i] == rows[i].cLabel
  {
    seq(|rows|, i requires 0 <= i < |rows| => rows[i].cLabel)
  }

  /** The comprehension over the `evidence_targets` column: every cell is
      decoded before any mask is built. There is one index list per row,
      and an error is the decoding error of one of the rows' cells. */
  function DecodeAll(rows: seq<Row>): (r: Result<seq<seq<int>>, TargetDecoding.DecodeError>)
    ensures r.Ok? ==> |r.value| == |rows|
    ensures r.Err? ==> exists i :: 0 <= i < |rows| &&
                         TargetDecoding.DecodeTargets(rows[i].evidenceTargets) == Err(r.error)
  {
    TargetDecoding.Collect(CellResults(rows))
  }

  /** `int()`-decoding of each row's cell, row by row. */
  function CellResults(rows: seq<Row>): (rs: seq<Result<seq<int>, TargetDecoding.DecodeError>>)
    ensures |rs| == |rows|
    ensures forall i :: 0 <= i < |rows| ==> rs[i] == TargetDecoding.DecodeTargets(rows[i].evidenceTargets)
  {
    seq(|rows|, i requires 0 <= i < |rows| => TargetDecoding.DecodeTargets(rows[i].evidenceTargets))
  }

  /** `df[:n]`: Python slicing of the rows with an optional bound; a
      negative bound counts from the end. The result is always a prefix. */
  function TakeSamples(rows: seq<Row>, amount: Option<int>): (r: seq<Row>)
    ensures |r| <= |rows| && r == rows[..|r|]
    ensures amount.None? ==> r == rows
    ensures amount.Some? && 0 <= amount.value ==>
              |r| == if amount.value < |rows| then amount.value else |rows|
    ensures amount.Some? && amount.value < 0 ==>
              |r| == if |rows| + amount.value > 0 then |rows| + amount.value else 0
  {
    match amount
    case None => rows
    case Some(n) =>
      var end := if n >= 0 then (if n < |rows| then n else |rows|)
                 else (if |rows| + n > 0 then |rows| + n else 0);
      rows[..end]
  }

  /** The four fields `parse` adds, each with its name, type hint, tags and
      description. */
  function TextField(rows: seq<Row>): Field {
    Field("text", Strings(Sentences(rows)), Some("Iterable[str]"), {"text"}, TextDescription)
  }

  function LabelField(rows: seq<Row>): Field {
    Field("label", Strings(Labels(rows)), Some("Iterable[str]"), {"label"}, LabelDescription)
  }

  function KbField(kb: Option<seq<string>>): Field {
    Field("kb", if kb.Some? then Strings(kb.value) else Missing, Some("List[str]"), {"metadata"}, KbDescription)
  }

  function MemoryTargetsField(masks: seq<seq<int>>): Field {
    Field("memory_targets", Masks(masks), None, {"metadata"}, MemoryTargetsDescription)
  }

  /** What `parse` returns for a table, given the knowledge base it holds:
      `None` for no table; otherwise the four fields in insertion order, or
      the error that aborts it. A table with rows cannot be parsed before
      the knowledge base is loaded, and a result holds four fields under
      distinct names. */
  function ParsedFields(kb: Option<seq<string>>, data: Option<seq<Row>>)
    : (r: Result<Option<seq<Field>>, ParseError>)
    ensures data.None? ==> r == Ok(None)
    ensures data.Some? && data.value != [] && kb.None? ==> r.Err?
    ensures r.Ok? && data.Some? ==> r.value.Some? && |r.value.value| == 4 && DistinctNames(r.value.value)
  {
    if data.None? then Ok(None)
    else
      var rows := data.value;
      match DecodeAll(rows)
      case Err(e) => Err(TargetDecodeError(e))
      case Ok(targets) =>
        if rows != [] && kb.None? then Err(KbNotLoaded)
        else
          match EvidenceMask.MemoryTargets(KbSize(kb), targets)
          case Err(e) => Err(TargetMaskError(e))
          case Ok(masks) =>
            Ok(Some([TextField(rows), LabelField(rows), KbField(kb), MemoryTargetsField(masks)]))
  }

  /** `parse(None)` is `None`. */
  lemma ParseNone(kb: Option<seq<string>>)
    ensures ParsedFields(kb, None) == Ok(None)
  {
  }

  /** The column decodes exactly when every cell does, and then holds each
      cell's indices, row by row. */
  lemma DecodeAllSpec(rows: seq<Row>)
    ensures DecodeAll(rows).Ok? <==>
              forall i :: 0 <= i < |rows| ==> TargetDecoding.DecodeTargets(rows[i].evidenceTargets).Ok?
    ensures DecodeAll(rows).Ok? ==>
              |DecodeAll(rows).value| == |rows| &&
              forall i :: 0 <= i < |rows| ==>
                TargetDecoding.DecodeTargets(rows[i].evidenceTargets) == Ok(DecodeAll(rows).value[i])
  {
    var rs := CellResults(rows);
    assert DecodeAll(rows) == TargetDecoding.Collect(rs);
  }

  function KbSize(kb: Option<seq<string>>): nat {
    if kb.Some? then |kb.value| else 0
  }

  /** `parse` gets past its three failure points: decoding, the
      knowledge-base length, and the masks. */
  lemma ParsedFieldsOk(kb: Option<seq<string>>, rows: seq<Row>)
    ensures ParsedFields(kb, Some(rows)).Ok? <==>
              && DecodeAll(rows).Ok?
              && (rows != [] ==> kb.Some?)
              && EvidenceMask.MemoryTargets(KbSize(kb), DecodeAll(rows).value).Ok?
  {
  }

  /** When every step goes through, `parse` returns the four fields built
      from the rows, the knowledge base and the masks. */
  lemma ParsedFieldsValue(kb: Option<seq<string>>, rows: seq<Row>, masks: seq<seq<int>>)
    requires DecodeAll(rows).Ok? && (rows != [] ==> kb.Some?)
    requires EvidenceMask.MemoryTargets(KbSize(kb), DecodeAll(rows).value) == Ok(masks)
    ensures ParsedFields(kb, Some(rows)) ==
              Ok(Some([TextField(rows), LabelField(rows), KbField(kb), MemoryTargetsField(masks)]))
  {
  }

  /** `parse` stops at the first cell that does not decode. */
  lemma ParsedFieldsDecodeError(kb: Option<seq<string>>, rows: seq<Row>)
    ensures DecodeAll(rows).Err? ==>
              ParsedFields(kb, Some(rows)) == Err(TargetDecodeError(DecodeAll(rows).error))
  {
  }

  /** With every cell decoded, rows without a knowledge base are refused. */
  lemma ParsedFieldsNoKb(kb: Option<seq<string>>, rows: seq<Row>)
    requires DecodeAll(rows).Ok? && rows != [] && kb.None?
    ensures ParsedFields(kb, Some(rows)) == Err(KbNotLoaded)
  {
  }

  /** Otherwise an index the mask refuses aborts `parse`. */
  lemma ParsedFieldsMaskError(kb: Option<seq<string>>, rows: seq<Row>)
    requires DecodeAll(rows).Ok? && (rows != [] ==> kb.Some?)
    requires EvidenceMask.MemoryTargets(KbSize(kb), DecodeAll(rows).value).Err?
    ensures ParsedFields(kb, Some(rows)) ==
              Err(TargetMaskError(EvidenceMask.MemoryTargets(KbSize(kb), DecodeAll(rows).value).error))
  {
  }

  /** `parse` succeeds on a table exactly when every `evidence_targets` cell
      decodes, the knowledge base is loaded whenever there is a row, and
      every decoded index is accepted for a mask as long as the knowledge
      base. */
  lemma ParseSucceeds(kb: Option<seq<string>>, rows: seq<Row>)
    ensures ParsedFields(kb, Some(rows)).Ok? <==>
              && DecodeAll(rows).Ok?
              && (rows != [] ==> kb.Some?)
              && |DecodeAll(rows).value| == |rows|
              && forall i :: 0 <= i < |rows| ==>
                   EvidenceMask.AllInBounds(DecodeAll(rows).value[i], KbSize(kb))
  {
    ParsedFieldsOk(kb, rows);
    DecodeAllSpec(rows);
    var decoded := DecodeAll(rows);
    if decoded.Ok? {
      var targets := decoded.value;
      var k := KbSize(kb);
      EvidenceMask.MemoryTargetsSpec(k, targets);
      assert |targets| == |rows|;
      forall i | 0 <= i < |rows|
        ensures EvidenceMask.TargetMask(k, targets[i]).Ok? <==> EvidenceMask.AllInBounds(targets[i], k)
      {
        EvidenceMask.TargetMaskSpec(k, targets[i]);
      }
      assert EvidenceMask.MemoryTargets(k, targets).Ok? <==>
             forall i :: 0 <= i < |rows| ==> EvidenceMask.AllInBounds(targets[i], k);
    }
  }

  /** A successful `parse` returns exactly the fields `text`, `label`, `kb`
      and `memory_targets`, in that order, tagged `{text}`, `{label}`,
      `{metadata}` and `{metadata}`. */
  lemma ParseFieldOrder(kb: Option<seq<string>>, rows: seq<Row>)
    requires ParsedFields(kb, Some(rows)).Ok?
    ensures ParsedFields(kb, Some(rows)).value.Some?
    ensures var fs := ParsedFields(kb, Some(rows)).value.value;
      && Names(fs) == ["text", "label", "kb", "memory_targets"]
      && fs[0].tags == {"text"} && fs[1].tags == {"label"}
      && fs[2].tags == {"metadata"} && fs[3].tags == {"metadata"}
  {
    var fs := ParsedFields(kb, Some(rows)).value.value;
    assert Names(fs)[0] == "text";
  }

  /** In a successful `parse`, `text` and `label` hold one entry per row, in
      row order; `kb` holds the loaded knowledge base; `memory_targets`
      holds one mask per row, in row order, that row's mask over the
      knowledge base and as long as it. */
  lemma ParseFieldValues(kb: Option<seq<string>>, rows: seq<Row>)
    requires ParsedFields(kb, Some(rows)).Ok?
    ensures ParsedFields(kb, Some(rows)).value.Some?
    ensures var fs := ParsedFields(kb, Some(rows)).value.value;
      && |fs| == 4
      && fs[0].value == Strings(Sentences(rows))
      && fs[1].value == Strings(Labels(rows))
      && |fs[0].value.items| == |fs[1].value.items| == |rows|
      && (rows != [] ==> kb.Some? && fs[2].value == Strings(kb.value))
      && fs[3].value.Masks?
      && |fs[3].value.rows| == |rows|
      && forall i :: 0 <= i < |rows| ==>
           && EvidenceMask.TargetMask(KbSize(kb), DecodeAll(rows).value[i]) == Ok(fs[3].value.rows[i])
           && |fs[3].value.rows[i]| == KbSize(kb)
  {
    var targets := DecodeAll(rows).value;
    DecodeAllSpec(rows);
    EvidenceMask.MemoryTargetsSpec(KbSize(kb), targets);
    var fs := ParsedFields(kb, Some(rows)).value.value;
    forall i | 0 <= i < |rows|
      ensures EvidenceMask.TargetMask(KbSize(kb), targets[i]) == Ok(fs[3].value.rows[i])
    {
      EvidenceMask.TargetMaskSpec(KbSize(kb), targets[i]);
    }
  }

  class IBMLoader {
    /** The knowledge base, `None` until the data is loaded. */
    var kb: Option<seq<string>>
    /** The configured number of training samples (`None`: all). */
    const samplesAmount: Option<int>

    constructor (samplesAmount: Option<int>)
      ensures kb == None && this.samplesAmount == samplesAmount
    {
      kb := None;
      this.samplesAmount := samplesAmount;
    }

    /** `load_kb` on the knowledge-base file's text: one entry per line, in
        file order, each keeping its terminator. */
    method LoadKb(contents: string) returns (sentences: seq<string>)
      ensures sentences == KbLines.Lines(KbLines.NormalizeNewlines(contents))
    {
      var text := KbLines.NormalizeNewlines(contents);
      sentences := [];
      var rest := text;
      while rest != []
        invariant sentences + KbLines.Lines(rest) == KbLines.Lines(text)
        decreases |rest|
      {
        var n := KbLines.LineEnd(rest);
        assert KbLines.Lines(rest) == [rest[..n]] + KbLines.Lines(rest[n..]);
        sentences := sentences + [rest[..n]];
        rest := rest[n..];
      }
    }

    /** `load_data`: the table is returned as read and the knowledge base
        is stored. */
    method LoadData(table: seq<Row>, kbContents: string) returns (df: seq<Row>)
      modifies this
      ensures df == table
      ensures kb == Some(KbLines.Lines(KbLines.NormalizeNewlines(kbContents)))
    {
      var sentences := LoadKb(kbContents);
      kb := Some(sentences);
      df := table;
    }

    /** `get_splits`: the first `samples_amount` rows for training and no
        validation or test split. */
    method GetSplits(table: seq<Row>, kbContents: string)
      returns (train: seq<Row>, validation: Option<seq<Row>>, test: Option<seq<Row>>)
      modifies this
      ensures train == TakeSamples(table, samplesAmount)
      ensures validation == None && test == None
      ensures kb == Some(KbLines.Lines(KbLines.NormalizeNewlines(kbContents)))
    {
      var df := LoadData(table, kbContents);
      train, validation, test := TakeSamples(df, samplesAmount), None, None;
    }

    /** The first three `add` calls of `parse`, on a new field dictionary. */
    static method BaseFields(rows: seq<Row>, knowledge: Option<seq<string>>) returns (d: FieldDict)
      ensures fresh(d) && d.Valid()
      ensures d.fields == [TextField(rows), LabelField(rows), KbField(knowledge)]
      ensures Names(d.fields) == ["text", "label", "kb"]
    {
      d := new FieldDict();
      var added := d.Add(TextField(rows));
      assert d.fields == [TextField(rows)];
      added := d.Add(LabelField(rows));
      assert d.fields == [TextField(rows), LabelField(rows)];
      added := d.Add(KbField(knowledge));
      assert Names(d.fields) == ["text", "label", "kb"];
    }

    /** `parse`: builds the four fields through successive `add` calls and
        the masks through the in-place loop; its outcome is ParsedFields. */
    method Parse(data: Option<seq<Row>>) returns (r: Result<Option<FieldDict>, ParseError>)
      ensures ParsedFields(kb, data).Err? ==> r == Err(ParsedFields(kb, data).error)
      ensures ParsedFields(kb, data) == Ok(None) ==> r == Ok(None)
      ensures ParsedFields(kb, data).Ok? && ParsedFields(kb, data).value.Some? ==>
                && r.Ok? && r.value.Some?
                && fresh(r.value.value) && r.value.value.Valid()
                && r.value.value.fields == ParsedFields(kb, data).value.value
    {
      if data.None? {
        return Ok(None);
      }
      var rows := data.value;
      var knowledge := kb;
      var fieldDict := BaseFields(rows, knowledge);
      var decoded := DecodeAll(rows);
      if decoded.Err? {
        ParsedFieldsDecodeError(knowledge, rows);
        return Err(TargetDecodeError(decoded.error));
      }
      if rows != [] && knowledge.None? {
        ParsedFieldsNoKb(knowledge, rows);
        return Err(KbNotLoaded);
      }
      var masks := EvidenceMask.BuildMemoryTargets(KbSize(knowledge), decoded.value);
      if masks.Err? {
        ParsedFieldsMaskError(knowledge, rows);
        return Err(TargetMaskError(masks.error));
      }
      var added := fieldDict.Add(MemoryTargetsField(masks.value));
      ParsedFieldsValue(knowledge, rows, masks.value);
      return Ok(Some(fieldDict));
    }
  }
}
