/** The field container a loader fills and hands to the next pipeline stage:
    an ordered collection of named, tagged values. Names are unique within
    one container; adding a second field under a name already present is
    refused and leaves the container as it was. */
module Fields {
  import opened Wrappers
  import opened Sequences

  /** The values the loader stores: lists of strings, a missing value
      (Python `None`), and the matrix of evidence masks. */
  datatype FieldValue = Strings(items: seq<string>) | Missing | Masks(rows: seq<seq<int>>)

  datatype Field = Field(
    name: string,
    value: FieldValue,
    typeHint: Option<string>,
    tags: set<string>,
    description: string)

  function Names(fields: seq<Field>): (names: seq<string>)
    ensures |names| == |fields|
    ensures forall i :: 0 <= i < |fields| ==> names[i] == fields[i].name
  {
    if fields == [] then [] else [fields[0].name] + Names(fields[1..])
  }

  predicate DistinctNames(fields: seq<Field>) {
    Distinct(Names(fields))
  }

  class FieldDict {
    var fields: seq<Field>

    ghost predicate Valid()
      reads this
    {
      DistinctNames(fields)
    }

    constructor ()
      ensures Valid() && fields == []
    {
      fields := [];
    }

    /** Appends one field, keeping insertion order; a name already present
        is refused. */
    method Add(f: Field) returns (added: bool)
      requires Valid()
      modifies this
      ensures Valid()
      ensures added <==> f.name !in Names(old(fields))
      ensures fields == if added then old(fields) + [f] else old(fields)
    {
      added := f.name !in Names(fields);
      if added {
        fields := fields + [f];
      }
    }
  }
}
