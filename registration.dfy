/** The component registry as the registration functions use it: a
    process-wide, append-only list of entries, each addressed by a key
    (name, tag set, namespace). Keys compare as triples with the tags
    compared as a set, so tag order never matters. Adding an entry whose key
    is already registered raises and leaves the registry as it was; a
    registration function stops at the first such failure, keeping what it
    registered before it. */
module Registration {
  import opened Wrappers
  import opened Sequences

  /** A key without tags (`tags=None`) has the empty tag set. */
  datatype RegistrationKey = RegistrationKey(name: string, tags: set<string>, namespace: string)

  /** The arguments `OrderedPipelineConfig.from_keys` receives: the stage
      keys and the stage names, position by position. */
  datatype PipelineArgs = PipelineArgs(keys: seq<RegistrationKey>, names: seq<string>)

  /** `add_and_bind`, `add_and_bind_variants`, and `add_and_bind_variants`
      with a pipeline built by `from_keys`. */
  datatype Binding = Bind | BindVariants | BindPipelineVariants(args: PipelineArgs)

  /** One registration: the key, the configuration class, the component
      class (both foreign, carried by name) and how they are bound. */
  datatype Entry = Entry(key: RegistrationKey, configClass: string, componentClass: string, binding: Binding)

  function KeysOf(entries: seq<Entry>): (keys: seq<RegistrationKey>)
    ensures |keys| == |entries|
    ensures forall i :: 0 <= i < |entries| ==> keys[i] == entries[i].key
  {
    if entries == [] then [] else [entries[0].key] + KeysOf(entries[1..])
  }

  /** No two entries share a key. Stated on the entries for the proofs
      below; it is `Distinct` of their keys. */
  predicate DistinctKeys(entries: seq<Entry>) {
    forall i, j :: 0 <= i < j < |entries| ==> entries[i].key != entries[j].key
  }

  lemma DistinctKeysOfEntries(entries: seq<Entry>)
    ensures DistinctKeys(entries) <==> Distinct(KeysOf(entries))
  {
  }

  /** The registry after a registration function, and the key that made it
      stop, if one did. */
  datatype Outcome = Outcome(entries: seq<Entry>, duplicate: Option<RegistrationKey>)

  /** A registration function's sequence of `add` calls, one per entry of
      `batch`, starting from `entries`. The registry only grows, by at most
      the batch, and the key it stops at is one already registered. */
  function RegisterAll(entries: seq<Entry>, batch: seq<Entry>): (o: Outcome)
    ensures |entries| <= |o.entries| <= |entries| + |batch|
    ensures o.duplicate.Some? ==> o.duplicate.value in KeysOf(o.entries)
    decreases |batch|
  {
    if batch == [] then Outcome(entries, None)
    else if batch[0].key in KeysOf(entries) then Outcome(entries, Some(batch[0].key))
    else
      RegisterAll(entries + [batch[0]], batch[1..])
  }

  /** The first `add` call of a registration function. */
  lemma RegisterAllFirst(entries: seq<Entry>, batch: seq<Entry>)
    requires batch != []
    ensures RegisterAll(entries, batch) ==
              if batch[0].key in KeysOf(entries) then Outcome(entries, Some(batch[0].key))
              else RegisterAll(entries + [batch[0]], batch[1..])
  {
  }

  /** Registering `a + b` registers `a`, then, unless that stopped, `b`. */
  lemma {:induction false} RegisterAllAppend(entries: seq<Entry>, a: seq<Entry>, b: seq<Entry>)
    ensures RegisterAll(entries, a + b) ==
              var o := RegisterAll(entries, a);
              if o.duplicate.Some? then o else RegisterAll(o.entries, b)
    decreases |a|
  {
    if a == [] {
      assert a + b == b;
    } else {
      assert (a + b)[0] == a[0] && (a + b)[1..] == a[1..] + b;
      RegisterAllAppend(entries + [a[0]], a[1..], b);
    }
  }

  lemma {:induction false} KeysOfAppend(entries: seq<Entry>, e: Entry)
    ensures KeysOf(entries + [e]) == KeysOf(entries) + [e.key]
  {
  }

  /** An entry whose key is not registered yet keeps the keys distinct. */
  lemma DistinctKeysAppend(entries: seq<Entry>, e: Entry)
    requires DistinctKeys(entries) && e.key !in KeysOf(entries)
    ensures DistinctKeys(entries + [e])
  {
    forall i | 0 <= i < |entries| ensures entries[i].key != e.key {
      assert KeysOf(entries)[i] == entries[i].key;
    }
  }

  /** A registration function appends a prefix of its batch, in order, and
      keeps the registered keys distinct. */
  lemma {:induction false} RegisterAllPrefix(entries: seq<Entry>, batch: seq<Entry>)
    requires DistinctKeys(entries)
    ensures var o := RegisterAll(entries, batch);
      && DistinctKeys(o.entries)
      && |entries| <= |o.entries| <= |entries| + |batch|
      && o.entries == entries + batch[..|o.entries| - |entries|]
    decreases |batch|
  {
    if batch != [] && batch[0].key !in KeysOf(entries) {
      var next := entries + [batch[0]];
      DistinctKeysAppend(entries, batch[0]);
      RegisterAllPrefix(next, batch[1..]);
      var o := RegisterAll(next, batch[1..]);
      assert RegisterAll(entries, batch) == o;
      var j := |o.entries| - |next|;
      assert batch[..j + 1] == [batch[0]] + batch[1..][..j];
      assert o.entries == entries + batch[..j + 1];
    } else {
      assert entries + batch[..0] == entries;
    }
  }

  /** The batch's keys are distinct from each other and from every key
      registered before. */
  predicate Registrable(entries: seq<Entry>, batch: seq<Entry>) {
    DistinctKeys(batch) && forall e :: e in batch ==> e.key !in KeysOf(entries)
  }

  lemma RegistrableStepForward(entries: seq<Entry>, batch: seq<Entry>)
    requires batch != [] && Registrable(entries, batch)
    ensures Registrable(entries + [batch[0]], batch[1..])
  {
    var next := entries + [batch[0]];
    KeysOfAppend(entries, batch[0]);
    forall i, k | 0 <= i < k < |batch[1..]| ensures batch[1..][i].key != batch[1..][k].key {
      assert batch[1..][i] == batch[i + 1] && batch[1..][k] == batch[k + 1];
    }
    forall e | e in batch[1..] ensures e.key !in KeysOf(next) {
      var k :| 0 <= k < |batch[1..]| && batch[1..][k] == e;
      assert batch[k + 1] == e && batch[0].key != batch[k + 1].key;
      assert e in batch;
    }
  }

  lemma RegistrableStepBackward(entries: seq<Entry>, batch: seq<Entry>)
    requires batch != [] && batch[0].key !in KeysOf(entries)
    requires Registrable(entries + [batch[0]], batch[1..])
    ensures Registrable(entries, batch)
  {
    var next := entries + [batch[0]];
    KeysOfAppend(entries, batch[0]);
    forall i, k | 0 <= i < k < |batch| ensures batch[i].key != batch[k].key {
      assert batch[1..][k - 1] == batch[k];
      if i > 0 {
        assert batch[1..][i - 1] == batch[i];
      }
    }
    forall e | e in batch ensures e.key !in KeysOf(entries) {
      if e != batch[0] {
        var k :| 0 <= k < |batch| && batch[k] == e;
        assert batch[1..][k - 1] == e;
      }
    }
  }

  lemma RegistrableStep(entries: seq<Entry>, batch: seq<Entry>)
    requires batch != [] && batch[0].key !in KeysOf(entries)
    ensures Registrable(entries, batch) <==> Registrable(entries + [batch[0]], batch[1..])
  {
    if Registrable(entries, batch) {
      RegistrableStepForward(entries, batch);
    }
    if Registrable(entries + [batch[0]], batch[1..]) {
      RegistrableStepBackward(entries, batch);
    }
  }

  lemma ClashNotRegistrable(entries: seq<Entry>, batch: seq<Entry>)
    requires batch != [] && batch[0].key in KeysOf(entries)
    ensures RegisterAll(entries, batch).duplicate == Some(batch[0].key)
    ensures !Registrable(entries, batch)
  {
    assert batch[0] in batch;
  }

  /** It registers the whole batch exactly when the batch is registrable. */
  lemma {:induction false} RegisterAllSucceeds(entries: seq<Entry>, batch: seq<Entry>)
    ensures RegisterAll(entries, batch).duplicate.None? <==> Registrable(entries, batch)
    ensures RegisterAll(entries, batch).duplicate.None? ==> RegisterAll(entries, batch).entries == entries + batch
    decreases |batch|
  {
    RegisterAllWhole(entries, batch);
    if batch != [] {
      if batch[0].key in KeysOf(entries) {
        ClashNotRegistrable(entries, batch);
      } else {
        var next := entries + [batch[0]];
        assert RegisterAll(entries, batch).duplicate == RegisterAll(next, batch[1..]).duplicate;
        RegisterAllSucceeds(next, batch[1..]);
        RegistrableStep(entries, batch);
      }
    }
  }

  /** When it does not stop, it has appended the whole batch. */
  lemma {:induction false} RegisterAllWhole(entries: seq<Entry>, batch: seq<Entry>)
    ensures RegisterAll(entries, batch).duplicate.None? ==> RegisterAll(entries, batch).entries == entries + batch
    decreases |batch|
  {
    if batch == [] {
      assert entries + batch == entries;
    } else if batch[0].key !in KeysOf(entries) {
      var next := entries + [batch[0]];
      assert RegisterAll(entries, batch) == RegisterAll(next, batch[1..]);
      RegisterAllWhole(next, batch[1..]);
      assert next + batch[1..] == entries + batch;
    }
  }

  /** When it stops, the key it stops at is one of the batch's and is
      already registered at that point. */
  lemma {:induction false} RegisterAllStops(entries: seq<Entry>, batch: seq<Entry>)
    ensures var o := RegisterAll(entries, batch);
      o.duplicate.Some? ==> o.duplicate.value in KeysOf(o.entries) &&
                            exists e :: e in batch && e.key == o.duplicate.value
    decreases |batch|
  {
    if batch != [] {
      assert batch[0] in batch;
      if batch[0].key !in KeysOf(entries) {
        RegisterAllStops(entries + [batch[0]], batch[1..]);
        var o := RegisterAll(entries, batch);
        if o.duplicate.Some? {
          var e :| e in batch[1..] && e.key == o.duplicate.value;
          assert e in batch;
        }
      }
    }
  }

  class Registry {
    var entries: seq<Entry>

    ghost predicate Valid()
      reads this
    {
      DistinctKeys(entries)
    }

    /** A fresh, empty registry, as at process start. */
    constructor ()
      ensures Valid() && entries == []
    {
      entries := [];
    }

    function Keys(): (keys: seq<RegistrationKey>)
      reads this
    {
      KeysOf(entries)
    }

    /** Registers one entry; a key already registered is refused. */
    method Add(e: Entry) returns (added: bool)
      requires Valid()
      modifies this
      ensures Valid()
      ensures added <==> e.key !in KeysOf(old(entries))
      ensures entries == if added then old(entries) + [e] else old(entries)
    {
      added := e.key !in KeysOf(entries);
      if added {
        DistinctKeysAppend(entries, e);
        entries := entries + [e];
      }
    }
  }
}
