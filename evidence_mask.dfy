/** The evidence mask of one sample: `np.zeros(len(kb))` followed by
    `target_mask[target_set] = 1`, and the list of such masks, one per
    sample, that becomes the `memory_targets` field.

    numpy's assignment through an index list accepts an index `i` when
    `-k <= i < k` for a mask of length `k` and writes position `i + k` for a
    negative `i`; any other index raises `IndexError`, modelled as an error
    value. Masks hold the integers 0 and 1 (numpy holds them as floats). */
module EvidenceMask {
  import opened Wrappers

  datatype MaskError = IndexOutOfBounds(index: int, size: nat)

  predicate InBounds(i: int, k: nat) {
    -(k as int) <= i < k
  }

  /** The position numpy writes for an accepted index. */
  function Position(i: int, k: nat): (p: nat)
    requires InBounds(i, k)
    ensures p < k
    ensures 0 <= i ==> p == i
  {
    if i < 0 then i + k else i
  }

  function Zeros(k: nat): (z: seq<int>)
    ensures |z| == k && forall p :: 0 <= p < k ==> z[p] == 0
  {
    seq(k, _ => 0)
  }

  /** Writes 1 at every target's position of `mask`, target by target; the
      first index out of bounds stops it with an error. The mask keeps its
      length and stays a 0/1 vector; an error names an index of the list
      that lies out of bounds. */
  function MarkAll(mask: seq<int>, targets: seq<int>): (r: Result<seq<int>, MaskError>)
    ensures r.Ok? ==> |r.value| == |mask|
    ensures r.Ok? && IsZeroOne(mask) ==> IsZeroOne(r.value)
    ensures r.Err? ==> r.error.size == |mask| && r.error.index in targets && !InBounds(r.error.index, |mask|)
    decreases |targets|
  {
    if targets == [] then Ok(mask)
    else if !InBounds(targets[0], |mask|) then Err(IndexOutOfBounds(targets[0], |mask|))
    else MarkAll(mask[Position(targets[0], |mask|) := 1], targets[1..])
  }

  /** Every entry is 0 or 1. */
  predicate IsZeroOne(m: seq<int>) {
    forall p :: 0 <= p < |m| ==> m[p] == 0 || m[p] == 1
  }

  /** The mask of one sample over a knowledge base of `k` sentences: a 0/1
      vector of length `k`, or an error naming a target out of bounds. */
  function TargetMask(k: nat, targets: seq<int>): (r: Result<seq<int>, MaskError>)
    ensures r.Ok? ==> |r.value| == k && IsZeroOne(r.value)
    ensures r.Err? ==> r.error.size == k && r.error.index in targets
  {
    MarkAll(Zeros(k), targets)
  }

  /** Some target of the list lands on position `p`. */
  predicate Hits(targets: seq<int>, k: nat, p: nat) {
    exists t :: t in targets && InBounds(t, k) && Position(t, k) == p
  }

  predicate AllInBounds(targets: seq<int>, k: nat) {
    forall t :: t in targets ==> InBounds(t, k)
  }

  lemma MarkAllSpec(mask: seq<int>, targets: seq<int>)
    ensures MarkAll(mask, targets).Ok? <==> AllInBounds(targets, |mask|)
    ensures MarkAll(mask, targets).Err? ==>
              exists i :: 0 <= i < |targets| && !InBounds(targets[i], |mask|)
                          && MarkAll(mask, targets).error == IndexOutOfBounds(targets[i], |mask|)
                          && forall j :: 0 <= j < i ==> InBounds(targets[j], |mask|)
    ensures MarkAll(mask, targets).Ok? ==>
              var m := MarkAll(mask, targets).value;
              |m| == |mask| &&
              forall p :: 0 <= p < |mask| ==>
                m[p] == (if Hits(targets, |mask|, p) then 1 else mask[p])
  {
    MarkAllSucceeds(mask, targets);
    if MarkAll(mask, targets).Err? {
      var i := MarkAllFirstError(mask, targets);
    } else {
      MarkAllValues(mask, targets);
    }
  }

  lemma {:induction false} MarkAllSucceeds(mask: seq<int>, targets: seq<int>)
    ensures MarkAll(mask, targets).Ok? <==> AllInBounds(targets, |mask|)
    decreases |targets|
  {
    if targets != [] {
      var k := |mask|;
      var t := targets[0];
      assert t in targets;
      if InBounds(t, k) {
        var next := mask[Position(t, k) := 1];
        MarkAllSucceeds(next, targets[1..]);
        assert forall x :: x in targets <==> x == t || x in targets[1..] by {
          assert targets == [t] + targets[1..];
        }
      }
    }
  }

  lemma {:induction false} MarkAllFirstError(mask: seq<int>, targets: seq<int>) returns (i: nat)
    requires MarkAll(mask, targets).Err?
    ensures i < |targets| && !InBounds(targets[i], |mask|)
    ensures MarkAll(mask, targets).error == IndexOutOfBounds(targets[i], |mask|)
    ensures forall j :: 0 <= j < i ==> InBounds(targets[j], |mask|)
    decreases |targets|
  {
    var k := |mask|;
    var t := targets[0];
    if InBounds(t, k) {
      var next := mask[Position(t, k) := 1];
      assert MarkAll(mask, targets) == MarkAll(next, targets[1..]);
      var i' := MarkAllFirstError(next, targets[1..]);
      i := i' + 1;
      assert targets[i] == targets[1..][i'];
      forall j | 0 <= j < i ensures InBounds(targets[j], k) {
        if j > 0 {
          assert targets[j] == targets[1..][j - 1];
        }
      }
    } else {
      i := 0;
    }
  }

  lemma {:induction false} MarkAllValues(mask: seq<int>, targets: seq<int>)
    requires MarkAll(mask, targets).Ok?
    ensures var m := MarkAll(mask, targets).value;
              |m| == |mask| &&
              forall p :: 0 <= p < |mask| ==>
                m[p] == (if Hits(targets, |mask|, p) then 1 else mask[p])
    decreases |targets|
  {
    if targets != [] {
      var k := |mask|;
      var t := targets[0];
      var next := mask[Position(t, k) := 1];
      assert MarkAll(mask, targets) == MarkAll(next, targets[1..]);
      MarkAllValues(next, targets[1..]);
      var m := MarkAll(mask, targets).value;
      forall p | 0 <= p < k
        ensures m[p] == (if Hits(targets, k, p) then 1 else mask[p])
      {
        if Hits(targets[1..], k, p) {
          var u :| u in targets[1..] && InBounds(u, k) && Position(u, k) == p;
          assert u in targets;
        } else if p == Position(t, k) {
          assert t in targets;
        } else {
          forall u | u in targets && InBounds(u, k) ensures Position(u, k) != p {
            if u != t {
              assert targets == [t] + targets[1..];
              assert u in targets[1..];
            }
          }
        }
      }
    } else {
      forall p | 0 <= p < |mask| ensures !Hits(targets, |mask|, p) { }
    }
  }

  /** A sample's mask exists exactly when every target index is accepted;
      it then has one entry per knowledge-base sentence, holding 1 where a
      target lands and 0 elsewhere. The error names the first index that is
      out of bounds. */
  lemma TargetMaskSpec(k: nat, targets: seq<int>)
    ensures TargetMask(k, targets).Ok? <==> AllInBounds(targets, k)
    ensures TargetMask(k, targets).Err? ==>
              exists i :: 0 <= i < |targets| && !InBounds(targets[i], k)
                          && TargetMask(k, targets).error == IndexOutOfBounds(targets[i], k)
                          && forall j :: 0 <= j < i ==> InBounds(targets[j], k)
    ensures TargetMask(k, targets).Ok? ==>
              var m := TargetMask(k, targets).value;
              |m| == k && forall p :: 0 <= p < k ==> m[p] == (if Hits(targets, k, p) then 1 else 0)
  {
    MarkAllSpec(Zeros(k), targets);
  }

  /** For indices in `[0, k)`: position `p` of the mask is 1 exactly when `p`
      is one of the targets, and 0 otherwise. */
  lemma MaskMembership(k: nat, targets: seq<int>, p: nat)
    requires forall t :: t in targets ==> 0 <= t < k
    requires p < k
    ensures TargetMask(k, targets).Ok? && |TargetMask(k, targets).value| == k
    ensures TargetMask(k, targets).value[p] == (if p in targets then 1 else 0)
  {
    TargetMaskSpec(k, targets);
    if p in targets {
      assert Hits(targets, k, p);
    } else {
      forall u | u in targets ensures InBounds(u, k) && Position(u, k) != p { }
    }
  }

  /** The mask depends only on the set of targets: their order and any
      repetition do not matter. */
  lemma SameTargetsSameMask(k: nat, xs: seq<int>, ys: seq<int>)
    requires forall t :: t in xs <==> t in ys
    ensures TargetMask(k, xs).Ok? == TargetMask(k, ys).Ok?
    ensures TargetMask(k, xs).Ok? ==> TargetMask(k, xs) == TargetMask(k, ys)
  {
    TargetMaskSpec(k, xs);
    TargetMaskSpec(k, ys);
    if TargetMask(k, xs).Ok? {
      var a, b := TargetMask(k, xs).value, TargetMask(k, ys).value;
      forall p | 0 <= p < k ensures a[p] == b[p] {
        assert Hits(xs, k, p) == Hits(ys, k, p);
      }
      assert a == b;
    }
  }

  /** The list with repeated entries dropped: the same indices, each once. */
  function Dedup(xs: seq<int>): (r: seq<int>)
    ensures forall t :: t in r <==> t in xs
    ensures forall i, j :: 0 <= i < j < |r| ==> r[i] != r[j]
  {
    if xs == [] then []
    else
      var rest := Dedup(xs[..|xs| - 1]);
      assert forall t :: t in xs <==> t in xs[..|xs| - 1] || t == xs[|xs| - 1] by {
        assert xs == xs[..|xs| - 1] + [xs[|xs| - 1]];
      }
      if xs[|xs| - 1] in rest then rest else rest + [xs[|xs| - 1]]
  }

  /** Repeated indices give the same mask as the deduplicated list, and are
      accepted exactly when the deduplicated list is. */
  lemma DedupSameMask(k: nat, xs: seq<int>)
    ensures TargetMask(k, Dedup(xs)).Ok? == TargetMask(k, xs).Ok?
    ensures TargetMask(k, xs).Ok? ==> TargetMask(k, Dedup(xs)) == TargetMask(k, xs)
  {
    SameTargetsSameMask(k, Dedup(xs), xs);
  }

  /** The mask of a sample with no targets is all zeros. */
  lemma EmptyTargetsMask(k: nat)
    ensures TargetMask(k, []) == Ok(Zeros(k))
  {
  }

  // ---------------------------------------------------------------------
  // The in-place construction the loader runs
  // ---------------------------------------------------------------------

  /** `target_mask = np.zeros(k); target_mask[targets] = 1`. */
  method BuildMask(k: nat, targets: seq<int>) returns (r: Result<seq<int>, MaskError>)
    ensures r == TargetMask(k, targets)
  {
    var mask := new int[k](_ => 0);
    assert mask[..] == Zeros(k);
    var i := 0;
    while i < |targets|
      invariant 0 <= i <= |targets|
      invariant mask.Length == k
      invariant MarkAll(mask[..], targets[i..]) == TargetMask(k, targets)
    {
      var t := targets[i];
      if !InBounds(t, k) {
        return Err(IndexOutOfBounds(t, k));
      }
      mask[Position(t, k)] := 1;
      assert targets[i..][1..] == targets[i + 1..];
      i := i + 1;
    }
    return Ok(mask[..]);
  }

  /** The masks of all samples, in sample order; the first failing sample
      stops it. There is one mask per sample, each of length `k`. */
  function MemoryTargets(k: nat, targetLists: seq<seq<int>>): (r: Result<seq<seq<int>>, MaskError>)
    ensures r.Ok? ==> |r.value| == |targetLists| && forall i :: 0 <= i < |r.value| ==> |r.value[i]| == k
    ensures r.Err? ==> r.error.size == k
    decreases |targetLists|
  {
    if targetLists == [] then Ok([])
    else
      var row :- TargetMask(k, targetLists[0]);
      var rest :- MemoryTargets(k, targetLists[1..]);
      Ok([row] + rest)
  }

  /** `memory_targets` exists exactly when every sample's mask does; it then
      has one row per sample, in sample order, each that sample's mask and
      each of length `k`. */
  lemma {:induction false} MemoryTargetsSpec(k: nat, targetLists: seq<seq<int>>)
    ensures MemoryTargets(k, targetLists).Ok? <==>
              forall i :: 0 <= i < |targetLists| ==> TargetMask(k, targetLists[i]).Ok?
    ensures MemoryTargets(k, targetLists).Ok? ==>
              var rows := MemoryTargets(k, targetLists).value;
              |rows| == |targetLists| &&
              forall i :: 0 <= i < |rows| ==>
                rows[i] == TargetMask(k, targetLists[i]).value && |rows[i]| == k
    decreases |targetLists|
  {
    if targetLists != [] {
      MemoryTargetsSpec(k, targetLists[1..]);
      TargetMaskSpec(k, targetLists[0]);
      forall i | 1 <= i < |targetLists| ensures TargetMask(k, targetLists[i]).Ok? ==> |TargetMask(k, targetLists[i]).value| == k {
        TargetMaskSpec(k, targetLists[i]);
      }
      assert forall i :: 1 <= i < |targetLists| ==> targetLists[1..][i - 1] == targetLists[i];
    }
  }

  /** The loader's loop: one mask per sample, appended in order. */
  method BuildMemoryTargets(k: nat, targetLists: seq<seq<int>>) returns (r: Result<seq<seq<int>>, MaskError>)
    ensures r == MemoryTargets(k, targetLists)
  {
    var rows: seq<seq<int>> := [];
    var i := 0;
    assert targetLists[0..] == targetLists;
    if MemoryTargets(k, targetLists).Ok? {
      assert [] + MemoryTargets(k, targetLists).value == MemoryTargets(k, targetLists).value;
    }
    while i < |targetLists|
      invariant 0 <= i <= |targetLists|
      invariant MemoryTargets(k, targetLists) ==
                  match MemoryTargets(k, targetLists[i..])
                  case Ok(rest) => Ok(rows + rest)
                  case Err(e) => Err(e)
    {
      var row := BuildMask(k, targetLists[i]);
      assert targetLists[i..][0] == targetLists[i];
      assert targetLists[i..][1..] == targetLists[i + 1..];
      if row.Err? {
        return Err(row.error);
      }
      ghost var rest := MemoryTargets(k, targetLists[i + 1..]);
      if rest.Ok? {
        assert rows + [row.value] + rest.value == rows + ([row.value] + rest.value);
      }
      rows := rows + [row.value];
      i := i + 1;
    }
    assert targetLists[i..] == [];
    assert rows + [] == rows;
    return Ok(rows);
  }
}
