/** The batch as an object that is reordered and padded in place, and the two
    callers that depend on it: dispatch with automatic padding, and the
    micro-batched forward pass. */
module BatchObject {
  import opened Options
  import opened Results
  import opened Sequences
  import opened RowMaps
  import opened DataProto
  import opened DataChunks
  import opened DataRepeat
  import opened Dispatch

  class Batch<R> {
    var batch: Option<Table<R>>
    var other: Columns<R>

    function Contents(): Data<R>
      reads this
    {
      Data(batch, other)
    }

    constructor (d: Data<R>)
      ensures Contents() == d
    {
      batch, other := d.batch, d.other;
    }

    /** Rows in the order of `indices`; without tensors this fails. */
    method Reorder(indices: seq<nat>, ghost n: nat) returns (failed: Option<Error>)
      requires Aligned(Contents(), n)
      modifies this
      ensures old(batch).None? ==> failed == Some(TypeError) && Contents() == old(Contents())
      ensures old(batch).Some? && Within(indices, n) ==> failed == None && Contents() == Rows(old(Contents()), indices)
      ensures failed == Some(IndexError) ==> !Within(indices, n) && Contents() == old(Contents())
    {
      if batch.None? {
        return Some(TypeError);
      }
      ghost var before := Contents();
      if Within(indices, n) {
        SelectColumnsIsPick(batch.value.cols, indices, indices);
        SelectColumnsIsPick(other, indices, indices);
      }
      var cols := SelectColumns(batch.value.cols, indices);
      var others := SelectColumns(other, indices);
      if cols.Err? || others.Err? {
        return Some(IndexError);
      }
      batch := Some(Table(|indices|, cols.value));
      other := others.value;
      return None;
    }

    /** Copies of the first or the last row at the end. */
    method Padding(size: nat, first: bool, ghost n: nat) returns (failed: Option<Error>)
      requires Aligned(Contents(), n) && HasColumns(Contents()) && n > 0
      modifies this
      ensures failed == None
      ensures Contents() == Rows(old(Contents()), PaddedIndices(n, size, first))
    {
      failed := None;
      var d := Contents();
      var rows := Length(d);
      PaddingRows(d, n, size, first);
      if size == 0 {
        return;
      }
      var candidate := SelectIdxs(d, [if first then 0 else rows - 1]);
      var padded := Concat([d, Repeat(candidate.value, size, true)]);
      batch, other := padded.value.batch, padded.value.other;
    }
  }

  function PaddedIndices(n: nat, size: nat, first: bool): (idx: seq<nat>)
    requires n > 0
    ensures |idx| == n + size && Within(idx, n)
    ensures forall j :: 0 <= j < n ==> idx[j] == j
    ensures forall j :: n <= j < n + size ==> idx[j] == if first then 0 else n - 1
  {
    Range(n) + Copies<nat>(if first then 0 else n - 1, size)
  }

  lemma PaddingRows<R>(d: Data<R>, n: nat, size: nat, first: bool)
    requires Aligned(d, n) && n > 0
    ensures var candidate := SelectIdxs(d, [if first then 0 else n - 1]);
            && candidate.Ok?
            && Concat([d, Repeat(candidate.value, size, true)]) == Ok(Rows(d, PaddedIndices(n, size, first)))
    ensures size == 0 ==> Rows(d, PaddedIndices(n, size, first)) == d
  {
    var at: nat := if first then 0 else n - 1;
    AllRows(d, n);
    CandidateCopies(d, n, at, size);
    AppendCopies(d, n, at, size);
    assert PaddedIndices(n, 0, first) == Range(n);
  }

  lemma FlattenTwo(a: seq<nat>, b: seq<nat>)
    ensures Flatten<nat>([a, b]) == a + b
  {
    assert [a, b][1..] == [b] && [b][1..] == [];
    assert Flatten<nat>([b]) == b + Flatten<nat>([b][1..]);
    assert Flatten<nat>([a, b]) == a + Flatten<nat>([a, b][1..]);
  }

  lemma CandidateCopies<R>(d: Data<R>, n: nat, at: nat, size: nat)
    requires Aligned(d, n) && at < n
    ensures SelectIdxs(d, [at]).Ok?
    ensures Repeat(SelectIdxs(d, [at]).value, size, true) == Rows(d, Copies<nat>(at, size))
  {
    var one: seq<nat> := [at];
    SelectIsRows(d, one, one);
    RepeatIsRows(Rows(d, one), 1, size, true);
    RowsOfRows(d, one, Interleaved(1, size));
    assert Pick(one, Interleaved(1, size)) == Copies<nat>(at, size);
  }

  lemma AppendCopies<R>(d: Data<R>, n: nat, at: nat, size: nat)
    requires Aligned(d, n) && at < n
    ensures Fits(d, Range(n) + Copies<nat>(at, size))
    ensures Concat([d, Rows(d, Copies<nat>(at, size))]) == Ok(Rows(d, Range(n) + Copies<nat>(at, size)))
  {
    var idxs := [Range(n), Copies<nat>(at, size)];
    AllRows(d, n);
    ConcatRows(d, idxs, [d, Rows(d, Copies<nat>(at, size))]);
    FlattenTwo(Range(n), Copies<nat>(at, size));
  }

  /** Reordering by a permutation only moves rows. */
  lemma ReorderKeepsRows<R>(d: Data<R>, n: nat, indices: seq<nat>)
    requires Aligned(d, n) && IsPermutation(indices, n)
    ensures Within(indices, n)
    ensures forall k :: k in d.other ==> multiset(Rows(d, indices).other[k]) == multiset(d.other[k])
    ensures d.batch.Some? ==> forall k :: k in d.batch.value.cols ==>
              multiset(Rows(d, indices).batch.value.cols[k]) == multiset(d.batch.value.cols[k])
  {
    PermutationEntries(indices, n);
    forall i | 0 <= i < |indices| ensures indices[i] < n {
      assert indices[i] in indices;
    }
    forall k | k in d.other ensures multiset(Rows(d, indices).other[k]) == multiset(d.other[k]) {
      PickPermuted(d.other[k], indices);
    }
    if d.batch.Some? {
      forall k | k in d.batch.value.cols
        ensures multiset(Rows(d, indices).batch.value.cols[k]) == multiset(d.batch.value.cols[k])
      {
        PickPermuted(d.batch.value.cols[k], indices);
      }
    }
  }

  // ----- dispatch with automatic padding -----

  /** The batch is padded in place with its last row, and stays padded; the
      workers' answer has the padding rows dropped. */
  method DispatchAutoPadded<R, S>(w: Worker<R, S>, b: Batch<R>, ghost n: nat, k: nat) returns (r: Result<Data<S>>)
    requires k > 0 && n > 0 && Aligned(b.Contents(), n) && HasColumns(b.Contents())
    modifies b
    ensures r == Ok(Apply(w, old(b.Contents()), n))
    ensures b.Contents() == Rows(old(b.Contents()), PaddedIndices(n, (k - n % k) % k, false))
  {
    ghost var d := b.Contents();
    var rows := Length(b.Contents());
    var pad := if rows % k > 0 then k - rows % k else 0;
    AutoPadSize(n, k, pad);
    var failed := b.Padding(pad, false, n);
    var joined := DispatchChunks(w, b.Contents(), n + pad, k, true);
    ghost var idx := PaddedIndices(n, pad, false);
    ApplyRows(w, d, n, idx);
    FirstRows(Apply(w, d, n), n, idx);
    if pad > 0 {
      var kept := rows + pad - pad;
      hide SelectIdxs, PaddedIndices;
      FirstSelected(joined.value, n + pad, n);
      r := SelectIdxs(joined.value, Range(kept));
    } else {
      assert idx == Range(n);
      r := joined;
    }
  }

  lemma AutoPadSize(n: nat, k: nat, pad: nat)
    requires k > 0 && pad == if n % k > 0 then k - n % k else 0
    ensures (n + pad) % k == 0 && pad == (k - n % k) % k
  {
    if n % k > 0 {
      PadFills(n, k);
    }
  }

  lemma FirstSelected<R>(d: Data<R>, m: nat, n: nat)
    requires Aligned(d, m) && n <= m
    ensures Fits(d, Range(n)) && SelectIdxs(d, Range(n)) == Ok(Rows(d, Range(n)))
  {
    SelectIsRows(d, Range(n), Range(n));
  }

  lemma FirstRows<R>(d: Data<R>, n: nat, idx: seq<nat>)
    requires Aligned(d, n) && Within(idx, n) && |idx| >= n && forall j :: 0 <= j < n ==> idx[j] == j
    ensures Rows(Rows(d, idx), Range(n)) == d
    ensures Rows(d, Range(n)) == d
  {
    RowsOfRows(d, idx, Range(n));
    assert Pick(idx, Range(n)) == Range(n);
    AllRows(d, n);
  }

  // ----- the micro-batched forward pass -----

  function Forward<R, L>(f: Row<R> -> L, d: Data<R>, n: nat): (out: seq<L>)
    requires Aligned(d, n)
    ensures |out| == n && forall j :: 0 <= j < n ==> out[j] == f(RowAt(d, j))
  {
    seq(n, j requires 0 <= j < n => f(RowAt(d, j)))
  }

  lemma ForwardRows<R, L>(f: Row<R> -> L, d: Data<R>, n: nat, idx: seq<nat>)
    requires Aligned(d, n) && Within(idx, n)
    ensures Forward(f, Rows(d, idx), |idx|) == Pick(Forward(f, d, n), idx)
  {
    var a, b := Forward(f, Rows(d, idx), |idx|), Pick(Forward(f, d, n), idx);
    forall j | 0 <= j < |idx| ensures a[j] == b[j] {
      RowAtRows(d, n, idx, j);
    }
  }

  /** Micro-batch by micro-batch gives the log-probabilities of the whole
      batch in its order; there is nothing to concatenate for no rows. */
  method ComputeLogProb<R, L>(f: Row<R> -> L, d: Data<R>, ghost n: nat, microBatchSize: nat) returns (r: Result<seq<L>>)
    requires microBatchSize > 0 && Aligned(d, n) && HasColumns(d)
    ensures r == if n == 0 then Err(RuntimeError) else Ok(Forward(f, d, n))
  {
    var microBatches := SplitData(d, n, microBatchSize);
    ghost var all := Split<nat>(Range(n), microBatchSize);
    SplitFlatten<nat>(Range(n), microBatchSize);
    ghost var whole := Forward(f, d, n);
    var logProbs: seq<seq<L>> := [];
    for i := 0 to |microBatches|
      invariant |logProbs| == i && ArePicks(whole, all, logProbs)
    {
      var rows := Length(microBatches[i]);
      PieceWithin(all, n, i);
      ForwardNext(f, d, n, all, logProbs);
      logProbs := logProbs + [Forward(f, microBatches[i], rows)];
    }
    if logProbs == [] {
      return Err(RuntimeError);
    }
    hide Forward, Split, Flatten;
    FlattenPicks(whole, all, logProbs);
    assert Pick(whole, Range(n)) == whole;
    r := Ok(Flatten(logProbs));
  }

  ghost predicate ArePicks<T>(whole: seq<T>, all: seq<seq<nat>>, parts: seq<seq<T>>) {
    |parts| <= |all| && forall j :: 0 <= j < |parts| ==> Within(all[j], |whole|) && parts[j] == Pick(whole, all[j])
  }

  lemma ForwardNext<R, L>(f: Row<R> -> L, d: Data<R>, n: nat, all: seq<seq<nat>>, parts: seq<seq<L>>)
    requires Aligned(d, n) && |parts| < |all| && Within(all[|parts|], n)
    requires ArePicks(Forward(f, d, n), all, parts)
    ensures var idx := all[|parts|]; ArePicks(Forward(f, d, n), all, parts + [Forward(f, Rows(d, idx), |idx|)])
  {
    ForwardRows(f, d, n, all[|parts|]);
  }
}
