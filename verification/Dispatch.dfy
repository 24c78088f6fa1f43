/** Distributed execution: pad the batch, send each worker a chunk, let it work
    row by row, concatenate the answers and take the padding off again. */
module Dispatch {
  import opened Options
  import opened Results
  import opened Sequences
  import opened RowMaps
  import opened DataProto
  import opened DataChunks

  // ----- padding to a divisor -----

  /** Indices `0..m` wrapped around at `n`. */
  function Wrapped(n: nat, m: nat): (idx: seq<nat>)
    requires n > 0
    ensures |idx| == m && Within(idx, n)
    ensures forall j :: 0 <= j < m ==> idx[j] == j % n
  {
    seq(m, j => j % n)
  }

  /** A whole or partial round more. */
  lemma WrapAround(n: nat, q: nat, take: nat)
    requires n > 0 && take <= n
    ensures Wrapped(n, q * n + take) == Wrapped(n, q * n) + PySlice<nat>(Range(n), 0, take)
  {
    var m := q * n;
    var a, b := Wrapped(n, m + take), Wrapped(n, m) + PySlice<nat>(Range(n), 0, take);
    assert |a| == |b|;
    forall i | 0 <= i < m + take ensures a[i] == b[i] {
      if i >= m {
        DivModUnique(q, i - m, n);
      }
    }
  }

  method PadDataprotoToDivisor<R>(d: Data<R>, ghost n: nat, divisor: nat) returns (r: Result<(Data<R>, nat)>)
    requires Aligned(d, n) && (HasColumns(d) || n == 0)
    ensures r.Ok? <==> divisor > 0
    ensures r.Err? ==> r.error == ZeroDivisionError
    ensures r.Ok? ==> IsPadded(d, n, divisor, r.value.0, r.value.1)
  {
    hide Rows, Concat, Wrapped, Fits, Aligned, ArePieces;
    if divisor == 0 {
      return Err(ZeroDivisionError);
    }
    var rows := Length(d);
    if rows % divisor != 0 {
      var pad := divisor - rows % divisor;
      assert n % divisor != 0 && rows == n;
      PadFills(n, divisor);
      ghost var idxs;
      var pieces;
      pieces, idxs := WithPadding(d, n, pad);
      ConcatRows(d, idxs, pieces);
      r := Ok((Concat(pieces).value, pad));
    } else {
      NoPadding(d, n, divisor);
      r := Ok((d, 0));
    }
  }

  lemma NoPadding<R>(d: Data<R>, n: nat, divisor: nat)
    requires Aligned(d, n) && divisor > 0 && n % divisor == 0
    ensures IsPadded(d, n, divisor, d, 0)
  {
    hide Rows, Aligned, Wrapped;
    AllRows(d, n);
    if n > 0 {
      WholeRound(n);
    }
  }

  lemma WholeRound(n: nat)
    requires n > 0
    ensures Wrapped(n, n + 0) == Wrapped(n, n) == Range(n)
  {
    forall j | 0 <= j < n ensures Wrapped(n, n)[j] == Range(n)[j] {
      SmallRemainder(j, n);
    }
    hide Wrapped, Range;
  }

  lemma SmallRemainder(j: nat, n: nat)
    requires j < n
    ensures j % n == j
  {
  }

  /** The least padding that makes the length divisible; row `j` of the padded
      batch is row `j % n`. An empty batch stays as it is. */
  ghost predicate IsPadded<R>(d: Data<R>, n: nat, divisor: nat, padded: Data<R>, pad: nat)
    requires Aligned(d, n) && divisor > 0
  {
    && pad < divisor && (n + pad) % divisor == 0
    && padded == if n == 0 then d else Rows(d, Wrapped(n, n + pad))
  }

  /** The batch, followed by slices from its start that hold `pad` rows in all. */
  method WithPadding<R>(d: Data<R>, ghost n: nat, pad: nat) returns (pieces: seq<Data<R>>, ghost idxs: seq<seq<nat>>)
    requires Aligned(d, n) && HasColumns(d) && n > 0
    ensures ArePieces(d, idxs, pieces) && Flatten<nat>(idxs) == Wrapped(n, n + pad)
  {
    hide Rows, Fits, ArePieces, Slice, PySlice, Wrapped, Range, Flatten;
    var rows := Length(d);
    pieces, idxs := [d], [Range(n)];
    ghost var q := 1;
    WholeBatch(d, n);
    var remaining: nat := pad;
    while remaining > 0
      invariant remaining <= pad
      invariant ArePieces(d, idxs, pieces)
      invariant Flatten<nat>(idxs) == Wrapped(n, n + (pad - remaining))
      invariant remaining > 0 ==> n + (pad - remaining) == q * n
    {
      var take := if remaining < rows then remaining else rows;
      WrapAround(n, q, take);
      PickFirst(d, n, idxs, pieces, take);
      pieces, idxs := pieces + [Slice(d, 0, take)], idxs + [PySlice<nat>(Range(n), 0, take)];
      assert q * n + n == (q + 1) * n;
      remaining, q := remaining - take, q + 1;
    }
    assert n + (pad - remaining) == n + pad;
  }

  lemma WholeBatch<R>(d: Data<R>, n: nat)
    requires Aligned(d, n) && n > 0
    ensures ArePieces(d, [Range(n)], [d]) && Flatten<nat>([Range(n)]) == Wrapped(n, n)
  {
    AllRows(d, n);
    assert Flatten<nat>([Range(n)]) == Range(n) + Flatten<nat>([Range(n)][1..]);
    assert Wrapped(n, n) == Range(n);
  }

  lemma PadFills(n: nat, divisor: nat)
    requires divisor > 0 && n % divisor != 0
    ensures (n + (divisor - n % divisor)) % divisor == 0
  {
    var q := n / divisor;
    assert n + (divisor - n % divisor) == (q + 1) * divisor;
    DivModUnique(q + 1, 0, divisor);
  }

  lemma PickFirst<R>(d: Data<R>, n: nat, idxs: seq<seq<nat>>, pieces: seq<Data<R>>, take: nat)
    requires Aligned(d, n) && ArePieces(d, idxs, pieces)
    ensures ArePieces(d, idxs + [PySlice<nat>(Range(n), 0, take)], pieces + [Slice(d, 0, take)])
    ensures Flatten<nat>(idxs + [PySlice<nat>(Range(n), 0, take)]) == Flatten<nat>(idxs) + PySlice<nat>(Range(n), 0, take)
  {
    SliceIsRows(d, n, 0, take);
    FlattenAppend<nat>(idxs, PySlice<nat>(Range(n), 0, take));
  }

  function UnpadDataproto<R>(d: Data<R>, pad: nat): Data<R> {
    if pad != 0 then Slice(d, 0, -(pad as int)) else d
  }

  /** Taking the padding off leaves the first rows. */
  lemma UnpadIsPrefix<R>(d: Data<R>, m: nat, pad: nat)
    requires Aligned(d, m) && pad <= m
    ensures UnpadDataproto(d, pad) == Rows(d, Range(m - pad))
  {
    if pad == 0 {
      AllRows(d, m);
    } else {
      SliceIsRows(d, m, 0, -(pad as int));
      assert PySlice<nat>(Range(m), 0, -(pad as int)) == Range(m - pad);
    }
  }

  // ----- row-wise workers -----

  datatype Row<+R> = Row(batch: map<string, R>, other: map<string, R>)

  function RowAt<R>(d: Data<R>, j: nat): Row<R>
    requires d.batch.Some? ==> forall k :: k in d.batch.value.cols ==> j < |d.batch.value.cols[k]|
    requires forall k :: k in d.other ==> j < |d.other[k]|
  {
    Row(if d.batch.None? then map[] else map k | k in d.batch.value.cols :: d.batch.value.cols[k][j],
        map k | k in d.other :: d.other[k][j])
  }

  /** A worker's output columns, and each output row as a function of the input row. */
  datatype Worker<!R, +S> = Worker(tensorKeys: Option<set<string>>, arrayKeys: set<string>,
                                   onTensor: (Row<R>, string) -> S, onArray: (Row<R>, string) -> S)

  function Work<R, S>(d: Data<R>, n: nat, f: (Row<R>, string) -> S, k: string): (c: seq<S>)
    requires Aligned(d, n)
    ensures |c| == n && forall j :: 0 <= j < n ==> c[j] == f(RowAt(d, j), k)
  {
    seq(n, j requires 0 <= j < n => f(RowAt(d, j), k))
  }

  /** The worker on a batch of `n` rows. */
  function Apply<R, S>(w: Worker<R, S>, d: Data<R>, n: nat): (r: Data<S>)
    requires Aligned(d, n)
    ensures Aligned(r, n)
  {
    Data(if w.tensorKeys.None? then None else Some(Table(n, map k | k in w.tensorKeys.value :: Work(d, n, w.onTensor, k))),
         map k | k in w.arrayKeys :: Work(d, n, w.onArray, k))
  }

  lemma RowAtRows<R>(d: Data<R>, n: nat, idx: seq<nat>, j: nat)
    requires Aligned(d, n) && Within(idx, n) && j < |idx|
    ensures RowAt(Rows(d, idx), j) == RowAt(d, idx[j])
  {
    var a, b := RowAt(Rows(d, idx), j), RowAt(d, idx[j]);
    assert a.other == b.other;
    assert a.batch == b.batch;
  }

  lemma WorkRows<R, S>(d: Data<R>, n: nat, idx: seq<nat>, f: (Row<R>, string) -> S, k: string)
    requires Aligned(d, n) && Within(idx, n)
    ensures Work(Rows(d, idx), |idx|, f, k) == Pick(Work(d, n, f, k), idx)
  {
    var a, b := Work(Rows(d, idx), |idx|, f, k), Pick(Work(d, n, f, k), idx);
    forall j | 0 <= j < |idx| ensures a[j] == b[j] {
      RowAtRows(d, n, idx, j);
    }
  }

  /** Working on some rows gives those rows of the answer. */
  lemma ApplyRows<R, S>(w: Worker<R, S>, d: Data<R>, n: nat, idx: seq<nat>)
    requires Aligned(d, n) && Within(idx, n)
    ensures Apply(w, Rows(d, idx), |idx|) == Rows(Apply(w, d, n), idx)
  {
    var a, b := Apply(w, Rows(d, idx), |idx|), Rows(Apply(w, d, n), idx);
    forall k: string ensures Work(Rows(d, idx), |idx|, w.onArray, k) == Pick(Work(d, n, w.onArray, k), idx) {
      WorkRows(d, n, idx, w.onArray, k);
    }
    SameColumns(a.other, b.other);
    if w.tensorKeys.Some? {
      forall k: string ensures Work(Rows(d, idx), |idx|, w.onTensor, k) == Pick(Work(d, n, w.onTensor, k), idx) {
        WorkRows(d, n, idx, w.onTensor, k);
      }
      SameColumns(a.batch.value.cols, b.batch.value.cols);
    }
  }

  // ----- dispatch refines local execution -----

  /** One chunk to each worker, and the answers in the workers' order. */
  method RunWorkers<R, S>(w: Worker<R, S>, chunks: seq<Data<R>>, ghost d: Data<R>, ghost n: nat, ghost idxs: seq<seq<nat>>)
    returns (outputs: seq<Data<S>>)
    requires Aligned(d, n) && ArePieces(d, idxs, chunks) && forall i :: 0 <= i < |idxs| ==> Within(idxs[i], n)
    requires HasColumns(d)
    ensures ArePieces(Apply(w, d, n), idxs, outputs)
  {
    outputs := [];
    for i := 0 to |chunks|
      invariant |outputs| == i
      invariant forall j :: 0 <= j < i ==> outputs[j] == Rows(Apply(w, d, n), idxs[j])
    {
      var rows := Length(chunks[i]);
      ApplyRows(w, d, n, idxs[i]);
      outputs := outputs + [Apply(w, chunks[i], rows)];
    }
  }

  /** Pieces that cover all rows concatenate to the whole. */
  lemma Rejoin<R>(d: Data<R>, n: nat, idxs: seq<seq<nat>>, pieces: seq<Data<R>>)
    requires Aligned(d, n) && ArePieces(d, idxs, pieces) && Flatten<nat>(idxs) == Range(n)
    ensures Concat(pieces) == Ok(d)
  {
    ConcatRows(d, idxs, pieces);
    AllRows(d, n);
  }

  lemma FirstRound(n: nat, m: nat)
    requires 0 < n <= m
    ensures Pick(Wrapped(n, m), Range(n)) == Range(n)
  {
    forall j | 0 <= j < n ensures Wrapped(n, m)[j] == Range(n)[j] {
      SmallRemainder(j, n);
    }
    hide Wrapped, Range;
  }

  /** Unpadding undoes padding. */
  lemma UnpadUndoesPad<R>(d: Data<R>, n: nat, pad: nat)
    requires Aligned(d, n) && n > 0
    ensures UnpadDataproto(Rows(d, Wrapped(n, n + pad)), pad) == d
  {
    hide Rows, UnpadDataproto, Wrapped, Pick;
    var idx := Wrapped(n, n + pad);
    UnpadIsPrefix(Rows(d, idx), n + pad, pad);
    assert n + pad - pad == n;
    RowsOfRows(d, idx, Range(n));
    FirstRound(n, n + pad);
    AllRows(d, n);
  }

  lemma ChunksWithin(n: nat, k: nat, tensors: bool)
    requires k > 0
    ensures forall i :: 0 <= i < |ChunkIndices(n, k, tensors)| ==> Within(ChunkIndices(n, k, tensors)[i], n)
  {
    ChunksCover(n, k, tensors);
    forall i | 0 <= i < |ChunkIndices(n, k, tensors)| ensures Within(ChunkIndices(n, k, tensors)[i], n) {
      PieceWithin(ChunkIndices(n, k, tensors), n, i);
    }
  }

  /** Chunks for `k` workers, row-wise work and concatenation: the same as
      working on the whole batch, whenever the chunks can be made. */
  method DispatchChunks<R, S>(w: Worker<R, S>, d: Data<R>, ghost n: nat, k: nat, padding: bool) returns (r: Result<Data<S>>)
    requires k > 0 && Aligned(d, n) && HasColumns(d)
    ensures r.Ok? <==> n % k == 0 || (padding && (d.batch.None? || (k - 1) * CeilDiv(n, k) < n))
    ensures r.Ok? ==> r.value == Apply(w, d, n)
  {
    var pieces := Chunk(d, n, k, padding);
    if pieces.Err? {
      return Err(pieces.error);
    }
    ghost var all := ChunkIndices(n, k, d.batch.Some?);
    ChunksWithin(n, k, d.batch.Some?);
    ChunksCover(n, k, d.batch.Some?);
    var outputs := RunWorkers(w, pieces.value, d, n, all);
    Rejoin(Apply(w, d, n), n, all, outputs);
    r := Concat(outputs);
  }

  /** Padding, dispatch to `k` workers and unpadding amount to working on the
      original batch. */
  method DispatchPadded<R, S>(w: Worker<R, S>, d: Data<R>, ghost n: nat, k: nat) returns (r: Result<Data<S>>)
    requires k > 0 && n > 0 && Aligned(d, n) && HasColumns(d)
    ensures r == Ok(Apply(w, d, n))
  {
    hide Rows, Apply, Concat, UnpadDataproto;
    var padding := PadDataprotoToDivisor(d, n, k);
    var padded, pad := padding.value.0, padding.value.1;
    var joined := DispatchChunks(w, padded, n + pad, k, false);
    ApplyRows(w, d, n, Wrapped(n, n + pad));
    UnpadUndoesPad(Apply(w, d, n), n, pad);
    r := Ok(UnpadDataproto(joined.value, pad));
  }
}
