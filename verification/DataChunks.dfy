/** Cutting a batch: `chunk` and `split`, with the tensor library's cut on one
    side and the array library's on the other. */
module DataChunks {
  import opened Results
  import opened Sequences
  import opened RowMaps
  import opened DataProto

  // ----- the array library's sections -----

  /** Section sizes that differ by at most one, the larger ones first. */
  function SectionSizes(n: nat, k: nat): (sizes: seq<nat>)
    requires k > 0
    ensures |sizes| == k
  {
    seq(k, i => if i < n % k then n / k + 1 else n / k)
  }

  lemma {:induction false} SumOfSteps(sizes: seq<nat>, q: nat, r: nat)
    requires r <= |sizes|
    requires forall i :: 0 <= i < |sizes| ==> sizes[i] == if i < r then q + 1 else q
    ensures SumNat(sizes) == q * |sizes| + r
  {
    if sizes != [] {
      SumOfSteps(sizes[1..], q, if r > 0 then r - 1 else 0);
      assert q * |sizes| == q * (|sizes| - 1) + q;
    }
  }

  lemma SectionsSum(n: nat, k: nat)
    requires k > 0
    ensures SumNat(SectionSizes(n, k)) == n
  {
    SumOfSteps(SectionSizes(n, k), n / k, n % k);
  }

  function ArraySplit<T>(c: seq<T>, k: nat): (pieces: seq<seq<T>>)
    requires k > 0
    ensures |pieces| == k
  {
    SectionsSum(|c|, k);
    SplitFromLengths(c, 0, SectionSizes(|c|, k));
    SplitAt(c, CutsOf(SectionSizes(|c|, k)))
  }

  // ----- cuts are the same for every column -----

  lemma {:induction false} SplitPicked<T>(s: seq<T>, idx: seq<nat>, size: nat)
    requires Within(idx, |s|) && size > 0
    ensures var whole, parts := Split(Pick(s, idx), size), Split<nat>(idx, size);
            |whole| == |parts| && forall i :: 0 <= i < |parts| ==> Within(parts[i], |s|) && whole[i] == Pick(s, parts[i])
    decreases |idx|
  {
    if idx != [] {
      var c := if |idx| < size then |idx| else size;
      SplitPicked(s, idx[c..], size);
      assert Pick(s, idx)[c..] == Pick(s, idx[c..]);
      assert Pick(s, idx)[..c] == Pick(s, idx[..c]);
    }
  }

  lemma {:induction false} CutPicked<T>(s: seq<T>, idx: seq<nat>, at: nat, cuts: seq<nat>)
    requires Within(idx, |s|) && Monotone(cuts, at, |idx|)
    ensures var whole, parts := SplitFrom(Pick(s, idx), at, cuts), SplitFrom<nat>(idx, at, cuts);
            forall i :: 0 <= i < |parts| ==> Within(parts[i], |s|) && whole[i] == Pick(s, parts[i])
    decreases |cuts|
  {
    if cuts == [] {
      assert Pick(s, idx)[at..] == Pick(s, idx[at..]);
    } else {
      CutPicked(s, idx, cuts[0], cuts[1..]);
      var whole, parts := SplitFrom(Pick(s, idx), at, cuts), SplitFrom<nat>(idx, at, cuts);
      assert whole[0] == Pick(s, parts[0]);
      assert whole[1..] == SplitFrom(Pick(s, idx), cuts[0], cuts[1..]);
      assert parts[1..] == SplitFrom<nat>(idx, cuts[0], cuts[1..]);
      forall i | 0 <= i < |parts| ensures Within(parts[i], |s|) && whole[i] == Pick(s, parts[i]) {
        if i > 0 {
          assert parts[i] == parts[1..][i - 1] && whole[i] == whole[1..][i - 1];
        }
      }
    }
  }

  /** The rows that each of the `k` chunks holds. */
  function ChunkIndices(n: nat, k: nat, tensors: bool): seq<seq<nat>>
    requires k > 0
  {
    if tensors then TorchChunk<nat>(Range(n), k) else ArraySplit<nat>(Range(n), k)
  }

  /** The chunks hold all rows, in order. */
  lemma ChunksCover(n: nat, k: nat, tensors: bool)
    requires k > 0
    ensures Flatten<nat>(ChunkIndices(n, k, tensors)) == Range(n)
  {
    var all: seq<nat> := Range(n);
    if !tensors {
      SectionsSum(n, k);
      SplitFromLengths<nat>(all, 0, SectionSizes(n, k));
      assert all[0..] == all;
    } else if n > 0 {
      SplitFlatten<nat>(all, CeilDiv(n, k));
    } else {
      FlattenUniformLength<nat>(ChunkIndices(n, k, tensors), 0);
      assert all == [];
    }
  }

  /** The tensor library makes all `k` chunks exactly when the first `k - 1`
      full ones leave a row over (or there is no row at all). */
  lemma AllChunksExist(n: nat, k: nat)
    requires k > 0
    ensures |TorchChunk<nat>(Range(n), k)| <= k
    ensures |TorchChunk<nat>(Range(n), k)| == k <==> n == 0 || (k - 1) * CeilDiv(n, k) < n
  {
    if n > 0 {
      var size := CeilDiv(n, k);
      SplitCount<nat>(Range(n), size);
      CeilDivTwice(n, k);
    }
  }

  lemma CeilDivTwice(n: nat, k: nat)
    requires n > 0 && k > 0
    ensures CeilDiv(n, CeilDiv(n, k)) <= k
    ensures CeilDiv(n, CeilDiv(n, k)) == k <==> (k - 1) * CeilDiv(n, k) < n
  {
    var size := CeilDiv(n, k);
    var count := CeilDiv(n, size);
    CountBounds(n, k, size, count);
  }

  lemma CountBounds(n: nat, k: nat, size: nat, count: nat)
    requires n > 0 && k > 0 && size > 0 && size * k >= n
    requires count > 0 && count * size >= n && (count - 1) * size < n
    ensures count <= k && (count == k <==> (k - 1) * size < n)
  {
    MulOrder(k, count - 1, size);
    MulOrder(count, k - 1, size);
    assert size * k == k * size;
  }

  lemma EvenChunksExist(n: nat, k: nat)
    requires k > 0 && n % k == 0
    ensures |TorchChunk<nat>(Range(n), k)| == k
  {
    if n > 0 {
      var q := n / k;
      assert n == q * k;
      assert q > 0;
      assert (q - 1) * k < n;
      CeilDivIs(n, k, q);
      assert (k - 1) * q == n - q;
    }
    AllChunksExist(n, k);
  }

  // ----- chunk -----

  function Nth<T>(pieces: seq<seq<T>>, i: nat): seq<T> {
    if i < |pieces| then pieces[i] else []
  }

  function CutAt<T>(c: seq<T>, cuts: seq<nat>, i: nat): seq<T> {
    if Monotone(cuts, 0, |c|) then Nth(SplitAt(c, cuts), i) else []
  }

  /** Chunk `i`: the tensor side as the tensor library cuts it, the array side
      cut at the running totals of those pieces, or into sections of its own. */
  function Piece<R>(d: Data<R>, k: nat, i: nat): Data<R>
    requires k > 0
    requires d.batch.Some? ==> TorchChunk<nat>(Range(d.batch.value.size), k) != []
  {
    if d.batch.Some? then
      var sizes := Lengths<nat>(TorchChunk<nat>(Range(d.batch.value.size), k));
      OnColumns(d, if i < |sizes| then sizes[i] else 0,
                (c: seq<R>) => if k > 0 then Nth(TorchChunk(c, k), i) else [],
                (c: seq<R>) => CutAt(c, CutsOf(sizes), i))
    else
      OnColumns(d, 0, (c: seq<R>) => [], (c: seq<R>) => if k > 0 then ArraySplit(c, k)[if i < k then i else 0] else [])
  }

  lemma TorchPiece<R>(c: seq<R>, k: nat, i: nat)
    requires k > 0 && i < |TorchChunk<nat>(Range(|c|), k)|
    ensures var idx := TorchChunk<nat>(Range(|c|), k)[i]; Within(idx, |c|) && Nth(TorchChunk(c, k), i) == Pick(c, idx)
  {
    assert Pick(c, Range(|c|)) == c;
    if c != [] {
      SplitPicked(c, Range(|c|), CeilDiv(|c|, k));
    }
  }

  /** Cutting a column at the tensor side's totals gives the same rows. */
  lemma CutLikeTorch<R>(c: seq<R>, k: nat, i: nat)
    requires k > 0 && i < |TorchChunk<nat>(Range(|c|), k)|
    ensures var all := TorchChunk<nat>(Range(|c|), k);
            Within(all[i], |c|) && CutAt(c, CutsOf(Lengths<nat>(all)), i) == Pick(c, all[i])
  {
    var rows: seq<nat> := Range(|c|);
    var all := TorchChunk<nat>(rows, k);
    var sizes := Lengths<nat>(all);
    ChunksCover(|c|, k, true);
    SumOfLengths<nat>(all);
    SplitFromLengths<nat>(rows, 0, sizes);
    assert rows[0..] == rows;
    PiecesByLength<nat>(SplitAt<nat>(rows, CutsOf(sizes)), all);
    CutPicked(c, rows, 0, CutsOf(sizes));
    assert Pick(c, rows) == c;
  }

  lemma ArrayPiece<R>(c: seq<R>, k: nat, i: nat)
    requires k > 0 && i < k
    ensures var idx := ArraySplit<nat>(Range(|c|), k)[i]; Within(idx, |c|) && ArraySplit(c, k)[i] == Pick(c, idx)
  {
    SectionsSum(|c|, k);
    SplitFromLengths(c, 0, SectionSizes(|c|, k));
    CutPicked(c, Range(|c|), 0, CutsOf(SectionSizes(|c|, k)));
    assert Pick(c, Range(|c|)) == c;
  }

  lemma PieceIsRows<R>(d: Data<R>, n: nat, k: nat, i: nat)
    requires Aligned(d, n) && k > 0 && i < |ChunkIndices(n, k, d.batch.Some?)|
    ensures var idx := ChunkIndices(n, k, d.batch.Some?)[i]; Within(idx, n) && Piece(d, k, i) == Rows(d, idx)
  {
    var all := ChunkIndices(n, k, d.batch.Some?);
    var idx := all[i];
    ChunksCover(n, k, d.batch.Some?);
    PieceWithin(all, n, i);
    if d.batch.Some? {
      var cuts := CutsOf(Lengths<nat>(all));
      var f := (c: seq<R>) => if k > 0 then Nth(TorchChunk(c, k), i) else [];
      var g := (c: seq<R>) => CutAt(c, cuts, i);
      forall c: seq<R> | |c| == n ensures f(c) == Pick(c, idx) && g(c) == Pick(c, idx) {
        TorchPiece(c, k, i);
        CutLikeTorch(c, k, i);
      }
      OneIndexMap(d, n, idx, f, g);
    } else {
      var g := (c: seq<R>) => if k > 0 then ArraySplit(c, k)[if i < k then i else 0] else [];
      forall c: seq<R> | |c| == n ensures g(c) == Pick(c, idx) {
        ArrayPiece(c, k, i);
      }
      OneIndexMap(d, n, idx, g, g);
    }
  }

  lemma PieceWithin(pieces: seq<seq<nat>>, n: nat, i: nat)
    requires Flatten<nat>(pieces) == Range(n) && i < |pieces|
    ensures Within(pieces[i], n)
  {
    forall j | 0 <= j < |pieces[i]| ensures pieces[i][j] < n {
      FlattenMembers<nat>(pieces, pieces[i][j]);
      assert pieces[i][j] in Range(n);
    }
  }

  /** When all chunks exist and may be cut. */
  lemma ChunksExistIff(n: nat, chunks: nat, tensors: bool, padding: bool)
    requires chunks > 0
    ensures (|ChunkIndices(n, chunks, tensors)| == chunks && (padding || n % chunks == 0)) <==>
      (n % chunks == 0 || (padding && (!tensors || (chunks - 1) * CeilDiv(n, chunks) < n)))
    ensures |ChunkIndices(n, chunks, tensors)| <= chunks
  {
    AllChunksExist(n, chunks);
    if n % chunks == 0 {
      EvenChunksExist(n, chunks);
    }
    hide CeilDiv, TorchChunk, ArraySplit;
  }

  method Chunk<R>(d: Data<R>, ghost n: nat, chunks: nat, padding: bool) returns (r: Result<seq<Data<R>>>)
    requires chunks > 0 && Aligned(d, n) && (HasColumns(d) || n == 0)
    ensures r.Ok? ==> ArePieces(d, ChunkIndices(n, chunks, d.batch.Some?), r.value)
    ensures r.Ok? <==> n % chunks == 0 || (padding && (d.batch.None? || (chunks - 1) * CeilDiv(n, chunks) < n))
  {
    hide *;
    ChunksExistIff(n, chunks, d.batch.Some?, padding);
    TensorPieces(d, n, chunks);
    var rows := Length(d);
    if !padding && rows % chunks != 0 {
      return Err(AssertionError);
    }
    if d.batch.Some? {
      var pieces := |TorchChunk<nat>(Range(d.batch.value.size), chunks)|;
      if d.other != map[] && pieces != chunks {
        return Err(AssertionError);
      } else if pieces < chunks {
        return Err(IndexError);
      }
    }
    var output := Pieces(d, n, chunks);
    r := Ok(output);
  }

  method Pieces<R>(d: Data<R>, ghost n: nat, chunks: nat) returns (output: seq<Data<R>>)
    requires chunks > 0 && Aligned(d, n) && |ChunkIndices(n, chunks, d.batch.Some?)| == chunks
    ensures ArePieces(d, ChunkIndices(n, chunks, d.batch.Some?), output)
  {
    hide CeilDiv, TorchChunk, ArraySplit, Rows, Piece, Range, ChunkIndices;
    ghost var all := ChunkIndices(n, chunks, d.batch.Some?);
    TensorPieces(d, n, chunks);
    output := [];
    for i := 0 to chunks
      invariant |output| == i
      invariant forall j :: 0 <= j < i ==> Fits(d, all[j]) && output[j] == Rows(d, all[j])
    {
      PieceIsRows(d, n, chunks, i);
      output := output + [Piece(d, chunks, i)];
    }
  }

  lemma TensorPieces<R>(d: Data<R>, n: nat, chunks: nat)
    requires chunks > 0 && Aligned(d, n)
    ensures d.batch.None? ==> |ChunkIndices(n, chunks, false)| == chunks
    ensures d.batch.Some? ==> d.batch.value.size == n
    ensures d.batch.Some? ==> TorchChunk<nat>(Range(d.batch.value.size), chunks) == ChunkIndices(n, chunks, true)
  {
    hide TorchChunk, ArraySplit;
  }

  // ----- split -----

  method SplitData<R>(d: Data<R>, ghost n: nat, size: nat) returns (pieces: seq<Data<R>>)
    requires size > 0 && Aligned(d, n) && (HasColumns(d) || n == 0)
    ensures |pieces| == |Split<nat>(Range(n), size)| && ArePicked(d, Split<nat>(Range(n), size), pieces)
  {
    var rows := Length(d);
    var at := 0;
    ghost var all := Split<nat>(Range(n), size);
    StartOfSplit(d, n, size);
    hide Split, Range, ArePicked, Remaining, Slice, Aligned;
    pieces := [];
    while at < rows
      invariant |pieces| <= |all| && all[|pieces|..] == Remaining(n, at, size)
      invariant ArePicked(d, all, pieces)
    {
      PickNext(d, n, at, size, all, pieces);
      pieces := pieces + [Slice(d, at, at + size)];
      at := at + size;
    }
  }

  lemma StartOfSplit<R>(d: Data<R>, n: nat, size: nat)
    requires size > 0
    ensures Split<nat>(Range(n), size)[0..] == Remaining(n, 0, size) && ArePicked(d, Split<nat>(Range(n), size), [])
    ensures Remaining(n, n, size) == []
  {
    assert Range(n)[0..] == Range(n);
  }

  /** The pieces made so far are the first ones of `all`. */
  ghost predicate ArePicked<R>(d: Data<R>, all: seq<seq<nat>>, pieces: seq<Data<R>>) {
    |pieces| <= |all| && forall i :: 0 <= i < |pieces| ==> Fits(d, all[i]) && pieces[i] == Rows(d, all[i])
  }

  lemma PickNext<R>(d: Data<R>, n: nat, at: nat, size: nat, all: seq<seq<nat>>, pieces: seq<Data<R>>)
    requires size > 0 && at < n && Aligned(d, n)
    requires ArePicked(d, all, pieces) && all[|pieces|..] == Remaining(n, at, size)
    ensures ArePicked(d, all, pieces + [Slice(d, at, at + size)])
    ensures |pieces| < |all| && all[|pieces| + 1..] == Remaining(n, at + size, size)
  {
    NextPiece(n, at, size, all, |pieces|);
    SliceIsRows(d, n, at, at + size);
  }

  ghost function Remaining(n: nat, at: nat, size: nat): seq<seq<nat>>
    requires size > 0
  {
    if at < n then Split<nat>(Range(n)[at..], size) else []
  }

  lemma NextPiece(n: nat, at: nat, size: nat, all: seq<seq<nat>>, done: nat)
    requires size > 0 && at < n && done <= |all| && all[done..] == Remaining(n, at, size)
    ensures done < |all| && all[done] == PySlice<nat>(Range(n), at, at + size)
    ensures all[done + 1..] == Remaining(n, at + size, size)
  {
    var tail: seq<nat> := Range(n)[at..];
    var c := if |tail| < size then |tail| else size;
    assert Split<nat>(tail, size) == [tail[..c]] + Split<nat>(tail[c..], size);
    assert tail[..c] == PySlice<nat>(Range(n), at, at + size);
    assert all[done] == all[done..][0] && all[done + 1..] == all[done..][1..];
    if at + size < n {
      assert tail[c..] == Range(n)[at + size..];
    } else {
      assert tail[c..] == [];
    }
  }
}
