/** Operations that move the border between the batch dimension and the
    dimension behind it. */
module DataReshape {
  import opened Options
  import opened Results
  import opened Sequences
  import opened DataProto
  import opened DataRepeat

  // ----- unfolding columns into the batch dimension -----

  predicate Rectangular<E>(c: seq<seq<E>>, width: nat) {
    forall i :: 0 <= i < |c| ==> |c[i]| == width
  }

  /** Row-major reshape of a column with rows of one width. */
  function Reshape<E>(c: seq<seq<E>>, rows: nat, width: nat): (r: seq<seq<E>>)
    ensures |r| == rows
  {
    var flat := Flatten(c);
    seq(rows, (j: nat) => var lo := j * width; if 0 <= lo <= lo + width <= |flat| then flat[lo..lo + width] else [])
  }

  function Width<E>(c: seq<seq<E>>): nat {
    if c == [] then 0 else |c[0]|
  }

  /** The column with each row cut into `s` rows; not possible if that loses
      or invents entries. */
  function SplitColumn<E>(c: seq<seq<E>>, s: nat): Option<seq<seq<E>>>
    requires s > 0
  {
    var w := Width(c) / s;
    if |c| * Width(c) != (|c| * s) * w then None else Some(Reshape(c, |c| * s, w))
  }

  lemma SplitsIff(n: nat, width: nat, s: nat)
    requires s > 0
    ensures n * width == (n * s) * (width / s) <==> n == 0 || width % s == 0
  {
    var w, m := width / s, width % s;
    assert width == w * s + m;
    Expand(n, w, s, m);
    assert n > 0 && m > 0 ==> n * m > 0;
  }

  lemma Expand(n: nat, w: nat, s: nat, m: nat)
    ensures n * (w * s + m) == (n * s) * w + n * m
  {
    assert n * (w * s + m) == n * (w * s) + n * m;
    assert n * (w * s) == (n * s) * w;
  }

  /** Row `j` of the split column is part `j % s` of row `j / s`. */
  lemma SplitColumnAt<E>(c: seq<seq<E>>, s: nat, w: nat, j: nat)
    requires s > 0 && Rectangular(c, s * w) && j < |c| * s
    ensures j / s < |c| && 0 <= (j % s) * w <= (j % s) * w + w <= s * w
    ensures Reshape(c, |c| * s, w)[j] == c[j / s][(j % s) * w..(j % s) * w + w]
  {
    QuotientBelow(j, |c|, s);
    QuotientRemainder(j, s);
    BlockBounds(j % s, s, w);
    hide Flatten;
    var i, m := j / s, j % s;
    FlattenUniform(c, s * w, i);
    Regroup(i, s, m, w);
    PartOfBlock(Flatten(c), i * (s * w), s * w, m * w, w, c[i]);
  }

  lemma PartOfBlock<T>(flat: seq<T>, lo: nat, size: nat, at: nat, w: nat, block: seq<T>)
    requires lo + size <= |flat| && flat[lo..lo + size] == block && at + w <= size
    ensures flat[lo + at..lo + at + w] == block[at..at + w]
  {
    SliceOfSlice(flat, lo, lo + size, at, at + w);
  }

  predicate IsSplit(keys: Option<set<string>>, k: string) {
    keys.Some? && k in keys.value
  }

  /** One side of the batch: listed columns are split, the others repeated. */
  function UnfoldSide<E>(cols: Columns<seq<E>>, s: nat, keys: Option<set<string>>,
                         repeat: seq<seq<E>> -> seq<seq<E>>): Result<Columns<seq<E>>> {
    if s == 0 && exists k :: k in cols && IsSplit(keys, k) then Err(ZeroDivisionError)
    else if s > 0 && exists k :: k in cols && IsSplit(keys, k) && SplitColumn(cols[k], s).None? then Err(RuntimeError)
    else Ok(map k | k in cols :: if IsSplit(keys, k) && s > 0 && SplitColumn(cols[k], s).Some? then SplitColumn(cols[k], s).value else repeat(cols[k]))
  }

  function UnfoldColumnChunks<E>(d: Data<seq<E>>, s: nat, keys: Option<set<string>>): Result<Data<seq<E>>> {
    var cols := if d.batch.None? then Ok(map[])
                else UnfoldSide(d.batch.value.cols, s, keys, (c: seq<seq<E>>) => TensorInterleave(c, s));
    if cols.Err? then Err(cols.error)
    else if d.other != map[] && keys.None? then Err(TypeError)
    else
      var other := UnfoldSide(d.other, s, keys, (c: seq<seq<E>>) => ArrayInterleave(c, s));
      if other.Err? then Err(other.error)
      else Ok(Data(if d.batch.None? then None else Some(Table(d.batch.value.size * s, cols.value)), other.value))
  }

  ghost predicate ColumnsRectangular<E>(cols: Columns<seq<E>>) {
    forall k :: k in cols ==> Rectangular(cols[k], Width(cols[k]))
  }

  /** What unfolding makes of a column: row `j` comes from row `j / s`, whole
      or its part `j % s`. */
  ghost predicate Unfolded<E>(c: seq<seq<E>>, u: seq<seq<E>>, s: nat, split: bool)
    requires s > 0
  {
    && |u| == |c| * s
    && forall j :: 0 <= j < |u| ==> j / s < |c| && IsPart(c[j / s], u[j], j % s, s, split)
  }

  ghost predicate IsPart<E>(row: seq<E>, part: seq<E>, m: nat, s: nat, split: bool)
    requires s > 0
  {
    if split then
      var w := |row| / s;
      0 <= m * w <= m * w + w <= |row| && part == row[m * w..m * w + w]
    else part == row
  }

  lemma RepeatedUnfolds<E>(c: seq<seq<E>>, s: nat)
    requires s > 0
    ensures Unfolded(c, TensorInterleave(c, s), s, false)
    ensures Unfolded(c, ArrayInterleave(c, s), s, false)
  {
    InterleaveAgrees(c, s);
    forall j | 0 <= j < |c| * s ensures j / s < |c| {
      QuotientBelow(j, |c|, s);
    }
  }

  lemma SplitUnfolds<E>(c: seq<seq<E>>, s: nat)
    requires s > 0 && Rectangular(c, Width(c))
    ensures SplitColumn(c, s).Some? <==> c == [] || Width(c) % s == 0
    ensures SplitColumn(c, s).Some? ==> Unfolded(c, SplitColumn(c, s).value, s, true)
  {
    SplitsIff(|c|, Width(c), s);
    if c != [] && Width(c) % s == 0 {
      ReshapeUnfolds(c, s, Width(c) / s);
    }
  }

  lemma ReshapeUnfolds<E>(c: seq<seq<E>>, s: nat, w: nat)
    requires s > 0 && Rectangular(c, s * w)
    ensures Unfolded(c, Reshape(c, |c| * s, w), s, true)
  {
    ExactMultiple(s, w);
    forall j | 0 <= j < |c| * s ensures j / s < |c| && IsPart(c[j / s], Reshape(c, |c| * s, w)[j], j % s, s, true) {
      SplitColumnAt(c, s, w, j);
    }
  }

  ghost predicate SideUnfolded<E>(cols: Columns<seq<E>>, r: Columns<seq<E>>, s: nat, keys: Option<set<string>>)
    requires s > 0
  {
    r.Keys == cols.Keys && forall k :: k in cols ==> Unfolded(cols[k], r[k], s, IsSplit(keys, k))
  }

  /** The listed columns of this side can be split into `s` parts. */
  predicate Divides<E>(cols: Columns<seq<E>>, s: nat, keys: Option<set<string>>)
    requires s > 0
  {
    forall k :: k in cols && IsSplit(keys, k) ==> cols[k] == [] || Width(cols[k]) % s == 0
  }

  lemma SideIsUnfolded<E>(cols: Columns<seq<E>>, s: nat, keys: Option<set<string>>, repeat: seq<seq<E>> -> seq<seq<E>>)
    requires s > 0 && ColumnsRectangular(cols)
    requires forall c: seq<seq<E>> :: Unfolded(c, repeat(c), s, false)
    ensures var r := UnfoldSide(cols, s, keys, repeat);
            (r.Ok? <==> Divides(cols, s, keys)) && (r.Ok? ==> SideUnfolded(cols, r.value, s, keys))
  {
    forall k | k in cols && IsSplit(keys, k)
      ensures SplitColumn(cols[k], s).Some? <==> cols[k] == [] || Width(cols[k]) % s == 0
      ensures SplitColumn(cols[k], s).Some? ==> Unfolded(cols[k], SplitColumn(cols[k], s).value, s, true)
    {
      SplitUnfolds(cols[k], s);
    }
  }

  /** Unfolding works exactly when the listed columns divide and the list is
      there if the array side needs it; then every column, on either side,
      takes row `j` from row `j / s`. */
  lemma UnfoldMovesRowsAlike<E>(d: Data<seq<E>>, n: nat, s: nat, keys: Option<set<string>>)
    requires s > 0 && Aligned(d, n) && ColumnsRectangular(d.other)
    requires d.batch.Some? ==> ColumnsRectangular(d.batch.value.cols)
    ensures var r := UnfoldColumnChunks(d, s, keys);
            && (r.Ok? <==> (d.other == map[] || keys.Some?) && Divides(d.other, s, keys)
                           && (d.batch.Some? ==> Divides(d.batch.value.cols, s, keys)))
            && (r.Ok? ==>
                  && Aligned(r.value, n * s)
                  && SideUnfolded(d.other, r.value.other, s, keys)
                  && r.value.batch.Some? == d.batch.Some?
                  && (d.batch.Some? ==> SideUnfolded(d.batch.value.cols, r.value.batch.value.cols, s, keys)))
  {
    forall c: seq<seq<E>>
      ensures Unfolded(c, TensorInterleave(c, s), s, false) && Unfolded(c, ArrayInterleave(c, s), s, false)
    {
      RepeatedUnfolds(c, s);
    }
    SideIsUnfolded(d.other, s, keys, (c: seq<seq<E>>) => ArrayInterleave(c, s));
    if d.batch.Some? {
      SideIsUnfolded(d.batch.value.cols, s, keys, (c: seq<seq<E>>) => TensorInterleave(c, s));
    }
  }

  // ----- folding the batch dimension -----

  /** `m` consecutive blocks of the column. */
  function FoldColumn<R>(c: seq<R>, m: nat): (r: seq<seq<R>>)
    requires m > 0
    ensures |r| == m
  {
    var q := |c| / m;
    seq(m, (i: nat) => if 0 <= i * q <= i * q + q <= |c| then c[i * q..i * q + q] else [])
  }

  function FoldBatchDim<R>(d: Data<R>, m: nat): Result<Data<seq<R>>> {
    if d.batch.None? then Err(AttributeError)
    else if m == 0 then Err(ZeroDivisionError)
    else if d.batch.value.size % m != 0 then Err(AssertionError)
    else
      var f := (c: seq<R>) => if m > 0 then FoldColumn(c, m) else [];
      Ok(OnColumns(d, m, f, f))
  }

  /** Both batch dimensions joined; `inner` is the second one. */
  function UnfoldBatchDim<R>(d: Data<seq<R>>, inner: nat): Result<Data<R>> {
    if d.batch.None? then Err(AttributeError)
    else
      var f := (c: seq<seq<R>>) => Flatten(c);
      Ok(OnColumns(d, d.batch.value.size * inner, f, f))
  }

  lemma FoldedColumn<R>(c: seq<R>, m: nat, q: nat)
    requires m > 0 && |c| == m * q
    ensures Rectangular(FoldColumn(c, m), q) && Flatten(FoldColumn(c, m)) == c
  {
    ExactMultiple(m, q);
    var r := FoldColumn(c, m);
    forall i | 0 <= i < m ensures IsBlock(c, i, q, r[i]) && |r[i]| == q {
      BlockBounds(i, m, q);
    }
    FlattenBlocks(c, m, q, r);
  }

  lemma ExactMultiple(m: nat, q: nat)
    requires m > 0
    ensures (m * q) / m == q && (m * q) % m == 0
  {
    DivModUnique(q, 0, m);
    assert q * m + 0 == m * q;
  }

  lemma UnfoldedColumn<R>(e: seq<seq<R>>, q: nat)
    requires e != [] && Rectangular(e, q)
    ensures |Flatten(e)| == |e| * q && FoldColumn(Flatten(e), |e|) == e
  {
    FlattenUniformLength(e, q);
    ExactMultiple(|e|, q);
    var flat := Flatten(e);
    forall i | 0 <= i < |e| ensures FoldColumn(flat, |e|)[i] == e[i] {
      FlattenUniform(e, q, i);
    }
  }

  /** Folding is possible exactly when the new size divides the rows, and
      unfolding takes it back. */
  lemma UnfoldUndoesFold<R>(d: Data<R>, n: nat, m: nat)
    requires Aligned(d, n) && d.batch.Some?
    ensures FoldBatchDim(d, m).Ok? <==> m > 0 && n % m == 0
    ensures m > 0 && n % m == 0 ==>
              Aligned(FoldBatchDim(d, m).value, m) && UnfoldBatchDim(FoldBatchDim(d, m).value, n / m) == Ok(d)
  {
    if m > 0 && n % m == 0 {
      var q := n / m;
      ExactQuotient(n, m);
      assert n == m * q;
      var folded := FoldBatchDim(d, m).value;
      var back := UnfoldBatchDim(folded, q).value;
      forall c: seq<R> | |c| == n ensures Flatten(FoldColumn(c, m)) == c {
        FoldedColumn(c, m, q);
      }
      SameColumns(back.other, d.other);
      SameColumns(back.batch.value.cols, d.batch.value.cols);
    }
  }

  lemma FoldUndoesUnfold<R>(e: Data<seq<R>>, m: nat, q: nat)
    requires m > 0 && Aligned(e, m) && e.batch.Some?
    requires forall k :: k in e.other ==> Rectangular(e.other[k], q)
    requires forall k :: k in e.batch.value.cols ==> Rectangular(e.batch.value.cols[k], q)
    ensures UnfoldBatchDim(e, q).Ok? && Aligned(UnfoldBatchDim(e, q).value, m * q)
    ensures FoldBatchDim(UnfoldBatchDim(e, q).value, m) == Ok(e)
  {
    ExactMultiple(m, q);
    var flat := UnfoldBatchDim(e, q).value;
    forall c: seq<seq<R>> | |c| == m && Rectangular(c, q)
      ensures |Flatten(c)| == m * q && FoldColumn(Flatten(c), m) == c
    {
      UnfoldedColumn(c, q);
    }
    var back := FoldBatchDim(flat, m).value;
    SameColumns(back.other, e.other);
    SameColumns(back.batch.value.cols, e.batch.value.cols);
  }
}
