/** Batches with tensor columns and array columns. Each operation is written
    once per side, as the source does; the lemmas show that both sides move
    rows by one common index map. */
module DataProto {
  import opened Options
  import opened Results
  import opened Sequences
  import opened RowMaps

  /** Tensor columns with their common first dimension. */
  datatype Table<+R> = Table(size: nat, cols: map<string, seq<R>>)

  datatype Data<+R> = Data(batch: Option<Table<R>>, other: map<string, seq<R>>)

  /** Every column of the batch has `n` rows. */
  ghost predicate Aligned<R>(d: Data<R>, n: nat) {
    && (d.batch.Some? ==> d.batch.value.size == n && forall k :: k in d.batch.value.cols ==> |d.batch.value.cols[k]| == n)
    && forall k :: k in d.other ==> |d.other[k]| == n
  }

  predicate HasColumns<R>(d: Data<R>) {
    d.batch.Some? || d.other != map[]
  }

  /** What `len` answers: the tensor side, else any array column, else 0. */
  method Length<R>(d: Data<R>) returns (n: nat)
    ensures forall m: nat :: Aligned(d, m) ==> n == if HasColumns(d) then m else 0
  {
    if d.batch.Some? {
      n := d.batch.value.size;
    } else if d.other != map[] {
      var k :| k in d.other;
      n := |d.other[k]|;
    } else {
      n := 0;
    }
  }

  // ----- rows by index -----

  predicate Within(idx: seq<nat>, n: nat) {
    forall i :: 0 <= i < |idx| ==> idx[i] < n
  }

  type Columns<R> = map<string, seq<R>>

  ghost predicate ColumnsFit<R>(cols: Columns<R>, idx: seq<nat>) {
    forall k :: k in cols ==> Within(idx, |cols[k]|)
  }

  function PickColumns<R>(cols: Columns<R>, idx: seq<nat>): (r: Columns<R>)
    requires ColumnsFit(cols, idx)
    ensures r.Keys == cols.Keys
    ensures forall k :: k in cols ==> r[k] == Pick(cols[k], idx)
  {
    map k | k in cols :: Pick(cols[k], idx)
  }

  lemma SameColumns<R>(a: Columns<R>, b: Columns<R>)
    requires a.Keys == b.Keys && forall k :: k in a ==> a[k] == b[k]
    ensures a == b
  {
  }

  ghost predicate Fits<R>(d: Data<R>, idx: seq<nat>) {
    && (d.batch.Some? ==> ColumnsFit(d.batch.value.cols, idx))
    && ColumnsFit(d.other, idx)
  }

  /** The batch whose row `j` is row `idx[j]` of `d`, in every column. */
  ghost function Rows<R>(d: Data<R>, idx: seq<nat>): (r: Data<R>)
    requires Fits(d, idx)
    ensures Aligned(r, |idx|)
    ensures HasColumns(r) <==> HasColumns(d)
  {
    var other := PickColumns(d.other, idx);
    assert d.other == map[] <==> d.other.Keys == {};
    assert other == map[] <==> other.Keys == {};
    Data(if d.batch.None? then None else Some(Table(|idx|, PickColumns(d.batch.value.cols, idx))), other)
  }

  lemma PickOfPick<T>(s: seq<T>, idx: seq<nat>, jdx: seq<nat>)
    requires Within(idx, |s|) && Within(jdx, |idx|)
    ensures Within(Pick(idx, jdx), |s|) && Pick(Pick(s, idx), jdx) == Pick(s, Pick(idx, jdx))
  {
  }

  lemma PickColumnsTwice<R>(cols: Columns<R>, idx: seq<nat>, jdx: seq<nat>)
    requires ColumnsFit(cols, idx) && Within(jdx, |idx|)
    ensures ColumnsFit(cols, Pick(idx, jdx))
    ensures PickColumns(PickColumns(cols, idx), jdx) == PickColumns(cols, Pick(idx, jdx))
  {
    forall k | k in cols ensures Within(Pick(idx, jdx), |cols[k]|) {
      PickOfPick(cols[k], idx, jdx);
    }
    var a, b := PickColumns(PickColumns(cols, idx), jdx), PickColumns(cols, Pick(idx, jdx));
    forall k | k in cols ensures a[k] == b[k] {
      PickOfPick(cols[k], idx, jdx);
    }
    SameColumns(a, b);
  }

  lemma RowsOfRows<R>(d: Data<R>, idx: seq<nat>, jdx: seq<nat>)
    requires Fits(d, idx) && Within(jdx, |idx|)
    ensures Fits(d, Pick(idx, jdx))
    ensures Rows(Rows(d, idx), jdx) == Rows(d, Pick(idx, jdx))
  {
    PickColumnsTwice(d.other, idx, jdx);
    if d.batch.Some? {
      PickColumnsTwice(d.batch.value.cols, idx, jdx);
    }
  }

  lemma AllColumns<R>(cols: Columns<R>, n: nat)
    requires forall k :: k in cols ==> |cols[k]| == n
    ensures PickColumns(cols, Range(n)) == cols
  {
    forall k | k in cols ensures PickColumns(cols, Range(n))[k] == cols[k] {
      assert Pick(cols[k], Range(n)) == cols[k];
    }
    SameColumns(PickColumns(cols, Range(n)), cols);
  }

  lemma AllRows<R>(d: Data<R>, n: nat)
    requires Aligned(d, n)
    ensures Rows(d, Range(n)) == d
  {
    AllColumns(d.other, n);
    if d.batch.Some? {
      AllColumns(d.batch.value.cols, n);
    }
  }

  /** `f` on every column. */
  function EachColumn<R, S>(cols: Columns<R>, f: seq<R> -> seq<S>): (r: Columns<S>)
    ensures r.Keys == cols.Keys
    ensures forall k :: k in cols ==> r[k] == f(cols[k])
  {
    map k | k in cols :: f(cols[k])
  }

  /** One function on the tensor columns and one on the array columns. */
  function OnColumns<R, S>(d: Data<R>, size: nat, f: seq<R> -> seq<S>, g: seq<R> -> seq<S>): Data<S> {
    Data(if d.batch.None? then None else Some(Table(size, EachColumn(d.batch.value.cols, f))), EachColumn(d.other, g))
  }

  /** Two libraries that move rows alike act by one index map. */
  lemma OneIndexMap<R>(d: Data<R>, n: nat, idx: seq<nat>, f: seq<R> -> seq<R>, g: seq<R> -> seq<R>)
    requires Aligned(d, n) && Within(idx, n)
    requires forall c: seq<R> :: |c| == n ==> f(c) == Pick(c, idx)
    requires forall c: seq<R> :: |c| == n ==> g(c) == Pick(c, idx)
    ensures OnColumns(d, |idx|, f, g) == Rows(d, idx)
  {
    SameColumns(EachColumn(d.other, g), PickColumns(d.other, idx));
    if d.batch.Some? {
      SameColumns(EachColumn(d.batch.value.cols, f), PickColumns(d.batch.value.cols, idx));
    }
  }

  // ----- slicing -----

  /** A slice bound of the host language: negative from the end, clamped. */
  function Bound(i: int, n: nat): (b: nat)
    ensures b <= n
  {
    if i < 0 then (if n + i < 0 then 0 else n + i) else if i < n then i else n
  }

  function PySlice<T>(c: seq<T>, start: int, end: int): seq<T> {
    var lo, hi := Bound(start, |c|), Bound(end, |c|);
    if lo <= hi then c[lo..hi] else []
  }

  function Slice<R>(d: Data<R>, start: int, end: int): Data<R> {
    var size := if d.batch.Some? then |PySlice(Range(d.batch.value.size), start, end)| else 0;
    OnColumns(d, size, (c: seq<R>) => PySlice(c, start, end), (c: seq<R>) => PySlice(c, start, end))
  }

  /** Where a bound of a slice lies; it may be outside the rows. */
  function Place(i: int, n: nat): int {
    if i < 0 then n + i else i
  }

  /** A slice is the run of rows from one bound up to the other. */
  lemma SlicedRows(n: nat, start: int, end: int)
    ensures var idx: seq<nat> := PySlice(Range(n), start, end);
            && (forall p: nat :: p in idx <==> p < n && Place(start, n) <= p < Place(end, n))
            && forall j :: 0 <= j < |idx| ==> idx[j] == idx[0] + j
  {
    var idx: seq<nat> := PySlice(Range(n), start, end);
    var lo := Bound(start, n);
    forall p: nat ensures p in idx <==> p < n && Place(start, n) <= p < Place(end, n) {
      if p < n && Place(start, n) <= p < Place(end, n) {
        assert idx[p - lo] == p;
      }
    }
  }

  lemma SliceIsRows<R>(d: Data<R>, n: nat, start: int, end: int)
    requires Aligned(d, n)
    ensures Within(PySlice(Range(n), start, end), n)
    ensures Slice(d, start, end) == Rows(d, PySlice(Range(n), start, end))
  {
    var idx: seq<nat> := PySlice(Range(n), start, end);
    var f := (c: seq<R>) => PySlice(c, start, end);
    assert forall c: seq<R> :: |c| == n ==> f(c) == Pick(c, idx);
    OneIndexMap(d, n, idx, f, f);
  }

  // ----- selecting -----

  /** Rows by index; negative indices count from the end. */
  function SelectColumns<R>(cols: Columns<R>, idxs: seq<int>): Result<Columns<R>> {
    if exists k :: k in cols && exists i :: 0 <= i < |idxs| && !(-|cols[k]| <= idxs[i] < |cols[k]|) then Err(IndexError)
    else Ok(map k | k in cols :: PickSigned(cols[k], idxs))
  }

  function PickSigned<T>(c: seq<T>, idxs: seq<int>): (r: seq<T>)
    requires forall i :: 0 <= i < |idxs| ==> -|c| <= idxs[i] < |c|
    ensures |r| == |idxs|
  {
    seq(|idxs|, i requires 0 <= i < |idxs| => if idxs[i] < 0 then c[|c| + idxs[i]] else c[idxs[i]])
  }

  function SelectIdxs<R>(d: Data<R>, idxs: seq<int>): Result<Data<R>> {
    var cols := if d.batch.Some? then SelectColumns(d.batch.value.cols, idxs) else Ok(map[]);
    var other := SelectColumns(d.other, idxs);
    if cols.Err? then Err(cols.error)
    else if other.Err? then Err(other.error)
    else Ok(Data(if d.batch.Some? then Some(Table(|idxs|, cols.value)) else None, other.value))
  }

  lemma SelectColumnsIsPick<R>(cols: Columns<R>, idxs: seq<int>, idx: seq<nat>)
    requires idx == idxs && ColumnsFit(cols, idx)
    ensures SelectColumns(cols, idxs) == Ok(PickColumns(cols, idx))
  {
    forall k | k in cols ensures PickSigned(cols[k], idxs) == Pick(cols[k], idx) {
    }
    var r := SelectColumns(cols, idxs);
    assert r.Ok?;
    SameColumns(r.value, PickColumns(cols, idx));
  }

  lemma SelectIsRows<R>(d: Data<R>, idxs: seq<int>, idx: seq<nat>)
    requires idx == idxs && Fits(d, idx)
    ensures SelectIdxs(d, idxs) == Ok(Rows(d, idx))
  {
    SelectColumnsIsPick(d.other, idxs, idx);
    if d.batch.Some? {
      SelectColumnsIsPick(d.batch.value.cols, idxs, idx);
    }
  }

  ghost predicate InBounds(idxs: seq<int>, n: nat) {
    forall i :: 0 <= i < |idxs| ==> 0 <= Place(idxs[i], n) < n
  }

  /** The rows that indices mean, negative ones counted from the end. */
  ghost function Places(idxs: seq<int>, n: nat): (r: seq<nat>)
    requires InBounds(idxs, n)
    ensures |r| == |idxs| && forall i :: 0 <= i < |r| ==> r[i] == Place(idxs[i], n) < n
  {
    seq(|idxs|, i requires 0 <= i < |idxs| => Place(idxs[i], n))
  }

  lemma SelectColumnsSigned<R>(cols: Columns<R>, n: nat, idxs: seq<int>)
    requires forall k :: k in cols ==> |cols[k]| == n
    ensures if InBounds(idxs, n) then SelectColumns(cols, idxs) == Ok(PickColumns(cols, Places(idxs, n)))
            else SelectColumns(cols, idxs) == if cols.Keys == {} then Ok(map[]) else Err(IndexError)
  {
    var r := SelectColumns(cols, idxs);
    if InBounds(idxs, n) {
      forall k | k in cols ensures PickSigned(cols[k], idxs) == Pick(cols[k], Places(idxs, n)) {
      }
      assert r.Ok?;
      SameColumns(r.value, PickColumns(cols, Places(idxs, n)));
    } else {
      var i :| 0 <= i < |idxs| && !(0 <= Place(idxs[i], n) < n);
      assert forall k :: k in cols ==> !(-|cols[k]| <= idxs[i] < |cols[k]|);
      if r.Ok? {
        assert r.value.Keys == cols.Keys;
      }
    }
  }

  /** Selecting works exactly when all indices are in bounds, and moves all
      columns by one index map. */
  lemma SelectSigned<R>(d: Data<R>, n: nat, idxs: seq<int>)
    requires Aligned(d, n)
    requires d.other.Keys != {} || (d.batch.Some? && d.batch.value.cols.Keys != {})
    ensures if InBounds(idxs, n) then SelectIdxs(d, idxs) == Ok(Rows(d, Places(idxs, n)))
            else SelectIdxs(d, idxs) == Err(IndexError)
  {
    hide SelectColumns;
    SelectColumnsSigned(d.other, n, idxs);
    if d.batch.Some? {
      SelectColumnsSigned(d.batch.value.cols, n, idxs);
    }
  }

  // ----- concatenation -----

  /** The lists that a dictionary of lists collects under `key`. */
  function Collected<R>(dicts: seq<Columns<R>>, key: string): seq<seq<R>> {
    if dicts == [] then []
    else (if key in dicts[0] then [dicts[0][key]] else []) + Collected(dicts[1..], key)
  }

  function JoinColumns<R>(dicts: seq<Columns<R>>): Columns<R>
    requires dicts != []
  {
    map k | k in dicts[0] :: Flatten(Collected(dicts, k))
  }

  function Others<R>(ds: seq<Data<R>>): (r: seq<Columns<R>>)
    ensures |r| == |ds| && forall i :: 0 <= i < |ds| ==> r[i] == ds[i].other
  {
    seq(|ds|, i requires 0 <= i < |ds| => ds[i].other)
  }

  predicate AllTables<R>(ds: seq<Data<R>>) {
    ds != [] && ds[0].batch.Some? &&
    forall i :: 0 <= i < |ds| ==> ds[i].batch.Some? && ds[i].batch.value.cols.Keys == ds[0].batch.value.cols.Keys
  }

  function Tables<R>(ds: seq<Data<R>>): (r: seq<Columns<R>>)
    requires AllTables(ds)
    ensures |r| == |ds| && forall i :: 0 <= i < |ds| ==> r[i] == ds[i].batch.value.cols
  {
    seq(|ds|, i requires 0 <= i < |ds| => ds[i].batch.value.cols)
  }

  function Sizes<R>(ds: seq<Data<R>>): (r: seq<nat>)
    requires AllTables(ds)
    ensures |r| == |ds| && forall i :: 0 <= i < |ds| ==> r[i] == ds[i].batch.value.size
  {
    seq(|ds|, i requires 0 <= i < |ds| => ds[i].batch.value.size)
  }

  /** The constructor's check. */
  predicate Consistent<R>(d: Data<R>) {
    d.batch.Some? ==> forall k :: k in d.other ==> |d.other[k]| == d.batch.value.size
  }

  function Concat<R>(ds: seq<Data<R>>): Result<Data<R>> {
    if ds == [] then Err(IndexError)
    else if ds[0].batch.Some? && !AllTables(ds) then Err(RuntimeError)
    else if exists i :: 0 <= i < |ds| && !(ds[i].other.Keys <= ds[0].other.Keys) then Err(AssertionError)
    else
      var batch := if ds[0].batch.None? then None else Some(Table(SumNat(Sizes(ds)), JoinColumns(Tables(ds))));
      var d := Data(batch, JoinColumns(Others(ds)));
      if Consistent(d) then Ok(d) else Err(AssertionError)
  }

  lemma {:induction false} FlattenPicks<T>(s: seq<T>, idxs: seq<seq<nat>>, picked: seq<seq<T>>)
    requires |picked| == |idxs| && forall i :: 0 <= i < |idxs| ==> Within(idxs[i], |s|) && picked[i] == Pick(s, idxs[i])
    ensures Within(Flatten<nat>(idxs), |s|) && Flatten(picked) == Pick(s, Flatten<nat>(idxs))
  {
    if idxs != [] {
      FlattenPicks(s, idxs[1..], picked[1..]);
    }
  }

  lemma {:induction false} CollectedAll<R>(dicts: seq<Columns<R>>, key: string)
    requires forall i :: 0 <= i < |dicts| ==> key in dicts[i]
    ensures |Collected(dicts, key)| == |dicts|
    ensures forall i :: 0 <= i < |dicts| ==> Collected(dicts, key)[i] == dicts[i][key]
  {
    if dicts != [] {
      CollectedAll(dicts[1..], key);
    }
  }

  lemma JoinPicked<R>(cols: Columns<R>, idxs: seq<seq<nat>>, dicts: seq<Columns<R>>)
    requires |dicts| == |idxs| > 0
    requires forall i :: 0 <= i < |idxs| ==> ColumnsFit(cols, idxs[i]) && dicts[i] == PickColumns(cols, idxs[i])
    ensures ColumnsFit(cols, Flatten<nat>(idxs))
    ensures JoinColumns(dicts) == PickColumns(cols, Flatten<nat>(idxs))
  {
    forall k | k in cols
      ensures Within(Flatten<nat>(idxs), |cols[k]|) && Flatten(Collected(dicts, k)) == Pick(cols[k], Flatten<nat>(idxs))
    {
      CollectedAll(dicts, k);
      FlattenPicks(cols[k], idxs, Collected(dicts, k));
    }
    assert dicts[0].Keys == cols.Keys;
    SameColumns(JoinColumns(dicts), PickColumns(cols, Flatten<nat>(idxs)));
  }

  ghost predicate ArePieces<R>(d: Data<R>, idxs: seq<seq<nat>>, pieces: seq<Data<R>>) {
    && |pieces| == |idxs| > 0
    && forall i :: 0 <= i < |idxs| ==> Fits(d, idxs[i]) && pieces[i] == Rows(d, idxs[i])
  }

  lemma JoinTables<R>(d: Data<R>, idxs: seq<seq<nat>>, pieces: seq<Data<R>>)
    requires ArePieces(d, idxs, pieces) && d.batch.Some?
    ensures AllTables(pieces) && ColumnsFit(d.batch.value.cols, Flatten<nat>(idxs))
    ensures Table(SumNat(Sizes(pieces)), JoinColumns(Tables(pieces)))
         == Table(|Flatten<nat>(idxs)|, PickColumns(d.batch.value.cols, Flatten<nat>(idxs)))
  {
    assert pieces[0] == Rows(d, idxs[0]);
    JoinPicked(d.batch.value.cols, idxs, Tables(pieces));
    assert Sizes(pieces) == Lengths<nat>(idxs);
    SumOfLengths<nat>(idxs);
  }

  lemma JoinOthers<R>(d: Data<R>, idxs: seq<seq<nat>>, pieces: seq<Data<R>>)
    requires ArePieces(d, idxs, pieces)
    ensures forall i :: 0 <= i < |pieces| ==> pieces[i].other.Keys <= pieces[0].other.Keys
    ensures ColumnsFit(d.other, Flatten<nat>(idxs)) && JoinColumns(Others(pieces)) == PickColumns(d.other, Flatten<nat>(idxs))
  {
    JoinPicked(d.other, idxs, Others(pieces));
    assert pieces[0].other.Keys == d.other.Keys;
  }

  /** Concatenating pieces of a batch gives the rows of all the pieces, in order. */
  lemma ConcatRows<R>(d: Data<R>, idxs: seq<seq<nat>>, pieces: seq<Data<R>>)
    requires ArePieces(d, idxs, pieces)
    ensures Fits(d, Flatten<nat>(idxs)) && Concat(pieces) == Ok(Rows(d, Flatten<nat>(idxs)))
  {
    JoinOthers(d, idxs, pieces);
    assert pieces[0].batch.Some? == d.batch.Some?;
    if d.batch.Some? {
      JoinTables(d, idxs, pieces);
    }
    assert Consistent(Rows(d, Flatten<nat>(idxs)));
  }
}
