/** Operations that repeat rows: both libraries repeat by the same index map. */
module DataRepeat {
  import opened Options
  import opened Results
  import opened Sequences
  import opened DataProto

  // ----- the two libraries -----

  function Copies<T>(x: T, t: nat): (r: seq<T>)
    ensures |r| == t && forall j :: 0 <= j < t ==> r[j] == x
  {
    seq(t, _ => x)
  }

  /** The tensor library's `repeat_interleave`: copies of each row in turn. */
  function TensorInterleave<T>(c: seq<T>, t: nat): seq<T> {
    Flatten(Map((x: T) => Copies(x, t), c))
  }

  /** The array library's `repeat`: entry `j` comes from entry `j / t`. */
  function ArrayInterleave<T>(c: seq<T>, t: nat): seq<T> {
    seq(|c| * t, j requires 0 <= j < |c| * t => (QuotientBelow(j, |c|, t); c[j / t]))
  }

  /** The tensor library's expand and reshape: the whole column, `t` times. */
  function TensorTile<T>(c: seq<T>, t: nat): seq<T> {
    Flatten(Copies(c, t))
  }

  /** The array library's `tile`: entry `j` comes from entry `j % n`. */
  function ArrayTile<T>(c: seq<T>, t: nat): seq<T> {
    seq(|c| * t, j requires 0 <= j < |c| * t => (QuotientBelow(j, |c|, t); c[j % |c|]))
  }

  lemma QuotientBelow(j: nat, n: nat, t: nat)
    requires j < n * t
    ensures n > 0 && t > 0 && j / t < n
  {
    assert n == 0 || t == 0 ==> n * t == 0;
    assert j == (j / t) * t + j % t;
    var q := j / t;
    assert q >= n ==> q * t >= n * t;
  }

  // ----- index maps -----

  /** Row `j` is row `j / t`. */
  function Interleaved(n: nat, t: nat): (idx: seq<nat>)
    ensures |idx| == n * t && Within(idx, n)
    ensures t > 0 ==> forall j :: 0 <= j < n * t ==> idx[j] == j / t
  {
    QuotientsBelow(n, t);
    seq(n * t, j requires 0 <= j < n * t => if t > 0 then j / t else 0)
  }

  lemma QuotientsBelow(n: nat, t: nat)
    ensures forall j: nat :: j < n * t ==> n > 0 && t > 0 && j / t < n
  {
    forall j: nat | j < n * t ensures n > 0 && t > 0 && j / t < n {
      QuotientBelow(j, n, t);
    }
  }

  /** Row `j` is row `j % n`. */
  function Tiled(n: nat, t: nat): (idx: seq<nat>)
    ensures |idx| == n * t && Within(idx, n)
    ensures n > 0 ==> forall j :: 0 <= j < n * t ==> idx[j] == j % n
  {
    assert n == 0 ==> n * t == 0;
    seq(n * t, j => if n > 0 then j % n else 0)
  }

  /** Flattening rows of one width is row-major. */
  lemma FlattenAt<T>(ss: seq<seq<T>>, width: nat, j: nat)
    requires forall i :: 0 <= i < |ss| ==> |ss[i]| == width
    requires j < |ss| * width
    ensures |Flatten(ss)| == |ss| * width && width > 0 && j / width < |ss|
    ensures Flatten(ss)[j] == ss[j / width][j % width]
  {
    QuotientBelow(j, |ss|, width);
    QuotientRemainder(j, width);
    FlattenUniformLength(ss, width);
    FlattenAtBlock(ss, width, j / width, j % width);
  }

  lemma QuotientRemainder(j: nat, c: nat)
    requires c > 0
    ensures j == (j / c) * c + j % c
  {
  }

  lemma FlattenAtBlock<T>(ss: seq<seq<T>>, width: nat, i: nat, m: nat)
    requires forall k :: 0 <= k < |ss| ==> |ss[k]| == width
    requires i < |ss| && m < width
    ensures 0 <= i * width + m < |Flatten(ss)| && Flatten(ss)[i * width + m] == ss[i][m]
  {
    FlattenUniform(ss, width, i);
    SliceEntry(Flatten(ss), i * width, width, m);
  }

  lemma SliceEntry<T>(s: seq<T>, at: nat, width: nat, m: nat)
    requires at + width <= |s| && m < width
    ensures s[at..at + width][m] == s[at + m]
  {
  }

  lemma InterleaveAgrees<T>(c: seq<T>, t: nat)
    ensures TensorInterleave(c, t) == Pick(c, Interleaved(|c|, t))
    ensures ArrayInterleave(c, t) == Pick(c, Interleaved(|c|, t))
  {
    var blocks := Map((x: T) => Copies(x, t), c);
    var idx := Interleaved(|c|, t);
    FlattenUniformLength(blocks, t);
    forall j | 0 <= j < |c| * t ensures Flatten(blocks)[j] == c[idx[j]] && ArrayInterleave(c, t)[j] == c[idx[j]] {
      FlattenAt(blocks, t, j);
    }
  }

  lemma TileAgrees<T>(c: seq<T>, t: nat)
    ensures TensorTile(c, t) == Pick(c, Tiled(|c|, t))
    ensures ArrayTile(c, t) == Pick(c, Tiled(|c|, t))
  {
    var blocks := Copies(c, t);
    FlattenUniformLength(blocks, |c|);
    assert t * |c| == |c| * t;
    forall j | 0 <= j < |c| * t ensures TensorTile(c, t)[j] == c[Tiled(|c|, t)[j]] {
      TileEntry(c, t, j);
    }
    hide Tiled, Copies, Flatten;
  }

  lemma TileEntry<T>(c: seq<T>, t: nat, j: nat)
    requires j < |c| * t
    ensures |TensorTile(c, t)| == |c| * t && |c| > 0 && TensorTile(c, t)[j] == c[j % |c|]
  {
    hide Flatten;
    QuotientBelow(j, |c|, t);
    Swapped(|c|, t);
    FlattenAt(Copies(c, t), |c|, j);
  }

  lemma Swapped(a: nat, b: nat)
    ensures a * b == b * a
  {
  }

  // ----- repeat -----

  function Repeat<R>(d: Data<R>, t: nat, interleave: bool): Data<R> {
    var size := if d.batch.Some? then d.batch.value.size * t else 0;
    if interleave then
      OnColumns(d, size, (c: seq<R>) => TensorInterleave(c, t), (c: seq<R>) => ArrayInterleave(c, t))
    else
      OnColumns(d, size, (c: seq<R>) => TensorTile(c, t), (c: seq<R>) => ArrayTile(c, t))
  }

  function RepeatIndices(n: nat, t: nat, interleave: bool): (idx: seq<nat>)
    ensures |idx| == n * t && Within(idx, n)
  {
    if interleave then Interleaved(n, t) else Tiled(n, t)
  }

  /** Tensor and array columns repeat by one index map. */
  lemma RepeatIsRows<R>(d: Data<R>, n: nat, t: nat, interleave: bool)
    requires Aligned(d, n)
    ensures Repeat(d, t, interleave) == Rows(d, RepeatIndices(n, t, interleave))
  {
    var f, g := (c: seq<R>) => TensorInterleave(c, t), (c: seq<R>) => ArrayInterleave(c, t);
    var h, e := (c: seq<R>) => TensorTile(c, t), (c: seq<R>) => ArrayTile(c, t);
    forall c: seq<R> | |c| == n
      ensures f(c) == Pick(c, Interleaved(n, t)) && g(c) == Pick(c, Interleaved(n, t))
      ensures h(c) == Pick(c, Tiled(n, t)) && e(c) == Pick(c, Tiled(n, t))
    {
      InterleaveAgrees(c, t);
      TileAgrees(c, t);
    }
    OneIndexMap(d, n, Interleaved(n, t), f, g);
    OneIndexMap(d, n, Tiled(n, t), h, e);
  }

  lemma DivideTwice(j: nat, s: nat, t: nat)
    requires s > 0 && t > 0
    ensures s * t > 0 && (j / t) / s == j / (s * t)
  {
    QuotientRemainder(j, t);
    QuotientRemainder(j / t, s);
    Divided((j / t) / s, (j / t) % s, j % t, s, t);
  }

  lemma Divided(u: nat, v: nat, r: nat, s: nat, t: nat)
    requires v < s && r < t
    ensures s * t > 0 && ((u * s + v) * t + r) / (s * t) == u
  {
    BlockBounds(v, s, t);
    Regroup(u, s, v, t);
    DivModUnique(u, v * t + r, s * t);
  }

  lemma Regroup(u: nat, s: nat, v: nat, t: nat)
    ensures (u * s + v) * t == u * (s * t) + v * t
  {
    assert u * s * t == u * (s * t);
  }

  lemma ReduceTwice(j: nat, n: nat, s: nat)
    requires n > 0 && s > 0
    ensures n * s > 0 && (j % (n * s)) % n == j % n
  {
    assert n * s > 0;
    QuotientRemainder(j, n * s);
    QuotientRemainder(j % (n * s), n);
    Reduced(j / (n * s), j % (n * s) / n, j % (n * s) % n, n, s);
  }

  lemma Reduced(q: nat, u: nat, v: nat, n: nat, s: nat)
    requires v < n
    ensures (q * (n * s) + (u * n + v)) % n == v
  {
    assert q * (n * s) == q * s * n;
    assert (q * s + u) * n == q * s * n + u * n;
    DivModUnique(q * s + u, v, n);
  }

  lemma IndicesTwice(n: nat, s: nat, t: nat, interleave: bool)
    ensures Pick(RepeatIndices(n, s, interleave), RepeatIndices(n * s, t, interleave)) == RepeatIndices(n, s * t, interleave)
  {
    var a := Pick(RepeatIndices(n, s, interleave), RepeatIndices(n * s, t, interleave));
    var b := RepeatIndices(n, s * t, interleave);
    assert (n * s) * t == n * (s * t);
    forall j | 0 <= j < |a| ensures a[j] == b[j] {
      IndexTwice(n, s, t, j);
    }
  }

  lemma IndexTwice(n: nat, s: nat, t: nat, j: nat)
    requires j < n * s * t
    ensures n > 0 && s > 0 && t > 0 && s * t > 0 && n * s > 0
    ensures (j / t) / s == j / (s * t) && (j % (n * s)) % n == j % n
  {
    QuotientBelow(j, n * s, t);
    QuotientBelow(j / t, n, s);
    DivideTwice(j, s, t);
    ReduceTwice(j, n, s);
  }

  /** Repeating twice is repeating once by the product, in either mode. */
  lemma RepeatTwice<R>(d: Data<R>, n: nat, s: nat, t: nat, interleave: bool)
    requires Aligned(d, n)
    ensures Repeat(Repeat(d, s, interleave), t, interleave) == Repeat(d, s * t, interleave)
  {
    RepeatIsRows(d, n, s, interleave);
    RepeatIsRows(Repeat(d, s, interleave), n * s, t, interleave);
    RepeatIsRows(d, n, s * t, interleave);
    RowsOfRows(d, RepeatIndices(n, s, interleave), RepeatIndices(n * s, t, interleave));
    IndicesTwice(n, s, t, interleave);
  }

  // ----- per-sample repetition -----

  /** Row `i` of the column `times[i]` times, in order. */
  function RepeatEach<T>(c: seq<T>, times: seq<nat>): seq<T>
    requires |times| == |c|
  {
    if c == [] then [] else Copies(c[0], times[0]) + RepeatEach(c[1..], times[1..])
  }

  /** A single count is broadcast to all rows. */
  function ArrayRepeatEach<T>(c: seq<T>, times: seq<nat>): Option<seq<T>> {
    if |times| == |c| then Some(RepeatEach(c, times))
    else if |times| == 1 then Some(RepeatEach(c, Copies(times[0], |c|)))
    else None
  }

  function SampleLevelRepeat<R>(d: Data<R>, times: seq<nat>): Result<Data<R>> {
    if d.batch.Some? && |times| != d.batch.value.size then Err(RuntimeError)
    else if exists k :: k in d.other && ArrayRepeatEach(d.other[k], times).None? then Err(RuntimeError)
    else
      var f := (c: seq<R>) => if |times| == |c| then RepeatEach(c, times) else [];
      var g := (c: seq<R>) => var r := ArrayRepeatEach(c, times); if r.Some? then r.value else [];
      Ok(OnColumns(d, SumNat(times), f, g))
  }

  lemma {:induction false} RepeatEachPicks<T>(c: seq<T>, times: seq<nat>, idx: seq<nat>)
    requires |idx| == |times| && Within(idx, |c|)
    ensures Within(RepeatEach<nat>(idx, times), |c|)
    ensures RepeatEach(Pick(c, idx), times) == Pick(c, RepeatEach<nat>(idx, times))
    decreases |idx|
  {
    if idx != [] {
      RepeatEachPicks(c, times[1..], idx[1..]);
      assert Pick(c, idx)[1..] == Pick(c, idx[1..]);
    }
  }

  lemma {:induction false} RepeatEachLength<T>(c: seq<T>, times: seq<nat>)
    requires |c| == |times|
    ensures |RepeatEach(c, times)| == SumNat(times)
  {
    if c != [] {
      RepeatEachLength(c[1..], times[1..]);
    }
  }

  /** Both sides follow the indices in which `i` stands `times[i]` times. */
  lemma SampleLevelIsRows<R>(d: Data<R>, n: nat, times: seq<nat>)
    requires Aligned(d, n) && |times| == n
    ensures Within(RepeatEach<nat>(Range(n), times), n)
    ensures SampleLevelRepeat(d, times) == Ok(Rows(d, RepeatEach<nat>(Range(n), times)))
  {
    var idx := RepeatEach<nat>(Range(n), times);
    RepeatEachLength<nat>(Range(n), times);
    RepeatEachPicks<nat>(Range(n), times, Range(n));
    assert Pick<nat>(Range(n), Range(n)) == Range(n);
    var f := (c: seq<R>) => if |times| == |c| then RepeatEach(c, times) else [];
    var g := (c: seq<R>) => var r := ArrayRepeatEach(c, times); if r.Some? then r.value else [];
    forall c: seq<R> | |c| == n ensures f(c) == Pick(c, idx) && g(c) == Pick(c, idx) {
      RepeatEachPicks(c, times, Range(n));
      assert Pick(c, Range(n)) == c;
    }
    OneIndexMap(d, n, idx, f, g);
  }

  /** In those indices `i` stands exactly `times[i]` times. */
  lemma {:induction false} SampleIndices(idx: seq<nat>, times: seq<nat>)
    requires |idx| == |times| && forall i, j :: 0 <= i < j < |idx| ==> idx[i] < idx[j]
    ensures var r := RepeatEach<nat>(idx, times);
            && (forall i :: 0 <= i < |idx| ==> multiset(r)[idx[i]] == times[i])
            && (forall x :: x in r ==> x in idx)
  {
    if idx != [] {
      var rest := RepeatEach<nat>(idx[1..], times[1..]);
      var head := Copies<nat>(idx[0], times[0]);
      SampleIndices(idx[1..], times[1..]);
      CopiesMultiplicity(idx[0], times[0]);
      assert forall x :: x in rest ==> x in idx[1..];
      assert idx[0] !in idx[1..];
      forall i | 0 <= i < |idx| ensures multiset(head + rest)[idx[i]] == times[i] {
        if i > 0 {
          assert idx[1..][i - 1] == idx[i];
          assert idx[i] !in head;
        } else {
          assert idx[0] !in rest;
        }
      }
    }
  }

  lemma {:induction false} SampleIndicesAscend(idx: seq<nat>, times: seq<nat>)
    requires |idx| == |times| && forall i, j :: 0 <= i < j < |idx| ==> idx[i] < idx[j]
    ensures var r := RepeatEach<nat>(idx, times); forall i, j :: 0 <= i < j < |r| ==> r[i] <= r[j]
  {
    if idx != [] {
      var rest := RepeatEach<nat>(idx[1..], times[1..]);
      SampleIndicesAscend(idx[1..], times[1..]);
      SampleIndices(idx[1..], times[1..]);
      forall j | 0 <= j < |rest| ensures idx[0] <= rest[j] {
        assert rest[j] in idx[1..];
      }
    }
  }

  lemma {:induction false} CopiesMultiplicity(x: nat, t: nat)
    ensures multiset(Copies<nat>(x, t))[x] == t
  {
    if t > 0 {
      CopiesMultiplicity(x, t - 1);
      assert Copies<nat>(x, t) == Copies<nat>(x, t - 1) + [x];
    } else {
      assert Copies<nat>(x, t) == [];
    }
  }
}
