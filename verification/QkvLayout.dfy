/** The grouped attention layout of a converted checkpoint, its tensor-parallel
    shards, and the merge that takes both apart again. Rows are abstract. */
module QkvLayout {
  import opened Options
  import opened Results
  import opened Sequences
  import opened RowMaps

  datatype Qkv<T> = Qkv(q: seq<T>, k: seq<T>, v: seq<T>)

  /** Block `i` of `width` rows. */
  function Block<T>(s: seq<T>, i: nat, width: nat): seq<T> {
    var lo := i * width;
    if 0 <= lo <= lo + width <= |s| then s[lo..lo + width] else []
  }

  // ----- grouping -----

  /** The rows of one key-value head: its queries, its keys, its values. */
  function GroupBlock<T>(x: Qkv<T>, g: nat, qWidth: nat, kvWidth: nat): seq<T> {
    Block(x.q, g, qWidth) + Block(x.k, g, kvWidth) + Block(x.v, g, kvWidth)
  }

  function GroupBlocks<T>(x: Qkv<T>, groups: nat, qWidth: nat, kvWidth: nat): seq<seq<T>> {
    seq(groups, (g: nat) => GroupBlock(x, g, qWidth, kvWidth))
  }

  /** The views per group, concatenated behind the group dimension. */
  function Group<T>(x: Qkv<T>, groups: nat, qWidth: nat, kvWidth: nat): seq<T> {
    Flatten(GroupBlocks(x, groups, qWidth, kvWidth))
  }

  predicate HasShape<T>(x: Qkv<T>, groups: nat, qWidth: nat, kvWidth: nat) {
    |x.q| == groups * qWidth && |x.k| == groups * kvWidth && |x.v| == groups * kvWidth
  }

  lemma BlockFits<T>(s: seq<T>, i: nat, n: nat, width: nat)
    requires |s| == n * width && i < n
    ensures |Block(s, i, width)| == width && IsBlock(s, i, width, Block(s, i, width))
  {
    BlockBounds(i, n, width);
  }

  // ----- the vision tower's layout -----

  /** A view as `n0` by `n1` blocks, row-major. */
  function View<T>(w: seq<T>, n0: nat, n1: nat, width: nat): (r: seq<seq<seq<T>>>)
    ensures |r| == n0 && forall t :: 0 <= t < n0 ==> |r[t]| == n1
  {
    seq(n0, (t: nat) => seq(n1, (g: nat) => Block(w, t * n1 + g, width)))
  }

  function Transposed<T>(m: seq<seq<seq<T>>>, n1: nat): (r: seq<seq<seq<T>>>)
    requires forall t :: 0 <= t < |m| ==> |m[t]| == n1
    ensures |r| == n1
  {
    seq(n1, g requires 0 <= g < n1 => Column(m, g))
  }

  /** View as (3, groups, ...), swap the first two dimensions and flatten. */
  function VisionGroup<T>(w: seq<T>, groups: nat, width: nat): seq<T> {
    Flatten(Map((row: seq<seq<T>>) => Flatten(row), Transposed(View(w, 3, groups, width), groups)))
  }

  lemma FlattenThree<T>(a: seq<T>, b: seq<T>, c: seq<T>)
    ensures Flatten([a, b, c]) == a + b + c
  {
    assert [a, b, c] == [a, b] + [c] && [a, b] == [a] + [b];
    FlattenAppend([a, b], c);
    FlattenAppend([a], b);
    assert Flatten([a]) == a + Flatten([a][1..]);
  }

  lemma ThirdBlock<T>(w: seq<T>, t: nat, g: nat, groups: nat, width: nat, lo: nat, hi: nat)
    requires g < groups && lo == t * (groups * width) && hi == lo + groups * width && hi <= |w|
    ensures Block(w, t * groups + g, width) == Block(w[lo..hi], g, width)
  {
    BlockBounds(g, groups, width);
    RowOffset(t, groups, g, width);
    SliceOfSlice(w, lo, hi, g * width, g * width + width);
  }

  lemma RowOffset(t: nat, groups: nat, g: nat, width: nat)
    ensures (t * groups + g) * width == t * (groups * width) + g * width
  {
    assert t * groups * width == t * (groups * width);
  }

  /** The vision form is the grouped layout of the three thirds. */
  lemma VisionIsGrouped<T>(w: seq<T>, groups: nat, width: nat)
    requires |w| == 3 * (groups * width)
    ensures var n := groups * width;
            VisionGroup(w, groups, width) == Group(Qkv(w[..n], w[n..2 * n], w[2 * n..]), groups, width, width)
  {
    var n := groups * width;
    var x := Qkv(w[..n], w[n..2 * n], w[2 * n..]);
    var m := View(w, 3, groups, width);
    hide Flatten, Block, GroupBlock, View;
    var rows := Map((row: seq<seq<T>>) => Flatten(row), Transposed(m, groups));
    forall g | 0 <= g < groups ensures rows[g] == GroupBlock(x, g, width, width) {
      VisionRow(w, groups, width, g, n);
    }
    assert rows == GroupBlocks(x, groups, width, width);
  }

  lemma VisionRow<T>(w: seq<T>, groups: nat, width: nat, g: nat, n: nat)
    requires n == groups * width && |w| == 3 * n && g < groups
    ensures Flatten(Transposed(View(w, 3, groups, width), groups)[g])
         == GroupBlock(Qkv(w[..n], w[n..2 * n], w[2 * n..]), g, width, width)
  {
    hide Flatten, Block, View, Transposed, Column;
    assert w[0..n] == w[..n] && w[2 * n..3 * n] == w[2 * n..];
    ThirdBlocks(w, g, groups, width, n);
    TransposedView(w, groups, width, g);
    FlattenThree(Block(w, g, width), Block(w, groups + g, width), Block(w, 2 * groups + g, width));
  }

  lemma ThirdBlocks<T>(w: seq<T>, g: nat, groups: nat, width: nat, n: nat)
    requires n == groups * width && |w| == 3 * n && g < groups
    ensures Block(w, g, width) == Block(w[0..n], g, width)
    ensures Block(w, groups + g, width) == Block(w[n..2 * n], g, width)
    ensures Block(w, 2 * groups + g, width) == Block(w[2 * n..3 * n], g, width)
  {
    hide Block;
    ThirdBlock(w, 0, g, groups, width, 0, n);
    ThirdBlock(w, 1, g, groups, width, n, 2 * n);
    ThirdBlock(w, 2, g, groups, width, 2 * n, 3 * n);
  }

  /** The blocks that the transposition brings together. */
  lemma TransposedView<T>(w: seq<T>, groups: nat, width: nat, g: nat)
    requires g < groups
    ensures Transposed(View(w, 3, groups, width), groups)[g]
         == [Block(w, g, width), Block(w, groups + g, width), Block(w, 2 * groups + g, width)]
  {
    hide Block;
    assert 0 * groups == 0 && 1 * groups == groups;
  }

  // ----- merging shards -----

  /** One group's rows taken apart; the sizes must add up. */
  predicate Splits<T>(chunk: seq<T>, qSize: nat, kvSize: nat) {
    |chunk| == qSize + kvSize + kvSize
  }

  predicate AllSplit<T>(chunks: seq<seq<T>>, qSize: nat, kvSize: nat) {
    forall i :: 0 <= i < |chunks| ==> Splits(chunks[i], qSize, kvSize)
  }

  /** All chunks taken apart, each kind concatenated. */
  function Ungroup<T>(chunks: seq<seq<T>>, qSize: nat, kvSize: nat): Option<Qkv<T>> {
    if !AllSplit(chunks, qSize, kvSize) then None
    else Some(Qkv(Flatten(QParts(chunks, qSize, kvSize)), Flatten(KParts(chunks, qSize, kvSize)), Flatten(VParts(chunks, qSize, kvSize))))
  }

  function QParts<T>(chunks: seq<seq<T>>, qSize: nat, kvSize: nat): (r: seq<seq<T>>)
    requires AllSplit(chunks, qSize, kvSize)
    ensures |r| == |chunks|
  {
    seq(|chunks|, i requires 0 <= i < |chunks| => (assert Splits(chunks[i], qSize, kvSize); chunks[i][..qSize]))
  }

  function KParts<T>(chunks: seq<seq<T>>, qSize: nat, kvSize: nat): (r: seq<seq<T>>)
    requires AllSplit(chunks, qSize, kvSize)
    ensures |r| == |chunks|
  {
    seq(|chunks|, i requires 0 <= i < |chunks| => (assert Splits(chunks[i], qSize, kvSize); chunks[i][qSize..qSize + kvSize]))
  }

  function VParts<T>(chunks: seq<seq<T>>, qSize: nat, kvSize: nat): (r: seq<seq<T>>)
    requires AllSplit(chunks, qSize, kvSize)
    ensures |r| == |chunks|
  {
    seq(|chunks|, i requires 0 <= i < |chunks| => (assert Splits(chunks[i], qSize, kvSize); chunks[i][qSize + kvSize..]))
  }

  /** The chunks of all shards, in order. */
  function AllChunks<T>(shards: seq<seq<T>>, k: nat): seq<seq<T>>
    requires k > 0
  {
    if shards == [] then [] else TorchChunk(shards[0], k) + AllChunks(shards[1..], k)
  }

  /** The query and key-value rows per group, from the rows of one shard. */
  function SplitSizes(rows: nat, qPerKv: nat, groups: nat): (sizes: (nat, nat))
    requires groups > 0
  {
    var kvSizePerTp := rows / (qPerKv + 2);
    (kvSizePerTp * qPerKv / groups, kvSizePerTp / groups)
  }

  /** What the merge makes of the shards of a grouped weight or bias. */
  function Merged<T>(shards: seq<seq<T>>, heads: nat, kvHeads: nat): Result<Qkv<T>>
    requires shards != []
  {
    if kvHeads == 0 then Err(ZeroDivisionError)
    else if heads % kvHeads != 0 || |shards[0]| % (heads / kvHeads + 2) != 0 then Err(AssertionError)
    else
      var groups := kvHeads / |shards|;
      if groups == 0 then Err(RuntimeError)
      else
        var sizes := SplitSizes(|shards[0]|, heads / kvHeads, groups);
        var x := Ungroup(AllChunks(shards, groups), sizes.0, sizes.1);
        if x.None? then Err(RuntimeError) else Ok(x.value)
  }

  method MergeQkvAcrossTp<T>(shards: seq<seq<T>>, heads: nat, kvHeads: nat) returns (r: Result<Qkv<T>>)
    requires shards != []
    ensures r == Merged(shards, heads, kvHeads)
  {
    if kvHeads == 0 {
      return Err(ZeroDivisionError);
    }
    if heads % kvHeads != 0 || |shards[0]| % (heads / kvHeads + 2) != 0 {
      return Err(AssertionError);
    }
    var groups := kvHeads / |shards|;
    if groups == 0 {
      return Err(RuntimeError);
    }
    var sizes := SplitSizes(|shards[0]|, heads / kvHeads, groups);
    var x := UngroupShards(shards, groups, sizes.0, sizes.1);
    r := if x.None? then Err(RuntimeError) else Ok(x.value);
  }

  method UngroupShards<T>(shards: seq<seq<T>>, groups: nat, qSize: nat, kvSize: nat) returns (x: Option<Qkv<T>>)
    requires groups > 0
    ensures x == Ungroup(AllChunks(shards, groups), qSize, kvSize)
  {
    ghost var all := AllChunks(shards, groups);
    var q: seq<T>, k: seq<T>, v: seq<T> := [], [], [];
    ghost var done := 0;
    for i := 0 to |shards|
      invariant done <= |all| && all[done..] == AllChunks(shards[i..], groups)
      invariant IsUngrouped(all[..done], qSize, kvSize, q, k, v)
    {
      assert shards[i..][0] == shards[i] && shards[i..][1..] == shards[i + 1..];
      var chunks := TorchChunk(shards[i], groups);
      assert all[done..] == chunks + AllChunks(shards[i + 1..], groups);
      for j := 0 to |chunks|
        invariant done <= |all| && all[done..] == chunks[j..] + AllChunks(shards[i + 1..], groups)
        invariant IsUngrouped(all[..done], qSize, kvSize, q, k, v)
      {
        var chunk := chunks[j];
        NextChunk(all, done, chunks, j, AllChunks(shards[i + 1..], groups));
        if !Splits(chunk, qSize, kvSize) {
          assert !AllSplit(all, qSize, kvSize);
          return None;
        }
        UngroupNext(all, done, qSize, kvSize, q, k, v);
        q, k, v := q + chunk[..qSize], k + chunk[qSize..qSize + kvSize], v + chunk[qSize + kvSize..];
        done := done + 1;
      }
    }
    assert all[..done] == all;
    x := Some(Qkv(q, k, v));
  }

  ghost predicate IsUngrouped<T>(chunks: seq<seq<T>>, qSize: nat, kvSize: nat, q: seq<T>, k: seq<T>, v: seq<T>) {
    Ungroup(chunks, qSize, kvSize) == Some(Qkv(q, k, v))
  }

  lemma NextChunk<T>(all: seq<seq<T>>, done: nat, chunks: seq<seq<T>>, j: nat, rest: seq<seq<T>>)
    requires done <= |all| && j < |chunks| && all[done..] == chunks[j..] + rest
    ensures done < |all| && all[done] == chunks[j] && all[done + 1..] == chunks[j + 1..] + rest
  {
    assert all[done..][0] == chunks[j];
    assert all[done + 1..] == all[done..][1..];
  }

  lemma UngroupNext<T>(all: seq<seq<T>>, done: nat, qSize: nat, kvSize: nat, q: seq<T>, k: seq<T>, v: seq<T>)
    requires done < |all| && Splits(all[done], qSize, kvSize) && IsUngrouped(all[..done], qSize, kvSize, q, k, v)
    ensures var c := all[done];
            IsUngrouped(all[..done + 1], qSize, kvSize, q + c[..qSize], k + c[qSize..qSize + kvSize], v + c[qSize + kvSize..])
  {
    PartsAppend(all, done, qSize, kvSize);
  }

  lemma PartsAppend<T>(chunks: seq<seq<T>>, j: nat, qSize: nat, kvSize: nat)
    requires j < |chunks| && Splits(chunks[j], qSize, kvSize)
    requires AllSplit(chunks[..j], qSize, kvSize)
    ensures AllSplit(chunks[..j + 1], qSize, kvSize)
    ensures Flatten(QParts(chunks[..j + 1], qSize, kvSize)) == Flatten(QParts(chunks[..j], qSize, kvSize)) + chunks[j][..qSize]
    ensures Flatten(KParts(chunks[..j + 1], qSize, kvSize))
         == Flatten(KParts(chunks[..j], qSize, kvSize)) + chunks[j][qSize..qSize + kvSize]
    ensures Flatten(VParts(chunks[..j + 1], qSize, kvSize))
         == Flatten(VParts(chunks[..j], qSize, kvSize)) + chunks[j][qSize + kvSize..]
  {
    var a, b := chunks[..j], chunks[..j + 1];
    assert b == a + [chunks[j]];
    assert QParts(b, qSize, kvSize) == QParts(a, qSize, kvSize) + [chunks[j][..qSize]];
    assert KParts(b, qSize, kvSize) == KParts(a, qSize, kvSize) + [chunks[j][qSize..qSize + kvSize]];
    assert VParts(b, qSize, kvSize) == VParts(a, qSize, kvSize) + [chunks[j][qSize + kvSize..]];
    FlattenAppend(QParts(a, qSize, kvSize), chunks[j][..qSize]);
    FlattenAppend(KParts(a, qSize, kvSize), chunks[j][qSize..qSize + kvSize]);
    FlattenAppend(VParts(a, qSize, kvSize), chunks[j][qSize + kvSize..]);
  }

  // ----- the round trip -----

  /** Even chunks are a split by the quotient. */
  lemma EvenChunk<T>(s: seq<T>, k: nat, width: nat)
    requires k > 0 && width > 0 && |s| == k * width
    ensures TorchChunk(s, k) == Split(s, width)
  {
    assert width * k == |s|;
    assert (width - 1) * k == |s| - k;
    CeilDivIs(|s|, k, width);
  }

  lemma {:induction false} ChunksAreSplits<T>(shards: seq<seq<T>>, k: nat, width: nat)
    requires k > 0 && width > 0 && forall i :: 0 <= i < |shards| ==> |shards[i]| == k * width
    ensures AllChunks(shards, k) == Flatten(Map((s: seq<T>) => if width > 0 then Split(s, width) else [], shards))
  {
    if shards != [] {
      var f := (s: seq<T>) => if width > 0 then Split(s, width) else [];
      EvenChunk(shards[0], k, width);
      ChunksAreSplits(shards[1..], k, width);
      assert Map(f, shards)[1..] == Map(f, shards[1..]);
    }
  }

  /** Any even cut of uniform blocks that keeps blocks whole falls apart into
      the same blocks. */
  lemma ShardsHoldBlocks<T>(blocks: seq<seq<T>>, width: nat, tpSize: nat, perShard: nat)
    requires width > 0 && tpSize > 0 && perShard > 0 && |blocks| == tpSize * perShard
    requires forall i :: 0 <= i < |blocks| ==> |blocks[i]| == width
    ensures |TorchChunk(Flatten(blocks), tpSize)| == tpSize
    ensures forall i :: 0 <= i < tpSize ==> |TorchChunk(Flatten(blocks), tpSize)[i]| == perShard * width
    ensures AllChunks(TorchChunk(Flatten(blocks), tpSize), perShard) == blocks
  {
    var flat := Flatten(blocks);
    var mini := perShard * width;
    FlattenUniformLength(blocks, width);
    assert (tpSize * perShard) * width == tpSize * mini;
    assert mini > 0 && mini % width == 0 by {
      DivModUnique(perShard, 0, width);
    }
    EvenChunk(flat, tpSize, mini);
    SplitEven(flat, mini, tpSize);
    ChunksAreSplits(Split(flat, mini), perShard, width);
    SplitTwice(flat, mini, width);
    SplitOfFlatten(blocks, width);
  }

  lemma SplitOfFlatten<T>(blocks: seq<seq<T>>, width: nat)
    requires width > 0 && forall i :: 0 <= i < |blocks| ==> |blocks[i]| == width
    ensures Split(Flatten(blocks), width) == blocks
  {
    FlattenUniformLength(blocks, width);
    SplitEven(Flatten(blocks), width, |blocks|);
    SplitFlatten(Flatten(blocks), width);
    assert Lengths(Split(Flatten(blocks), width)) == Lengths(blocks);
    PiecesByLength(Split(Flatten(blocks), width), blocks);
  }

  lemma GroupedParts<T>(x: Qkv<T>, groups: nat, qWidth: nat, kvWidth: nat)
    requires HasShape(x, groups, qWidth, kvWidth)
    ensures forall g :: 0 <= g < groups ==> Splits(GroupBlocks(x, groups, qWidth, kvWidth)[g], qWidth, kvWidth)
    ensures Ungroup(GroupBlocks(x, groups, qWidth, kvWidth), qWidth, kvWidth) == Some(x)
  {
    var blocks := GroupBlocks(x, groups, qWidth, kvWidth);
    forall g | 0 <= g < groups
      ensures Splits(blocks[g], qWidth, kvWidth)
      ensures IsBlock(x.q, g, qWidth, blocks[g][..qWidth])
      ensures IsBlock(x.k, g, kvWidth, blocks[g][qWidth..qWidth + kvWidth])
      ensures IsBlock(x.v, g, kvWidth, blocks[g][qWidth + kvWidth..])
    {
      BlockFits(x.q, g, groups, qWidth);
      BlockFits(x.k, g, groups, kvWidth);
      BlockFits(x.v, g, groups, kvWidth);
    }
    FlattenBlocks(x.q, groups, qWidth, QParts(blocks, qWidth, kvWidth));
    FlattenBlocks(x.k, groups, kvWidth, KParts(blocks, qWidth, kvWidth));
    FlattenBlocks(x.v, groups, kvWidth, VParts(blocks, qWidth, kvWidth));
  }

  /** The sizes the merge computes from a shard are the group's widths. */
  lemma MergeSizes(perShard: nat, qPerKv: nat, headDim: nat)
    requires perShard > 0
    ensures var rows := perShard * (qPerKv * headDim + headDim + headDim);
            && rows % (qPerKv + 2) == 0
            && rows / (qPerKv + 2) == perShard * headDim
            && perShard * headDim * qPerKv / perShard == qPerKv * headDim
            && perShard * headDim / perShard == headDim
  {
    assert perShard * (qPerKv * headDim + headDim + headDim) == (perShard * headDim) * (qPerKv + 2);
    DivModUnique(perShard * headDim, 0, qPerKv + 2);
    assert perShard * headDim * qPerKv == (qPerKv * headDim) * perShard;
    DivModUnique(qPerKv * headDim, 0, perShard);
    assert perShard * headDim == headDim * perShard;
    DivModUnique(headDim, 0, perShard);
  }

  /** Grouping, cutting into any number of tensor-parallel shards that divides
      the key-value heads, and merging gives the rows back. */
  lemma QkvRoundTrip<T>(x: Qkv<T>, heads: nat, kvHeads: nat, headDim: nat, tpSize: nat)
    requires kvHeads > 0 && headDim > 0 && tpSize > 0 && heads % kvHeads == 0 && kvHeads % tpSize == 0
    requires HasShape(x, kvHeads, heads / kvHeads * headDim, headDim)
    ensures var shards := TorchChunk(Group(x, kvHeads, heads / kvHeads * headDim, headDim), tpSize);
            |shards| == tpSize && Merged(shards, heads, kvHeads) == Ok(x)
  {
    hide Flatten, TorchChunk, AllChunks, Ungroup, GroupBlock;
    var qPerKv, perShard := heads / kvHeads, kvHeads / tpSize;
    var qWidth := qPerKv * headDim;
    GroupedParts(x, kvHeads, qWidth, headDim);
    ExactQuotient(kvHeads, tpSize);
    assert perShard == 0 ==> kvHeads == 0 * tpSize;
    ShardsHoldBlocks(GroupBlocks(x, kvHeads, qWidth, headDim), qWidth + headDim + headDim, tpSize, perShard);
    MergeSizes(perShard, qPerKv, headDim);
  }

  // ----- gate and up projections -----

  /** Each shard holds its part of the gate rows above its part of the up rows. */
  method MergeGateUp<T>(shards: seq<seq<T>>, ghost gates: seq<seq<T>>, ghost ups: seq<seq<T>>)
    returns (gate: seq<T>, up: seq<T>)
    requires |gates| == |ups| == |shards|
    requires forall i :: 0 <= i < |shards| ==> shards[i] == gates[i] + ups[i] && |gates[i]| == |ups[i]|
    ensures gate == Flatten(gates) && up == Flatten(ups)
  {
    gate, up := [], [];
    for i := 0 to |shards|
      invariant gate == Flatten(gates[..i]) && up == Flatten(ups[..i])
    {
      Halves(gates[i], ups[i]);
      var halves := TorchChunk(shards[i], 2);
      gate, up := gate + halves[0], up + halves[1];
      assert gates[..i + 1] == gates[..i] + [gates[i]] && ups[..i + 1] == ups[..i] + [ups[i]];
      FlattenAppend(gates[..i], gates[i]);
      FlattenAppend(ups[..i], ups[i]);
    }
    assert gates[..|shards|] == gates && ups[..|shards|] == ups;
  }

  lemma Halves<T>(a: seq<T>, b: seq<T>)
    requires |a| == |b|
    ensures TorchChunk(a + b, 2) == [a, b]
  {
    if a == [] {
      assert a + b == [];
    } else {
      EvenChunk(a + b, 2, |a|);
      SplitHead(a + b, |a|);
      assert (a + b)[..|a|] == a && (a + b)[|a|..] == b;
      SplitHead(b, |a|);
      assert b[..|a|] == b && b[|a|..] == [];
    }
  }
}
