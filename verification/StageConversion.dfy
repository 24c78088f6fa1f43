/** The converter's side of the pipeline layout: stages cut at the running
    totals of the shard sizes are a cut of the model, so that merging what was
    converted gives the model back. */
module StageConversion {
  import opened Results
  import opened Sequences
  import opened RowMaps
  import opened LayerLayout
  import PipelineShards

  type Params<V> = seq<(string, V)>

  /** A layer's parameters under the number it has in its stage. */
  function LayerEntries<V>(params: Params<V>, no: nat): (r: Stage<V>)
    ensures |r| == |params|
  {
    seq(|params|, t requires 0 <= t < |params| => (Layer(no, params[t].0), params[t].1))
  }

  function GlobalEntries<V>(params: Params<V>): (r: Stage<V>)
    ensures |r| == |params|
  {
    seq(|params|, t requires 0 <= t < |params| => (Global(params[t].0), params[t].1))
  }

  /** The layers from `start` to `end`, numbered from zero. */
  function StageLayers<V>(layers: seq<Params<V>>, start: nat, end: nat): Stage<V>
    requires start <= end <= |layers|
    decreases end
  {
    if start == end then [] else StageLayers(layers, start, end - 1) + LayerEntries(layers[end - 1], end - 1 - start)
  }

  /** The bounds of a rank's layers. */
  function LayerStart(shards: seq<nat>, rank: nat): nat
    requires rank < |shards|
  {
    if rank == 0 then 0 else CumSum(shards, 0)[rank - 1]
  }

  function LayerEnd(shards: seq<nat>, rank: nat): nat
    requires rank < |shards|
  {
    CumSum(shards, 0)[rank]
  }

  lemma {:induction false} CumSumAt(sizes: seq<nat>, from: nat, i: nat)
    requires i < |sizes|
    ensures CumSum(sizes, from)[i] == from + SumNat(sizes[..i + 1])
    decreases |sizes|
  {
    assert sizes[..i + 1][1..] == sizes[1..][..i];
    if i > 0 {
      CumSumAt(sizes[1..], from + sizes[0], i - 1);
    } else {
      assert sizes[1..][..0] == [];
    }
  }

  lemma {:induction false} OffsetIsSum(sizes: seq<nat>, i: nat)
    requires i <= |sizes|
    ensures Offset(sizes, i) == SumNat(sizes[..i])
    decreases i
  {
    if i > 0 {
      OffsetIsSum(sizes, i - 1);
      assert sizes[..i] == sizes[..i - 1] + [sizes[i - 1]];
      SumNatConcat(sizes[..i - 1], [sizes[i - 1]]);
      PipelineShards.SumOne(sizes[i - 1]);
    }
  }

  /** Each stage starts where the one before it ends. */
  lemma BoundsAreOffsets(shards: seq<nat>, rank: nat)
    requires rank < |shards|
    ensures LayerStart(shards, rank) == Offset(shards, rank)
    ensures LayerEnd(shards, rank) == Offset(shards, rank + 1) == Offset(shards, rank) + shards[rank]
  {
    OffsetIsSum(shards, rank);
    OffsetIsSum(shards, rank + 1);
    CumSumAt(shards, 0, rank);
    if rank > 0 {
      CumSumAt(shards, 0, rank - 1);
    }
  }

  lemma {:induction false} OffsetsWithin(shards: seq<nat>, i: nat, j: nat)
    requires i <= j <= |shards|
    ensures Offset(shards, i) <= Offset(shards, j)
    decreases j
  {
    if i < j {
      OffsetsWithin(shards, i, j - 1);
    }
  }

  /** What a rank's conversion writes: the embedding on the first rank, its
      layers, and the final norm and head on the last rank. */
  function ConvertedStage<V>(layers: seq<Params<V>>, head: Params<V>, tail: Params<V>, shards: seq<nat>, rank: nat): Stage<V>
    requires rank < |shards| && Offset(shards, |shards|) == |layers|
  {
    BoundsAreOffsets(shards, rank);
    OffsetsWithin(shards, rank + 1, |shards|);
    (if rank == 0 then GlobalEntries(head) else [])
    + StageLayers(layers, LayerStart(shards, rank), LayerEnd(shards, rank))
    + (if rank == |shards| - 1 then GlobalEntries(tail) else [])
  }

  function Converted<V>(layers: seq<Params<V>>, head: Params<V>, tail: Params<V>, shards: seq<nat>): (r: seq<Stage<V>>)
    requires Offset(shards, |shards|) == |layers|
    ensures |r| == |shards|
  {
    seq(|shards|, rank requires 0 <= rank < |shards| => ConvertedStage(layers, head, tail, shards, rank))
  }

  // ----- the model -----

  ghost predicate HasParam<V>(params: Params<V>, name: string, v: V) {
    exists t :: 0 <= t < |params| && params[t] == (name, v)
  }

  /** `(k, v)` is a parameter of the model. */
  ghost predicate IsParam<V>(layers: seq<Params<V>>, head: Params<V>, tail: Params<V>, k: Key, v: V) {
    if k.Layer? then k.no < |layers| && HasParam(layers[k.no], k.name, v)
    else HasParam(head, k.name, v) || HasParam(tail, k.name, v)
  }

  ghost predicate IsModel<V(!new)>(model: map<Key, V>, layers: seq<Params<V>>, head: Params<V>, tail: Params<V>) {
    && (forall k, v :: IsParam(layers, head, tail, k, v) ==> k in model && model[k] == v)
    && (forall k :: k in model ==> IsParam(layers, head, tail, k, model[k]))
    && (forall l :: 0 <= l < |layers| ==> layers[l] != [])
  }

  // ----- the converted stages are a cut -----

  /** Entry `e` is layer `l`'s under its local number. */
  ghost predicate FromLayer<V>(layers: seq<Params<V>>, start: nat, end: nat, e: (Key, V)) {
    e.0.Layer? && start + e.0.no < end <= |layers| && HasParam(layers[start + e.0.no], e.0.name, e.1)
  }

  lemma {:induction false} StageEntriesFrom<V>(layers: seq<Params<V>>, start: nat, end: nat, e: (Key, V))
    requires start <= end <= |layers|
    ensures e in StageLayers(layers, start, end) <==> FromLayer(layers, start, end, e)
    decreases end
  {
    if start < end {
      StageEntriesFrom(layers, start, end - 1, e);
      var last := LayerEntries(layers[end - 1], end - 1 - start);
      if e in last {
        var t :| 0 <= t < |last| && last[t] == e;
        assert layers[end - 1][t] == (e.0.name, e.1);
      }
      if FromLayer(layers, start, end, e) && start + e.0.no == end - 1 {
        var t :| 0 <= t < |layers[end - 1]| && layers[end - 1][t] == (e.0.name, e.1);
        assert last[t] == e;
      }
    }
  }

  lemma GlobalEntriesFrom<V>(params: Params<V>, e: (Key, V))
    ensures e in GlobalEntries(params) <==> e.0.Global? && HasParam(params, e.0.name, e.1)
  {
    var r := GlobalEntries(params);
    if e in r {
      var t :| 0 <= t < |r| && r[t] == e;
      assert params[t] == (e.0.name, e.1);
    }
    if e.0.Global? && HasParam(params, e.0.name, e.1) {
      var t :| 0 <= t < |params| && params[t] == (e.0.name, e.1);
      assert r[t] == e;
    }
  }

  /** The entries of a converted stage. */
  lemma StageHolds<V>(layers: seq<Params<V>>, head: Params<V>, tail: Params<V>, shards: seq<nat>, rank: nat, e: (Key, V))
    requires rank < |shards| && Offset(shards, |shards|) == |layers|
    ensures e in ConvertedStage(layers, head, tail, shards, rank) <==>
      || FromLayer(layers, Offset(shards, rank), Offset(shards, rank + 1), e)
      || (e.0.Global? && rank == 0 && HasParam(head, e.0.name, e.1))
      || (e.0.Global? && rank == |shards| - 1 && HasParam(tail, e.0.name, e.1))
  {
    BoundsAreOffsets(shards, rank);
    OffsetsWithin(shards, rank + 1, |shards|);
    StageEntriesFrom(layers, Offset(shards, rank), Offset(shards, rank + 1), e);
    GlobalEntriesFrom(head, e);
    GlobalEntriesFrom(tail, e);
  }

  const KEEP_ALL: Key -> bool := (k: Key) => false

  lemma ConvertedStageIsCut<V(!new)>(model: map<Key, V>, layers: seq<Params<V>>, head: Params<V>, tail: Params<V>, shards: seq<nat>, rank: nat)
    requires IsModel(model, layers, head, tail)
    requires rank < |shards| && Offset(shards, |shards|) == |layers|
    ensures StageCut(model, Offset(shards, rank), shards[rank], ConvertedStage(layers, head, tail, shards, rank), KEEP_ALL)
  {
    BoundsAreOffsets(shards, rank);
    hide ConvertedStage, Offset, Belongs, HasLayer, IsModel, Converted, KEEP_ALL;
    var stage := ConvertedStage(layers, head, tail, shards, rank);
    var offset := Offset(shards, rank);
    forall j | 0 <= j < |stage| ensures Belongs(model, offset, shards[rank], stage[j]) {
      EntryBelongs(model, layers, head, tail, shards, rank, stage[j]);
    }
    if shards[rank] > 0 {
      LastLayerHeld(model, layers, head, tail, shards, rank);
    }
  }

  lemma EntryBelongs<V(!new)>(model: map<Key, V>, layers: seq<Params<V>>, head: Params<V>, tail: Params<V>, shards: seq<nat>, rank: nat, e: (Key, V))
    requires IsModel(model, layers, head, tail)
    requires rank < |shards| && Offset(shards, |shards|) == |layers| && e in ConvertedStage(layers, head, tail, shards, rank)
    ensures Belongs(model, Offset(shards, rank), shards[rank], e)
  {
    BoundsAreOffsets(shards, rank);
    StageHolds(layers, head, tail, shards, rank, e);
    hide ConvertedStage, Offset, HasParam;
    assert IsParam(layers, head, tail, Renumbered(e.0, Offset(shards, rank)), e.1);
  }

  lemma LastLayerHeld<V(!new)>(model: map<Key, V>, layers: seq<Params<V>>, head: Params<V>, tail: Params<V>, shards: seq<nat>, rank: nat)
    requires IsModel(model, layers, head, tail)
    requires rank < |shards| && Offset(shards, |shards|) == |layers| && shards[rank] > 0
    ensures HasLayer(ConvertedStage(layers, head, tail, shards, rank), KEEP_ALL, shards[rank] - 1)
  {
    hide ConvertedStage, Offset, IsModel, HasLayer, FromLayer, HasParam;
    var no := shards[rank] - 1;
    var p := FirstParam(model, layers, head, tail, shards, rank, no);
    StageHolds(layers, head, tail, shards, rank, (Layer(no, p.0), p.1));
    EntryIsHeld(ConvertedStage(layers, head, tail, shards, rank), no, p.0, p.1);
  }

  /** Layer `no` of a stage has a parameter. */
  lemma FirstParam<V(!new)>(model: map<Key, V>, layers: seq<Params<V>>, head: Params<V>, tail: Params<V>, shards: seq<nat>, rank: nat, no: nat)
      returns (p: (string, V))
    requires IsModel(model, layers, head, tail)
    requires rank < |shards| && Offset(shards, |shards|) == |layers| && no < shards[rank]
    ensures FromLayer(layers, Offset(shards, rank), Offset(shards, rank + 1), (Layer(no, p.0), p.1))
  {
    BoundsAreOffsets(shards, rank);
    OffsetsWithin(shards, rank + 1, |shards|);
    hide Offset, IsParam;
    p := layers[Offset(shards, rank) + no][0];
    assert HasParam(layers[Offset(shards, rank) + no], p.0, p.1);
  }

  lemma EntryIsHeld<V>(stage: Stage<V>, no: nat, name: string, v: V)
    requires (Layer(no, name), v) in stage
    ensures HasLayer(stage, KEEP_ALL, no)
  {
    var j :| 0 <= j < |stage| && stage[j] == (Layer(no, name), v);
  }

  lemma {:induction false} StageOf(shards: seq<nat>, n: nat, l: nat) returns (i: nat)
    requires n <= |shards| && l < Offset(shards, n)
    ensures i < n && Offset(shards, i) <= l < Offset(shards, i + 1)
    decreases n
  {
    if l < Offset(shards, n - 1) {
      i := StageOf(shards, n - 1, l);
    } else {
      i := n - 1;
    }
  }

  lemma ParamIsKept<V>(layers: seq<Params<V>>, head: Params<V>, tail: Params<V>, shards: seq<nat>, k: Key, v: V)
    requires |shards| > 0 && Offset(shards, |shards|) == |layers| && IsParam(layers, head, tail, k, v)
    ensures KeptSomewhere(shards, Converted(layers, head, tail, shards), KEEP_ALL, k)
  {
    hide *;
    var i, local := LocalKey(layers, head, tail, shards, k, v);
    EntryKept(layers, head, tail, shards, i, local, v, k);
  }

  /** The stage of a parameter and its key there. */
  lemma LocalKey<V>(layers: seq<Params<V>>, head: Params<V>, tail: Params<V>, shards: seq<nat>, k: Key, v: V) returns (i: nat, local: Key)
    requires |shards| > 0 && Offset(shards, |shards|) == |layers| && IsParam(layers, head, tail, k, v)
    ensures i < |shards| && Renumbered(local, Offset(shards, i)) == k
    ensures (local, v) in ConvertedStage(layers, head, tail, shards, i)
  {
    if k.Layer? {
      i := StageOf(shards, |shards|, k.no);
      local := Layer(k.no - Offset(shards, i), k.name);
    } else {
      i, local := if HasParam(head, k.name, v) then 0 else |shards| - 1, k;
    }
    OffsetsWithin(shards, i + 1, |shards|);
    hide ConvertedStage, Offset, HasParam;
    StageHolds(layers, head, tail, shards, i, (local, v));
  }

  lemma EntryKept<V>(layers: seq<Params<V>>, head: Params<V>, tail: Params<V>, shards: seq<nat>, i: nat, local: Key, v: V, k: Key)
    requires i < |shards| && Offset(shards, |shards|) == |layers| && Renumbered(local, Offset(shards, i)) == k
    requires (local, v) in ConvertedStage(layers, head, tail, shards, i)
    ensures KeptSomewhere(shards, Converted(layers, head, tail, shards), KEEP_ALL, k)
  {
    hide ConvertedStage, Offset, Renumbered;
    var stages := Converted(layers, head, tail, shards);
    var j :| 0 <= j < |stages[i]| && stages[i][j] == (local, v);
    assert Keeps(stages[i], KEEP_ALL, Offset(shards, i), k);
  }

  /** Converting by shards and merging the stages gives the model back, in
      whatever way the layers are dealt out, exactly when no empty shard comes
      before one with layers. */
  lemma ConvertThenMerge<V(!new)>(model: map<Key, V>, layers: seq<Params<V>>, head: Params<V>, tail: Params<V>, shards: seq<nat>)
    requires IsModel(model, layers, head, tail)
    requires |shards| > 0 && Offset(shards, |shards|) == |layers|
    ensures Merged(Converted(layers, head, tail, shards), KEEP_ALL, |shards|) == model <==> EmptyStagesLast(shards)
  {
    var stages := Converted(layers, head, tail, shards);
    forall i | 0 <= i < |stages| ensures StageCut(model, Offset(shards, i), shards[i], stages[i], KEEP_ALL) {
      ConvertedStageIsCut(model, layers, head, tail, shards, i);
    }
    forall k | k in model ensures KeptSomewhere(shards, stages, KEEP_ALL, k) {
      ParamIsKept(layers, head, tail, shards, k, model[k]);
    }
    MergeRestoresIff(model, shards, stages, KEEP_ALL);
  }

  /** With the shards that the repository computes the round trip always holds. */
  method ConvertAndMerge<V(!new)>(ghost model: map<Key, V>, layers: seq<Params<V>>, head: Params<V>, tail: Params<V>, ppSize: nat)
    returns (r: Result<map<Key, V>>)
    requires IsModel(model, layers, head, tail)
    ensures r.Ok? ==> r.value == model
    ensures r.Err? <==> |layers| < ppSize || ppSize == 0
                        || (ppSize >= 3 && CeilDiv(|layers|, ppSize) * (ppSize - 2) + 2 > |layers|)
  {
    var shards := PipelineShards.GetDynamicPipelineShards(|layers|, ppSize);
    if shards.Err? {
      return Err(shards.error);
    }
    ShardsCover(shards.value, |layers|);
    ConvertThenMerge(model, layers, head, tail, shards.value);
    var dicts := OneChunkEach(Converted(layers, head, tail, shards.value));
    var state := MergeStateDicts(dicts, 1, KEEP_ALL);
    r := Ok(state);
  }

  lemma ShardsCover(shards: seq<nat>, layers: nat)
    requires SumNat(shards) == layers && forall i :: 0 <= i < |shards| ==> shards[i] > 0
    ensures Offset(shards, |shards|) == layers && EmptyStagesLast(shards)
  {
    OffsetIsSum(shards, |shards|);
    assert shards[..|shards|] == shards;
  }

  /** Without virtual stages each rank has one dictionary. */
  function OneChunkEach<V>(stages: seq<Stage<V>>): (dicts: seq<seq<Stage<V>>>)
    ensures |dicts| == |stages| && forall p :: 0 <= p < |dicts| ==> |dicts[p]| == 1
    ensures Order(dicts, 1) == stages
  {
    seq(|stages|, p requires 0 <= p < |stages| => [stages[p]])
  }
}
