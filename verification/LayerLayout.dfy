/** Pipeline stages of a checkpoint: the converter numbers each stage's layers
    from zero, and the merger numbers them through again. */
module LayerLayout {
  import opened Sequences

  /** A parameter of a layer, or one that belongs to no layer. */
  datatype Key = Layer(no: nat, name: string) | Global(name: string)

  /** A stage's state dictionary, in its order. */
  type Stage<V> = seq<(Key, V)>

  // ----- merging -----

  function Renumbered(k: Key, cum: nat): Key {
    if k.Layer? then Layer(k.no + cum, k.name) else k
  }

  /** The largest local layer number among the first `n` keys that are kept, or 0. */
  function Handled<V>(stage: Stage<V>, skip: Key -> bool, n: nat): nat
    requires n <= |stage|
  {
    if n == 0 then 0
    else
      var h := Handled(stage, skip, n - 1);
      var k := stage[n - 1].0;
      if !skip(k) && k.Layer? && k.no > h then k.no else h
  }

  /** The layers counted before stage `i`. */
  function Cum<V>(stages: seq<Stage<V>>, skip: Key -> bool, i: nat): nat
    requires i <= |stages|
  {
    if i == 0 then 0 else Cum(stages, skip, i - 1) + Handled(stages[i - 1], skip, |stages[i - 1]|) + 1
  }

  /** The first `n` keys of a stage written to `state`. */
  function WriteStage<V>(stage: Stage<V>, skip: Key -> bool, cum: nat, state: map<Key, V>, n: nat): map<Key, V>
    requires n <= |stage|
  {
    if n == 0 then state
    else
      var (k, v) := stage[n - 1];
      var before := WriteStage(stage, skip, cum, state, n - 1);
      if skip(k) then before else before[Renumbered(k, cum) := v]
  }

  /** The merged dictionary after `i` stages. */
  function Merged<V>(stages: seq<Stage<V>>, skip: Key -> bool, i: nat): map<Key, V>
    requires i <= |stages|
  {
    if i == 0 then map[]
    else WriteStage(stages[i - 1], skip, Cum(stages, skip, i - 1), Merged(stages, skip, i - 1), |stages[i - 1]|)
  }

  /** The stages in the order in which the layers run: by virtual stage, then by rank. */
  function Order<V>(dicts: seq<seq<Stage<V>>>, vppSize: nat): (r: seq<Stage<V>>)
    requires forall p :: 0 <= p < |dicts| ==> |dicts[p]| == vppSize
    ensures |r| == vppSize * |dicts|
  {
    seq(vppSize * |dicts|, i requires 0 <= i < vppSize * |dicts| => (StageIndex(i, vppSize, |dicts|); dicts[i % |dicts|][i / |dicts|]))
  }

  lemma StageIndex(i: nat, vppSize: nat, ppSize: nat)
    requires i < vppSize * ppSize
    ensures ppSize > 0 && i / ppSize < vppSize
  {
    assert ppSize == 0 ==> vppSize * ppSize == 0;
    assert i == (i / ppSize) * ppSize + i % ppSize;
    MulOrder(vppSize, i / ppSize, ppSize);
  }

  /** The stage of rank `p` and virtual stage `v` in that order. */
  lemma OrderAt<V>(dicts: seq<seq<Stage<V>>>, vppSize: nat, v: nat, p: nat)
    requires forall p :: 0 <= p < |dicts| ==> |dicts[p]| == vppSize
    requires v < vppSize && p < |dicts|
    ensures 0 <= v * |dicts| + p < |Order(dicts, vppSize)| && Order(dicts, vppSize)[v * |dicts| + p] == dicts[p][v]
  {
    BlockBounds(v, vppSize, |dicts|);
    DivModUnique(v, p, |dicts|);
  }

  method MergeStateDicts<V>(dicts: seq<seq<Stage<V>>>, vppSize: nat, skip: Key -> bool) returns (state: map<Key, V>)
    requires forall p :: 0 <= p < |dicts| ==> |dicts[p]| == vppSize
    ensures state == Merged(Order(dicts, vppSize), skip, vppSize * |dicts|)
  {
    hide Order, WriteStage, Handled;
    state := map[];
    var layersCum := 0;
    ghost var order := Order(dicts, vppSize);
    ghost var i := 0;
    for v := 0 to vppSize
      invariant i == v * |dicts| && i <= |order|
      invariant state == Merged(order, skip, i) && layersCum == Cum(order, skip, i)
    {
      for p := 0 to |dicts|
        invariant i == v * |dicts| + p && i <= |order|
        invariant state == Merged(order, skip, i) && layersCum == Cum(order, skip, i)
      {
        OrderAt(dicts, vppSize, v, p);
        var layersHandled;
        state, layersHandled := MergeStage(dicts[p][v], skip, layersCum, state);
        layersCum := layersCum + layersHandled + 1;
        i := i + 1;
      }
      assert (v + 1) * |dicts| == v * |dicts| + |dicts|;
    }
  }

  /** One stage's keys written to the dictionary, and its largest layer number. */
  method MergeStage<V>(stage: Stage<V>, skip: Key -> bool, layersCum: nat, before: map<Key, V>)
    returns (state: map<Key, V>, layersHandled: nat)
    ensures state == WriteStage(stage, skip, layersCum, before, |stage|)
    ensures layersHandled == Handled(stage, skip, |stage|)
  {
    state, layersHandled := before, 0;
    for j := 0 to |stage|
      invariant state == WriteStage(stage, skip, layersCum, before, j)
      invariant layersHandled == Handled(stage, skip, j)
    {
      var (key, value) := stage[j];
      if !skip(key) {
        if key.Layer? && key.no > layersHandled {
          layersHandled := key.no;
        }
        state := state[Renumbered(key, layersCum) := value];
      }
    }
  }

  // ----- stages cut from a model -----

  /** The layers before stage `i`. */
  function Offset(sizes: seq<nat>, i: nat): nat
    requires i <= |sizes|
  {
    if i == 0 then 0 else Offset(sizes, i - 1) + sizes[i - 1]
  }

  /** A kept key of stage `i`, numbered through, is the model's. */
  ghost predicate Belongs<V>(model: map<Key, V>, offset: nat, size: nat, entry: (Key, V)) {
    && (entry.0.Layer? ==> entry.0.no < size)
    && Renumbered(entry.0, offset) in model && model[Renumbered(entry.0, offset)] == entry.1
  }

  ghost predicate StageCut<V>(model: map<Key, V>, offset: nat, size: nat, stage: Stage<V>, skip: Key -> bool) {
    && (forall j :: 0 <= j < |stage| && !skip(stage[j].0) ==> Belongs(model, offset, size, stage[j]))
    && (size > 0 ==> HasLayer(stage, skip, size - 1))
  }

  ghost predicate HasLayer<V>(stage: Stage<V>, skip: Key -> bool, no: nat) {
    exists j :: 0 <= j < |stage| && !skip(stage[j].0) && stage[j].0.Layer? && stage[j].0.no == no
  }

  /** The local key under which a stage keeps the model's key `k`. */
  ghost predicate Keeps<V>(stage: Stage<V>, skip: Key -> bool, offset: nat, k: Key) {
    exists j :: 0 <= j < |stage| && !skip(stage[j].0) && Renumbered(stage[j].0, offset) == k
  }

  /** The stages hold the model's parameters, stage `i` the next `sizes[i]`
      layers; each key of the model is kept by some stage. */
  ghost predicate IsCut<V>(model: map<Key, V>, sizes: seq<nat>, stages: seq<Stage<V>>, skip: Key -> bool) {
    && |stages| == |sizes|
    && (forall i :: 0 <= i < |stages| ==> StageCut(model, Offset(sizes, i), sizes[i], stages[i], skip))
    && (forall k :: k in model ==> KeptSomewhere(sizes, stages, skip, k))
    && (forall k :: k in model && k.Layer? ==> k.no < Offset(sizes, |sizes|))
  }

  ghost predicate KeptSomewhere<V>(sizes: seq<nat>, stages: seq<Stage<V>>, skip: Key -> bool, k: Key)
    requires |stages| == |sizes|
  {
    exists i :: 0 <= i < |stages| && Keeps(stages[i], skip, Offset(sizes, i), k)
  }

  /** No stage without layers comes before one with layers. */
  predicate EmptyStagesLast(sizes: seq<nat>) {
    forall i, j :: 0 <= i < j < |sizes| && sizes[i] == 0 ==> sizes[j] == 0
  }

  // ----- counting the layers -----

  lemma {:induction false} HandledBounds<V>(stage: Stage<V>, skip: Key -> bool, n: nat, j: nat)
    requires j < n <= |stage| && !skip(stage[j].0) && stage[j].0.Layer?
    ensures stage[j].0.no <= Handled(stage, skip, n)
    decreases n
  {
    if j < n - 1 {
      HandledBounds(stage, skip, n - 1, j);
    }
  }

  lemma {:induction false} HandledBelow<V>(stage: Stage<V>, skip: Key -> bool, n: nat, size: nat)
    requires n <= |stage|
    requires forall j :: 0 <= j < n && !skip(stage[j].0) && stage[j].0.Layer? ==> stage[j].0.no < size
    ensures Handled(stage, skip, n) <= if size == 0 then 0 else size - 1
    decreases n
  {
    if n > 0 {
      HandledBelow(stage, skip, n - 1, size);
    }
  }

  /** A stage without layers still counts for one. */
  lemma StageCounts<V>(model: map<Key, V>, offset: nat, size: nat, stage: Stage<V>, skip: Key -> bool)
    requires StageCut(model, offset, size, stage, skip)
    ensures Handled(stage, skip, |stage|) + 1 == if size == 0 then 1 else size
  {
    HandledBelow(stage, skip, |stage|, size);
    if size > 0 {
      var j :| 0 <= j < |stage| && !skip(stage[j].0) && stage[j].0.Layer? && stage[j].0.no == size - 1;
      HandledBounds(stage, skip, |stage|, j);
    }
  }

  predicate AllPositive(sizes: seq<nat>, i: nat)
    requires i <= |sizes|
  {
    forall j :: 0 <= j < i ==> sizes[j] > 0
  }

  /** The layers before stage `i` if a stage without layers counts for one. */
  function Counted(sizes: seq<nat>, i: nat): nat
    requires i <= |sizes|
  {
    if i == 0 then 0 else Counted(sizes, i - 1) + if sizes[i - 1] == 0 then 1 else sizes[i - 1]
  }

  lemma {:induction false} CountedIsOffset(sizes: seq<nat>, i: nat)
    requires i <= |sizes|
    ensures Counted(sizes, i) >= Offset(sizes, i)
    ensures Counted(sizes, i) == Offset(sizes, i) <==> AllPositive(sizes, i)
    decreases i
  {
    if i > 0 {
      CountedIsOffset(sizes, i - 1);
    }
  }

  lemma {:induction false} CumIsCounted<V>(model: map<Key, V>, sizes: seq<nat>, stages: seq<Stage<V>>, skip: Key -> bool, i: nat)
    requires IsCut(model, sizes, stages, skip) && i <= |stages|
    ensures Cum(stages, skip, i) == Counted(sizes, i)
    decreases i
  {
    hide *;
    StagesLengths(model, sizes, stages, skip);
    if i > 0 {
      CumIsCounted(model, sizes, stages, skip, i - 1);
      StageAdds(model, sizes, stages, skip, i - 1);
      CountedAdds(sizes, i - 1);
    } else {
      NothingCounted(sizes, stages, skip);
    }
  }

  lemma CountedAdds(sizes: seq<nat>, i: nat)
    requires i < |sizes|
    ensures Counted(sizes, i + 1) == Counted(sizes, i) + if sizes[i] == 0 then 1 else sizes[i]
  {
  }

  lemma NothingCounted<V>(sizes: seq<nat>, stages: seq<Stage<V>>, skip: Key -> bool)
    ensures Cum(stages, skip, 0) == 0 == Counted(sizes, 0)
  {
  }

  /** The merger's count is right exactly when all earlier stages have layers. */
  lemma CumIsOffset<V>(model: map<Key, V>, sizes: seq<nat>, stages: seq<Stage<V>>, skip: Key -> bool, i: nat)
    requires IsCut(model, sizes, stages, skip) && i <= |stages|
    ensures Cum(stages, skip, i) >= Offset(sizes, i)
    ensures Cum(stages, skip, i) == Offset(sizes, i) <==> AllPositive(sizes, i)
  {
    CumIsCounted(model, sizes, stages, skip, i);
    CountedIsOffset(sizes, i);
  }

  lemma StageAdds<V>(model: map<Key, V>, sizes: seq<nat>, stages: seq<Stage<V>>, skip: Key -> bool, i: nat)
    requires IsCut(model, sizes, stages, skip) && i < |stages|
    ensures Cum(stages, skip, i + 1) == Cum(stages, skip, i) + if sizes[i] == 0 then 1 else sizes[i]
  {
    assert StageCut(model, Offset(sizes, i), sizes[i], stages[i], skip);
    StageCounts(model, Offset(sizes, i), sizes[i], stages[i], skip);
  }

  // ----- what the merge writes -----

  ghost predicate Within<V>(state: map<Key, V>, model: map<Key, V>) {
    forall k :: k in state ==> k in model && state[k] == model[k]
  }

  lemma {:induction false} WriteKeys<V>(stage: Stage<V>, skip: Key -> bool, cum: nat, state: map<Key, V>, n: nat)
    requires n <= |stage|
    ensures state.Keys <= WriteStage(stage, skip, cum, state, n).Keys
    ensures forall j :: 0 <= j < n && !skip(stage[j].0) ==> Renumbered(stage[j].0, cum) in WriteStage(stage, skip, cum, state, n)
    decreases n
  {
    if n > 0 {
      WriteKeys(stage, skip, cum, state, n - 1);
    }
  }

  /** Every kept key of the stage lands on the model's value. */
  ghost predicate Lands<V>(model: map<Key, V>, stage: Stage<V>, skip: Key -> bool, cum: nat) {
    forall j :: 0 <= j < |stage| && !skip(stage[j].0) ==>
      Renumbered(stage[j].0, cum) in model && model[Renumbered(stage[j].0, cum)] == stage[j].1
  }

  lemma {:induction false} WriteWithin<V>(model: map<Key, V>, stage: Stage<V>, skip: Key -> bool, cum: nat, state: map<Key, V>, n: nat)
    requires n <= |stage| && Within(state, model) && Lands(model, stage, skip, cum)
    ensures Within(WriteStage(stage, skip, cum, state, n), model)
    decreases n
  {
    if n > 0 {
      WriteWithin(model, stage, skip, cum, state, n - 1);
    }
  }

  lemma {:induction false} MergedKeys<V>(stages: seq<Stage<V>>, skip: Key -> bool, i: nat, m: nat, j: nat)
    requires i < m <= |stages| && j < |stages[i]| && !skip(stages[i][j].0)
    ensures Renumbered(stages[i][j].0, Cum(stages, skip, i)) in Merged(stages, skip, m)
    decreases m
  {
    WriteKeys(stages[m - 1], skip, Cum(stages, skip, m - 1), Merged(stages, skip, m - 1), |stages[m - 1]|);
    if i < m - 1 {
      MergedKeys(stages, skip, i, m - 1, j);
    }
  }

  /** A key lands in its place if the stage's count is right, and a key of no
      layer always does. */
  lemma EntryLands<V>(model: map<Key, V>, sizes: seq<nat>, stages: seq<Stage<V>>, skip: Key -> bool, i: nat, j: nat)
    requires IsCut(model, sizes, stages, skip) && EmptyStagesLast(sizes)
    requires i < |stages| && j < |stages[i]| && !skip(stages[i][j].0)
    ensures Renumbered(stages[i][j].0, Cum(stages, skip, i)) == Renumbered(stages[i][j].0, Offset(sizes, i))
    ensures Belongs(model, Offset(sizes, i), sizes[i], stages[i][j])
  {
    assert StageCut(model, Offset(sizes, i), sizes[i], stages[i], skip);
    CumIsOffset(model, sizes, stages, skip, i);
    assert sizes[i] > 0 ==> AllPositive(sizes, i);
  }

  ghost predicate LandsAt<V>(model: map<Key, V>, stages: seq<Stage<V>>, skip: Key -> bool, i: nat)
    requires i < |stages|
  {
    Lands(model, stages[i], skip, Cum(stages, skip, i))
  }

  lemma StageLands<V>(model: map<Key, V>, sizes: seq<nat>, stages: seq<Stage<V>>, skip: Key -> bool, i: nat)
    requires IsCut(model, sizes, stages, skip) && EmptyStagesLast(sizes) && i < |stages|
    ensures LandsAt(model, stages, skip, i)
  {
    var stage := stages[i];
    forall j | 0 <= j < |stage| && !skip(stage[j].0)
      ensures var k := Renumbered(stage[j].0, Cum(stages, skip, i)); k in model && model[k] == stage[j].1
    {
      EntryLands(model, sizes, stages, skip, i, j);
    }
  }

  lemma MergedStep<V>(model: map<Key, V>, stages: seq<Stage<V>>, skip: Key -> bool, m: nat)
    requires 0 < m <= |stages| && Within(Merged(stages, skip, m - 1), model)
    requires LandsAt(model, stages, skip, m - 1)
    ensures Within(Merged(stages, skip, m), model)
  {
    WriteWithin(model, stages[m - 1], skip, Cum(stages, skip, m - 1), Merged(stages, skip, m - 1), |stages[m - 1]|);
  }

  lemma {:induction false} MergedWithin<V>(model: map<Key, V>, stages: seq<Stage<V>>, skip: Key -> bool, m: nat)
    requires m <= |stages| && forall i :: 0 <= i < |stages| ==> LandsAt(model, stages, skip, i)
    ensures Within(Merged(stages, skip, m), model)
    decreases m
  {
    if m > 0 {
      MergedWithin(model, stages, skip, m - 1);
      MergedStep(model, stages, skip, m);
    }
  }

  lemma MergeRestores<V>(model: map<Key, V>, sizes: seq<nat>, stages: seq<Stage<V>>, skip: Key -> bool)
    requires IsCut(model, sizes, stages, skip) && EmptyStagesLast(sizes)
    ensures Merged(stages, skip, |stages|) == model
  {
    hide IsCut, EmptyStagesLast, LandsAt, Merged;
    StagesLengths(model, sizes, stages, skip);
    forall i | 0 <= i < |stages| ensures LandsAt(model, stages, skip, i) {
      StageLands(model, sizes, stages, skip, i);
    }
    MergedWithin(model, stages, skip, |stages|);
    forall k | k in model ensures k in Merged(stages, skip, |stages|) {
      AllKept(model, sizes, stages, skip, k);
    }
  }

  lemma StagesLengths<V>(model: map<Key, V>, sizes: seq<nat>, stages: seq<Stage<V>>, skip: Key -> bool)
    requires IsCut(model, sizes, stages, skip)
    ensures |stages| == |sizes|
  {
  }

  lemma AllKept<V>(model: map<Key, V>, sizes: seq<nat>, stages: seq<Stage<V>>, skip: Key -> bool, k: Key)
    requires IsCut(model, sizes, stages, skip) && EmptyStagesLast(sizes) && k in model
    ensures k in Merged(stages, skip, |stages|)
  {
    assert KeptSomewhere(sizes, stages, skip, k);
    var i :| 0 <= i < |stages| && Keeps(stages[i], skip, Offset(sizes, i), k);
    var j :| 0 <= j < |stages[i]| && !skip(stages[i][j].0) && Renumbered(stages[i][j].0, Offset(sizes, i)) == k;
    EntryLands(model, sizes, stages, skip, i, j);
    MergedKeys(stages, skip, i, |stages|, j);
  }

  lemma {:induction false} LastWithLayers(sizes: seq<nat>, j: nat) returns (i: nat)
    requires j < |sizes| && sizes[j] > 0
    ensures j <= i < |sizes| && sizes[i] > 0 && Offset(sizes, |sizes|) == Offset(sizes, i) + sizes[i]
    decreases |sizes|
  {
    var n := |sizes| - 1;
    if sizes[n] > 0 {
      i := n;
    } else {
      i := LastWithLayers(sizes[..n], j);
      OffsetOfPrefix(sizes, n, i);
      OffsetOfPrefix(sizes, n, n);
    }
  }

  lemma {:induction false} OffsetOfPrefix(sizes: seq<nat>, n: nat, i: nat)
    requires i <= n <= |sizes|
    ensures Offset(sizes[..n], i) == Offset(sizes, i)
    decreases i
  {
    if i > 0 {
      OffsetOfPrefix(sizes, n, i - 1);
    }
  }

  /** Behind an empty stage the layers are numbered too high. */
  lemma MergeOvershoots<V>(model: map<Key, V>, sizes: seq<nat>, stages: seq<Stage<V>>, skip: Key -> bool)
    requires IsCut(model, sizes, stages, skip) && !EmptyStagesLast(sizes)
    ensures exists k :: k in Merged(stages, skip, |stages|) && k !in model
  {
    var e, j :| 0 <= e < j < |sizes| && sizes[e] == 0 && sizes[j] > 0;
    var i := LastWithLayers(sizes, j);
    assert !AllPositive(sizes, i);
    LastLayerOvershoots(model, sizes, stages, skip, i);
  }

  lemma LastLayerOvershoots<V>(model: map<Key, V>, sizes: seq<nat>, stages: seq<Stage<V>>, skip: Key -> bool, i: nat)
    requires IsCut(model, sizes, stages, skip) && i < |sizes| && sizes[i] > 0 && !AllPositive(sizes, i)
    requires Offset(sizes, |sizes|) == Offset(sizes, i) + sizes[i]
    ensures exists k :: k in Merged(stages, skip, |stages|) && k !in model
  {
    CumIsOffset(model, sizes, stages, skip, i);
    var t := LastLayerEntry(model, sizes, stages, skip, i);
    hide Merged, Cum, Offset;
    MergedKeys(stages, skip, i, |stages|, t);
    assert Renumbered(stages[i][t].0, Cum(stages, skip, i)) !in model;
  }

  lemma LastLayerEntry<V>(model: map<Key, V>, sizes: seq<nat>, stages: seq<Stage<V>>, skip: Key -> bool, i: nat) returns (t: nat)
    requires IsCut(model, sizes, stages, skip) && i < |sizes| && sizes[i] > 0
    ensures t < |stages[i]| && !skip(stages[i][t].0) && stages[i][t].0.Layer? && stages[i][t].0.no == sizes[i] - 1
  {
    hide Offset;
    assert StageCut(model, Offset(sizes, i), sizes[i], stages[i], skip);
    assert HasLayer(stages[i], skip, sizes[i] - 1);
    t :| 0 <= t < |stages[i]| && !skip(stages[i][t].0) && stages[i][t].0.Layer? && stages[i][t].0.no == sizes[i] - 1;
  }

  /** Merging the stages of a model gives the model back exactly when no stage
      without layers comes before one with layers. */
  lemma MergeRestoresIff<V>(model: map<Key, V>, sizes: seq<nat>, stages: seq<Stage<V>>, skip: Key -> bool)
    requires IsCut(model, sizes, stages, skip)
    ensures Merged(stages, skip, |stages|) == model <==> EmptyStagesLast(sizes)
  {
    if EmptyStagesLast(sizes) {
      MergeRestores(model, sizes, stages, skip);
    } else {
      MergeOvershoots(model, sizes, stages, skip);
    }
  }
}
