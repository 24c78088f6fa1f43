/** How many layers each pipeline rank gets. */
module PipelineShards {
  import opened Results
  import opened Sequences
  import opened RowMaps

  function Repeated(x: nat, t: nat): (r: seq<nat>)
    ensures |r| == t && forall i :: 0 <= i < t ==> r[i] == x
  {
    seq(t, _ => x)
  }

  /** The layers left for the first and the last rank, halved. */
  function FirstLayers(layers: nat, ppSize: nat, middle: nat): int {
    (layers - middle * (ppSize - 2)) / 2
  }

  function LastLayers(layers: nat, ppSize: nat, middle: nat): int {
    layers - middle * (ppSize - 2) - FirstLayers(layers, ppSize, middle)
  }

  predicate IsStrategy(layers: nat, ppSize: nat, middle: nat) {
    0 < FirstLayers(layers, ppSize, middle) <= middle && 0 < LastLayers(layers, ppSize, middle) <= middle
  }

  function Shards(layers: nat, ppSize: nat, middle: nat): seq<nat>
    requires ppSize >= 2 && IsStrategy(layers, ppSize, middle)
  {
    [FirstLayers(layers, ppSize, middle)] + Repeated(middle, ppSize - 2) + [LastLayers(layers, ppSize, middle)]
  }

  /** How far the first rank is from the middle ones. */
  function Spread(layers: nat, ppSize: nat, middle: nat): nat {
    var d := FirstLayers(layers, ppSize, middle) - middle;
    if d < 0 then -d else d
  }

  // ----- what a strategy is -----

  /** Shards for three or more ranks: all layers are given out, every rank has
      one, the middle ranks have equally many and no rank more, and the first
      and the last differ by at most one layer, which the last one takes. */
  ghost predicate Allowed(shards: seq<nat>, layers: nat, ppSize: nat) {
    && ppSize >= 3 && |shards| == ppSize && SumNat(shards) == layers
    && (forall i :: 0 <= i < ppSize ==> shards[i] > 0)
    && (forall i :: 1 <= i < ppSize - 1 ==> shards[i] == shards[1])
    && shards[0] <= shards[ppSize - 1] <= shards[0] + 1 && shards[ppSize - 1] <= shards[1]
  }

  /** No allowed shards bring the first rank closer to the middle ones, and none
      that come as close have smaller middle ranks. */
  ghost predicate MostUniform(shards: seq<nat>, layers: nat, ppSize: nat) {
    && Allowed(shards, layers, ppSize)
    && forall other :: Allowed(other, layers, ppSize) ==>
         && shards[1] - shards[0] <= other[1] - other[0]
         && (shards[1] - shards[0] == other[1] - other[0] ==> shards[1] <= other[1])
  }

  lemma MiddleSum(shards: seq<nat>, layers: nat, ppSize: nat)
    requires ppSize >= 3 && |shards| == ppSize && forall i :: 1 <= i < ppSize - 1 ==> shards[i] == shards[1]
    ensures SumNat(shards) == shards[0] + shards[1] * (ppSize - 2) + shards[ppSize - 1]
    ensures shards == [shards[0]] + Repeated(shards[1], ppSize - 2) + [shards[ppSize - 1]]
  {
    var first, middle, last := shards[0], Repeated(shards[1], ppSize - 2), shards[ppSize - 1];
    assert shards == [first] + middle + [last];
    SumRepeated(shards[1], ppSize - 2);
    SumNatConcat([first] + middle, [last]);
    SumNatConcat([first], middle);
    SumOne(first);
    SumOne(last);
  }

  /** The shards that the search considers are the allowed ones. */
  lemma AllowedIsStrategy(shards: seq<nat>, layers: nat, ppSize: nat)
    requires Allowed(shards, layers, ppSize)
    ensures shards[1] < layers && IsStrategy(layers, ppSize, shards[1]) && shards == Shards(layers, ppSize, shards[1])
    ensures Spread(layers, ppSize, shards[1]) == shards[1] - shards[0]
  {
    MiddleSum(shards, layers, ppSize);
    var rest := layers - shards[1] * (ppSize - 2);
    assert rest == shards[0] + shards[ppSize - 1];
    assert rest / 2 == shards[0];
    MulOrder(1, ppSize - 2, shards[1]);
    assert shards[1] * (ppSize - 2) == (ppSize - 2) * shards[1];
    hide Repeated, SumNat;
  }

  lemma StrategyIsAllowed(layers: nat, ppSize: nat, middle: nat)
    requires ppSize >= 3 && IsStrategy(layers, ppSize, middle)
    ensures Allowed(Shards(layers, ppSize, middle), layers, ppSize)
    ensures Shards(layers, ppSize, middle)[1] == middle
    ensures Spread(layers, ppSize, middle) == Shards(layers, ppSize, middle)[1] - Shards(layers, ppSize, middle)[0]
  {
    ShardsSum(layers, ppSize, middle);
    hide SumNat;
    var rest := layers - middle * (ppSize - 2);
    assert FirstLayers(layers, ppSize, middle) == rest / 2;
  }

  // ----- when a strategy exists -----

  lemma StrategyBounds(layers: nat, ppSize: nat, middle: nat)
    requires ppSize >= 2
    ensures IsStrategy(layers, ppSize, middle) <==> middle * (ppSize - 2) + 2 <= layers <= middle * ppSize
  {
    assert middle * (ppSize - 2) == middle * ppSize - 2 * middle;
  }

  /** Some middle size works exactly when the least one that holds all layers does. */
  lemma StrategyExistsIff(layers: nat, ppSize: nat)
    requires ppSize >= 3 && layers >= ppSize
    ensures var least := CeilDiv(layers, ppSize);
            && least < layers
            && ((exists middle: nat :: middle < layers && IsStrategy(layers, ppSize, middle)) <==> least * (ppSize - 2) + 2 <= layers)
  {
    var least := CeilDiv(layers, ppSize);
    LeastBelow(layers, ppSize, least);
    StrategyBounds(layers, ppSize, least);
    if middle: nat :| middle < layers && IsStrategy(layers, ppSize, middle) {
      StrategyBounds(layers, ppSize, middle);
      LeastIsLeast(layers, ppSize, least, middle);
    }
  }

  lemma LeastBelow(layers: nat, ppSize: nat, least: nat)
    requires ppSize >= 3 && layers >= ppSize && least == CeilDiv(layers, ppSize)
    ensures least < layers
  {
    assert least >= layers ==> (least - 1) * ppSize >= (layers - 1) * 3;
  }

  lemma LeastIsLeast(layers: nat, ppSize: nat, least: nat, middle: nat)
    requires ppSize >= 2 && least == CeilDiv(layers, ppSize) && layers <= middle * ppSize
    ensures least * (ppSize - 2) <= middle * (ppSize - 2)
  {
    MulOrder(middle, least - 1, ppSize);
    MulOrder(least, middle, ppSize - 2);
  }

  lemma {:induction false} SumRepeated(x: nat, t: nat)
    ensures SumNat(Repeated(x, t)) == x * t
  {
    if t > 0 {
      assert Repeated(x, t)[1..] == Repeated(x, t - 1);
      SumRepeated(x, t - 1);
    }
  }

  lemma ShardsSum(layers: nat, ppSize: nat, middle: nat)
    requires ppSize >= 2 && IsStrategy(layers, ppSize, middle)
    ensures SumNat(Shards(layers, ppSize, middle)) == layers
    ensures |Shards(layers, ppSize, middle)| == ppSize && forall i :: 0 <= i < ppSize ==> Shards(layers, ppSize, middle)[i] > 0
  {
    var first: nat, last: nat := FirstLayers(layers, ppSize, middle), LastLayers(layers, ppSize, middle);
    SumRepeated(middle, ppSize - 2);
    SumNatConcat([first] + Repeated(middle, ppSize - 2), [last]);
    SumNatConcat([first], Repeated(middle, ppSize - 2));
    SumOne(first);
    SumOne(last);
  }

  lemma SumOne(x: nat)
    ensures SumNat([x]) == x
  {
    assert [x][1..] == [];
  }

  // ----- the search -----

  /** Every rank gets at least one layer and all layers are given out. There is
      no answer for fewer layers than ranks, for no ranks, and when three or
      more ranks cannot be filled with equal middle ranks that are at least as
      large as the first and the last. */
  method GetDynamicPipelineShards(layers: nat, ppSize: nat) returns (r: Result<seq<nat>>)
    ensures r.Ok? ==> |r.value| == ppSize && SumNat(r.value) == layers && forall i :: 0 <= i < ppSize ==> r.value[i] > 0
    ensures r.Err? ==> r.error == ValueError || r.error == IndexError
    ensures r == Err(ValueError) <==> layers < ppSize || ppSize == 0
    ensures r == Err(IndexError) <==>
      layers >= ppSize >= 3 && CeilDiv(layers, ppSize) * (ppSize - 2) + 2 > layers
    ensures r.Ok? && ppSize >= 3 ==> MostUniform(r.value, layers, ppSize)
    ensures r.Ok? && ppSize == 2 ==> r.value[0] <= r.value[1] <= r.value[0] + 1
    ensures r == Err(IndexError) ==> !exists shards :: Allowed(shards, layers, ppSize)
  {
    if layers < ppSize || ppSize < 1 {
      return Err(ValueError);
    }
    if ppSize == 1 {
      SumOne(layers);
      return Ok([layers]);
    }
    if ppSize == 2 {
      SumNatConcat([layers / 2], [layers - layers / 2]);
      SumOne(layers / 2);
      SumOne(layers - layers / 2);
      assert [layers / 2, layers - layers / 2] == [layers / 2] + [layers - layers / 2];
      return Ok([layers / 2, layers - layers / 2]);
    }
    StrategyExistsIff(layers, ppSize);
    var found, best := false, 0;
    for middle := 0 to layers
      invariant found ==> best < middle && IsStrategy(layers, ppSize, best)
      invariant forall m: nat :: m < middle && IsStrategy(layers, ppSize, m) ==>
        && found && Spread(layers, ppSize, best) <= Spread(layers, ppSize, m)
        && (Spread(layers, ppSize, best) == Spread(layers, ppSize, m) ==> best <= m)
    {
      if IsStrategy(layers, ppSize, middle) {
        if !found || Spread(layers, ppSize, middle) < Spread(layers, ppSize, best) {
          found, best := true, middle;
        }
      }
    }
    if !found {
      if shards :| Allowed(shards, layers, ppSize) {
        AllowedIsStrategy(shards, layers, ppSize);
      }
      return Err(IndexError);
    }
    ShardsSum(layers, ppSize, best);
    r := Ok(Shards(layers, ppSize, best));
    BestIsMostUniform(layers, ppSize, best);
  }

  lemma BestIsMostUniform(layers: nat, ppSize: nat, best: nat)
    requires ppSize >= 3 && IsStrategy(layers, ppSize, best)
    requires forall m: nat :: m < layers && IsStrategy(layers, ppSize, m) ==>
               && Spread(layers, ppSize, best) <= Spread(layers, ppSize, m)
               && (Spread(layers, ppSize, best) == Spread(layers, ppSize, m) ==> best <= m)
    ensures MostUniform(Shards(layers, ppSize, best), layers, ppSize)
  {
    StrategyIsAllowed(layers, ppSize, best);
    hide IsStrategy, Spread, Shards, Allowed;
    var shards := Shards(layers, ppSize, best);
    forall other | Allowed(other, layers, ppSize)
      ensures && shards[1] - shards[0] <= other[1] - other[0]
              && (shards[1] - shards[0] == other[1] - other[0] ==> shards[1] <= other[1])
    {
      AllowedIsStrategy(other, layers, ppSize);
    }
  }
}
