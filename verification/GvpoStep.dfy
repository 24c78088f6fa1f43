/** One GVPO step end to end: balance the batch, send each rank its chunk, cut
    the chunks into mini- and micro-batches, and at each micro-batch let every
    rank compute its loss against the means gathered from all ranks. */
module GvpoStep {
  import opened Sequences
  import opened RowMaps
  import opened GvpoSchedule
  import opened GvpoLoss

  function Entry(vals: seq<real>): nat -> real {
    (x: nat) => if x < |vals| then vals[x] else 0.0
  }

  /** The rows that all ranks hold at micro-batch `k`, rank by rank. */
  method Gather(plan: Plan, micros: seq<seq<seq<nat>>>, k: nat) returns (rows: seq<nat>)
    requires plan.Valid() && k < plan.slots && CutAsPlanned(plan, micros)
    ensures rows == plan.Slot(k)
  {
    ghost var blocks := plan.SlotBlocksAreOwn(k);
    rows := [];
    for i := 0 to |micros|
      invariant rows == Flatten<nat>(blocks[..i])
    {
      assert micros[i][k] == plan.Own(k, i);
      rows := rows + micros[i][k];
      assert blocks[..i + 1] == blocks[..i] + [blocks[i]];
      FlattenAppend<nat>(blocks[..i], blocks[i]);
    }
    assert blocks[..|micros|] == blocks;
  }

  /** Rank `i`'s `k`-th micro-batch is its part of slot `k`. */
  ghost predicate CutAsPlanned(plan: Plan, micros: seq<seq<seq<nat>>>)
    requires plan.Valid()
  {
    && |micros| == plan.ranks
    && forall i :: 0 <= i < plan.ranks ==> RankCut(plan, micros[i], i)
  }

  ghost predicate RankCut(plan: Plan, micros: seq<seq<nat>>, i: nat)
    requires plan.Valid() && i < plan.ranks
  {
    |micros| == plan.slots && forall k :: 0 <= k < plan.slots ==> micros[k] == plan.Own(k, i)
  }

  method CutBatch(plan: Plan, mini: nat) returns (micros: seq<seq<seq<nat>>>)
    requires plan.Valid() && plan.idx != [] && plan.ranks > 0 && plan.perRank > 0 && plan.slots > 0
    requires mini > 0 && mini % plan.perRank == 0
    ensures CutAsPlanned(plan, micros)
  {
    var chunks := TorchChunk<nat>(plan.idx, plan.ranks);
    plan.RankMicroBatches(mini, 0, 0);
    micros := [];
    for i := 0 to |chunks|
      invariant |micros| == i && forall j :: 0 <= j < i ==> RankCut(plan, micros[j], j)
    {
      var cut := MicroBatches(chunks[i], mini, plan.perRank);
      forall k | 0 <= k < plan.slots ensures |cut| == plan.slots && cut[k] == plan.Own(k, i) {
        plan.RankMicroBatches(mini, k, i);
      }
      plan.RankMicroBatches(mini, 0, i);
      assert RankCut(plan, cut, i);
      micros := micros + [cut];
    }
  }

  /** One rank's loss at one micro-batch: the group-size assertion passes. */
  method RankStep(plan: Plan, rtheta: seq<real>, reward: seq<real>, own: seq<nat>, gathered: seq<nat>, ghost k: nat, ghost i: nat)
      returns (loss: real)
    requires plan.Valid() && |rtheta| == |reward| == plan.batch && k < plan.slots && i < plan.ranks
    requires own == plan.Own(k, i) && gathered == plan.Slot(k)
    ensures loss == plan.RankLoss(Entry(rtheta), Entry(reward), k, i)
  {
    RowsKnown(plan, own, gathered, k, i);
    var theta, all := Pick(rtheta, own), Pick(rtheta, gathered);
    PickIsMap(rtheta, own);
    PickIsMap(reward, own);
    PickIsMap(rtheta, gathered);
    var r := ComputePolicyLossGvpo(theta, Pick(reward, own), Uids(own, plan.n), all, Uids(gathered, plan.n), plan.n);
    loss := r.value;
  }

  lemma RowsKnown(plan: Plan, own: seq<nat>, gathered: seq<nat>, k: nat, i: nat)
    requires plan.Valid() && k < plan.slots && i < plan.ranks
    requires own == plan.Own(k, i) && gathered == plan.Slot(k)
    ensures forall j :: 0 <= j < |gathered| ==> gathered[j] < plan.batch
    ensures forall j :: 0 <= j < |own| ==> own[j] < plan.batch && Uids(own, plan.n)[j] in Uids(gathered, plan.n)
    ensures Complete(Uids(gathered, plan.n), plan.n)
  {
    forall j | 0 <= j < |gathered| ensures gathered[j] < plan.batch {
      plan.SlotInBatch(k, gathered[j]);
    }
    forall j | 0 <= j < |own| ensures own[j] < plan.batch && own[j] / plan.n in Uids(gathered, plan.n) {
      plan.OwnInSlot(k, i, own[j]);
      plan.SlotInBatch(k, own[j]);
      plan.GatheredUid(k, own[j]);
    }
    plan.SlotComplete(k);
  }

  lemma PickIsMap(vals: seq<real>, rows: seq<nat>)
    requires forall i :: 0 <= i < |rows| ==> rows[i] < |vals|
    ensures Pick(vals, rows) == Map(Entry(vals), rows)
  {
  }

  /** The losses added up, and what is handed to the backward passes. */
  datatype StepResult = Total(loss: real, backward: real) | NotBalanced(why: Balance)

  /** The weight of a micro-batch's loss in its backward pass. */
  function LossScale(mini: nat, perRank: nat): real
    requires perRank > 0 && mini > 0 && mini % perRank == 0
  {
    MultipleStep(mini, perRank);
    assert mini == mini / perRank * perRank;
    1.0 / (mini / perRank) as real
  }

  function Scaled(loss: real, scale: real): real {
    loss * scale
  }

  lemma ScaledSum(total: real, loss: real, scale: real)
    ensures Scaled(total, scale) + Scaled(loss, scale) == Scaled(total + loss, scale)
    ensures Scaled(0.0, scale) == 0.0
  {
  }

  method SlotStep(plan: Plan, rtheta: seq<real>, reward: seq<real>, micros: seq<seq<seq<nat>>>, k: nat, scale: real)
      returns (total: real, backward: real)
    requires plan.Valid() && |rtheta| == |reward| == plan.batch && k < plan.slots && CutAsPlanned(plan, micros)
    ensures total == plan.SlotLoss(Entry(rtheta), Entry(reward), k) && backward == Scaled(total, scale)
  {
    hide Scaled, Flatten, Pick;
    ScaledSum(0.0, 0.0, scale);
    var f, g := Entry(rtheta), Entry(reward);
    ghost var losses := seq(plan.ranks, i requires 0 <= i < plan.ranks => plan.RankLoss(f, g, k, i));
    var gathered := Gather(plan, micros, k);
    total, backward := 0.0, 0.0;
    for i := 0 to |micros|
      invariant total == Sum(losses[..i]) && backward == Scaled(total, scale)
    {
      assert RankCut(plan, micros[i], i);
      var loss := RankStep(plan, rtheta, reward, micros[i][k], gathered, k, i);
      SumAppend(losses, i);
      ScaledSum(total, loss, scale);
      total, backward := total + loss, backward + Scaled(loss, scale);
    }
    assert losses[..|micros|] == losses;
  }

  method RunSlots(plan: Plan, mini: nat, rtheta: seq<real>, reward: seq<real>) returns (total: real, backward: real)
    requires plan.Valid() && plan.idx != [] && plan.ranks > 0 && plan.perRank > 0 && plan.slots > 0
    requires mini > 0 && mini % plan.perRank == 0 && |rtheta| == |reward| == plan.batch
    ensures total == plan.TotalLoss(Entry(rtheta), Entry(reward)) && backward == Scaled(total, LossScale(mini, plan.perRank))
  {
    var f, g := Entry(rtheta), Entry(reward);
    ghost var losses := seq(plan.slots, k requires 0 <= k < plan.slots => plan.SlotLoss(f, g, k));
    var micros := CutBatch(plan, mini);
    var scale := LossScale(mini, plan.perRank);
    hide Scaled, LossScale;
    ScaledSum(0.0, 0.0, scale);
    total, backward := 0.0, 0.0;
    for k := 0 to plan.slots
      invariant total == Sum(losses[..k]) && backward == Scaled(total, scale)
    {
      var loss, scaled := SlotStep(plan, rtheta, reward, micros, k, scale);
      SumAppend(losses, k);
      ScaledSum(total, loss, scale);
      total, backward := total + loss, backward + scaled;
    }
    assert losses[..plan.slots] == losses;
  }

  // ----- what the step's loss is -----

  /** The `n` consecutive rows of group `u`. */
  ghost function GroupSlice(vals: seq<real>, n: nat, u: nat): (r: seq<real>)
    requires n > 0 && |vals| % n == 0 && u < |vals| / n
    ensures |r| == n
  {
    ExactQuotient(|vals|, n);
    BlockBounds(u, |vals| / n, n);
    vals[u * n..u * n + n]
  }

  /** For each row the mean over its group. */
  ghost function GroupMeans(vals: seq<real>, n: nat): (r: seq<real>)
    requires n > 0 && |vals| % n == 0
    ensures |r| == |vals|
  {
    seq(|vals|, x requires 0 <= x < |vals| =>
      ExactQuotient(|vals|, n);
      QuotientInside(x, n, |vals| / n);
      Sum(GroupSlice(vals, n, x / n)) / n as real)
  }

  lemma SliceMean(vals: seq<real>, n: nat, u: nat)
    requires n > 0 && |vals| % n == 0 && u < |vals| / n
    ensures BatchMean(Entry(vals), n, u) == Sum(GroupSlice(vals, n, u)) / n as real
  {
    ExactQuotient(|vals|, n);
    BlockBounds(u, |vals| / n, n);
    var rows := GroupRows([u], n);
    SumOfIsSum<nat>(Entry(vals), rows);
    OneGroupRows(u, n);
    assert Map(Entry(vals), rows) == GroupSlice(vals, n, u);
    hide SumOf, Sum;
    BatchMeanIs(Entry(vals), n, u);
  }

  lemma OneGroupRows(u: nat, n: nat)
    ensures |GroupRows([u], n)| == n && forall j :: 0 <= j < n ==> GroupRows([u], n)[j] == u * n + j
  {
    assert [u][1..] == [];
  }

  lemma BatchMeansAre(vals: seq<real>, n: nat)
    requires n > 0 && |vals| % n == 0
    ensures Map(BatchMeans(Entry(vals), n), Range(|vals|)) == GroupMeans(vals, n)
  {
    var a, b := Map(BatchMeans(Entry(vals), n), Range(|vals|)), GroupMeans(vals, n);
    hide BatchMean, Sum, GroupSlice;
    forall x | 0 <= x < |vals| ensures a[x] == b[x] {
      ExactQuotient(|vals|, n);
      QuotientInside(x, n, |vals| / n);
      SliceMean(vals, n, x / n);
    }
  }

  lemma AllEntries(vals: seq<real>)
    ensures Map(Entry(vals), Range(|vals|)) == vals
  {
  }

  /** The reference loss is the GVPO loss of the batch. */
  lemma ReferenceIsLoss(rtheta: seq<real>, reward: seq<real>, n: nat)
    requires n > 1 && |rtheta| == |reward| && |rtheta| % n == 0
    ensures IsGvpoLoss(ReferenceLoss(Entry(rtheta), Entry(reward), n, |rtheta|), Centred(rtheta, GroupMeans(rtheta, n)), reward, n)
  {
    var f, g, rows := Entry(rtheta), Entry(reward), Range(|rtheta|);
    hide SumOf, Sum, Penalties, Inner, BatchMeans, RowPenalty, GroupMeans, Entry, IsGvpoLoss, Range;
    PenaltiesOfRows(f, g, BatchMeans(f, n), rows);
    AllEntries(rtheta);
    AllEntries(reward);
    BatchMeansAre(rtheta, n);
    PenaltiesAreLoss(rtheta, reward, GroupMeans(rtheta, n), n, ReferenceLoss(f, g, n, |rtheta|));
  }

  lemma WholeGroupsInBatch(batch: nat, slot: nat, n: nat)
    requires n > 0 && slot > 0 && slot % n == 0 && batch % slot == 0
    ensures batch % n == 0
  {
    ExactQuotient(slot, n);
    ExactQuotient(batch, slot);
    var q, p := batch / slot, slot / n;
    assert q * (p * n) == (q * p) * n;
    DivModUnique(q * p, 0, n);
  }

  lemma BackwardTimesSteps(loss: real, mini: nat, perRank: nat)
    requires perRank > 0 && mini > 0 && mini % perRank == 0
    ensures Scaled(loss, LossScale(mini, perRank)) * (mini / perRank) as real == loss
  {
    MultipleStep(mini, perRank);
    assert mini == mini / perRank * perRank;
    var k := (mini / perRank) as real;
    assert loss * (1.0 / k) * k == loss;
  }

  /** Whatever the sequence lengths, the summed losses of a step are the loss of
      the batch in its original order, each row against its own prompt group;
      the backward passes together get that loss over the number of
      micro-batches in a mini-batch. */
  method PolicyGradientStep(lens: seq<nat>, ranks: nat, n: nat, perRank: nat, mini: nat, rtheta: seq<real>, reward: seq<real>)
      returns (r: StepResult)
    requires ranks > 0 && n > 1 && perRank > 0 && mini > 0 && mini % perRank == 0
    requires ranks * perRank > 0 && |lens| % (ranks * perRank) == 0
    requires |rtheta| == |reward| == |lens|
    ensures r.Total? <==> lens != [] && ranks * perRank % n == 0
    ensures r.Total? ==> r.loss == ReferenceLoss(Entry(rtheta), Entry(reward), n, |lens|)
    ensures r.Total? ==> r.backward == Scaled(r.loss, LossScale(mini, perRank))
    ensures r.Total? ==> r.backward * (mini / perRank) as real == r.loss
    ensures r.Total? ==> |lens| % n == 0 && IsGvpoLoss(r.loss, Centred(rtheta, GroupMeans(rtheta, n)), reward, n)
  {
    hide Scaled, LossScale, ReferenceLoss, IsGvpoLoss, GroupMeans, Scheduled;
    var balance, groups := BalanceBatch(lens, ranks, n, perRank);
    if !balance.Reordered? {
      return NotBalanced(balance);
    }
    var slots := |lens| / (ranks * perRank);
    var plan := Plan(balance.idx, |lens|, ranks, n, perRank, slots, groups);
    var total, backward := RunSlots(plan, mini, rtheta, reward);
    r := Total(total, backward);
    plan.DistributedLossIsReference(Entry(rtheta), Entry(reward));
    BackwardTimesSteps(total, mini, perRank);
    WholeGroupsInBatch(|lens|, ranks * perRank, n);
    ReferenceIsLoss(rtheta, reward, n);
  }
}
