/** The GVPO policy loss of one micro-batch: each row's centred log-ratio is
    compared with its centred reward, the centre being the mean over the row's
    prompt group, gathered from all ranks. */
module GvpoLoss {
  import opened Sequences
  import opened BalancedPartition
  import opened RowMaps
  import opened GvpoSchedule

  datatype LossResult = Loss(value: real) | IncompleteGroup(uid: nat)

  function GroupSum(vals: seq<real>, uids: seq<nat>, u: nat): real
    requires |vals| == |uids|
  {
    if uids == [] then 0.0
    else (if uids[0] == u then vals[0] else 0.0) + GroupSum(vals[1..], uids[1..], u)
  }

  function GroupCount(uids: seq<nat>, u: nat): nat {
    if uids == [] then 0 else (if uids[0] == u then 1 else 0) + GroupCount(uids[1..], u)
  }

  /** The mean over the gathered rows of group `u` (0 when there are none). */
  function GroupMean(vals: seq<real>, uids: seq<nat>, u: nat): real
    requires |vals| == |uids|
  {
    if GroupCount(uids, u) == 0 then 0.0 else GroupSum(vals, uids, u) / GroupCount(uids, u) as real
  }

  /** The mean of each row's group. */
  ghost function RowMeans(uid: seq<nat>, vals: seq<real>, uids: seq<nat>): (r: seq<real>)
    requires |vals| == |uids|
    ensures |r| == |uid| && forall i :: 0 <= i < |uid| ==> r[i] == GroupMean(vals, uids, uid[i])
  {
    seq(|uid|, i requires 0 <= i < |uid| => GroupMean(vals, uids, uid[i]))
  }

  function Penalty(centred: real, reward: real): real {
    0.5 * ((centred - reward) * (centred - reward))
  }

  ghost predicate Complete(uids: seq<nat>, n: nat) {
    forall u :: u in uids ==> GroupCount(uids, u) == n
  }

  /** The penalty of each of a rank's own rows. */
  ghost function Penalties(rtheta: seq<real>, reward: seq<real>, means: seq<real>): (r: seq<real>)
    requires |rtheta| == |reward| == |means|
    ensures |r| == |rtheta|
    ensures forall i :: 0 <= i < |r| ==> r[i] == Penalty(rtheta[i] - means[i], reward[i])
  {
    seq(|rtheta|, i requires 0 <= i < |rtheta| => Penalty(rtheta[i] - means[i], reward[i]))
  }

  lemma {:induction false} CountPositive(uids: seq<nat>, u: nat)
    ensures GroupCount(uids, u) > 0 <==> u in uids
  {
    if uids != [] {
      CountPositive(uids[1..], u);
    }
  }

  /** The group means of a gathered micro-batch, or the first group found that
      does not have `n` members. */
  method GatherMeans(allRtheta: seq<real>, allUid: seq<nat>, n: nat) returns (ok: bool, bad: nat, means: map<nat, real>)
    requires |allRtheta| == |allUid| && n > 0
    ensures ok <==> Complete(allUid, n)
    ensures !ok ==> bad in allUid && GroupCount(allUid, bad) != n
    ensures ok ==> forall u :: u in allUid ==> u in means && means[u] == GroupMean(allRtheta, allUid, u)
  {
    means, bad := map[], 0;
    for p := 0 to |allUid|
      invariant forall u :: u in allUid[..p] ==> u in means
      invariant forall u :: u in means ==> GroupCount(allUid, u) == n && means[u] == GroupMean(allRtheta, allUid, u)
    {
      var u := allUid[p];
      if u !in means {
        CountPositive(allUid, u);
        if GroupCount(allUid, u) != n {
          return false, u, means;
        }
        means := means[u := GroupMean(allRtheta, allUid, u)];
      }
    }
    assert allUid[..|allUid|] == allUid;
    ok := true;
  }

  // ----- what the loss is -----

  ghost function Inner(a: seq<real>, b: seq<real>): real
    requires |a| == |b|
  {
    if a == [] then 0.0 else a[0] * b[0] + Inner(a[1..], b[1..])
  }

  /** Each log-ratio minus the mean of its group. */
  ghost function Centred(rtheta: seq<real>, means: seq<real>): (c: seq<real>)
    requires |rtheta| == |means|
    ensures |c| == |rtheta| && forall i :: 0 <= i < |c| ==> c[i] == rtheta[i] - means[i]
  {
    seq(|rtheta|, i requires 0 <= i < |rtheta| => rtheta[i] - means[i])
  }

  /** `loss` is the squared distance of `c` from `reward`, over `2 * (n - 1)`: it
      penalises the square of the log-ratios, rewards their covariance with the
      reward, and vanishes exactly when the two agree on every row. */
  ghost predicate IsGvpoLoss(loss: real, c: seq<real>, reward: seq<real>, n: nat)
    requires |c| == |reward|
  {
    && 2.0 * (n - 1) as real * loss == Inner(c, c) - 2.0 * Inner(c, reward) + Inner(reward, reward)
    && loss >= 0.0
    && (loss == 0.0 <==> c == reward)
  }

  lemma Expanded(x: real, y: real)
    ensures 2.0 * Penalty(x, y) == x * x - 2.0 * (x * y) + y * y
  {
  }

  lemma PenaltySign(x: real, y: real)
    ensures Penalty(x, y) >= 0.0 && (Penalty(x, y) == 0.0 <==> x == y)
  {
    PenaltyIsProduct(x, y, x - y, x - y);
    hide Penalty, Product;
    ProductSign(x - y, x - y);
  }

  ghost function Product(a: real, b: real): real {
    a * b
  }

  lemma PenaltyIsProduct(x: real, y: real, d: real, e: real)
    requires d == e == x - y
    ensures Penalty(x, y) == 0.5 * Product(d, e)
  {
  }

  lemma ProductSign(a: real, b: real)
    ensures (a > 0.0 && b > 0.0) || (a < 0.0 && b < 0.0) ==> Product(a, b) > 0.0
    ensures a == 0.0 ==> Product(a, b) == 0.0
  {
  }

  lemma {:induction false} PenaltySum(c: seq<real>, reward: seq<real>, terms: seq<real>)
    requires |c| == |reward| == |terms|
    requires forall i :: 0 <= i < |c| ==> terms[i] == Penalty(c[i], reward[i])
    ensures 2.0 * Sum(terms) == Inner(c, c) - 2.0 * Inner(c, reward) + Inner(reward, reward)
    ensures Sum(terms) >= 0.0 && (Sum(terms) == 0.0 <==> c == reward)
  {
    if c == [] {
      assert reward == c;
    } else {
      hide Penalty;
      PenaltySum(c[1..], reward[1..], terms[1..]);
      Expanded(c[0], reward[0]);
      PenaltySign(c[0], reward[0]);
      assert c == [c[0]] + c[1..] && reward == [reward[0]] + reward[1..];
    }
  }

  lemma OverGroupSize(sum: real, loss: real, n: nat)
    requires n > 1 && loss == sum / (n - 1) as real
    ensures 2.0 * (n - 1) as real * loss == 2.0 * sum
    ensures (loss >= 0.0 <==> sum >= 0.0) && (loss == 0.0 <==> sum == 0.0)
  {
    var d := (n - 1) as real;
    assert loss * d == sum;
  }

  /** The penalties over `n - 1` are that loss. */
  lemma PenaltiesAreLoss(rtheta: seq<real>, reward: seq<real>, means: seq<real>, n: nat, loss: real)
    requires |rtheta| == |reward| == |means| && n > 1
    requires loss == Sum(Penalties(rtheta, reward, means)) / (n - 1) as real
    ensures IsGvpoLoss(loss, Centred(rtheta, means), reward, n)
  {
    var terms := Penalties(rtheta, reward, means);
    PenaltySum(Centred(rtheta, means), reward, terms);
    hide Inner, Sum, Penalty, Penalties;
    OverGroupSize(Sum(terms), loss, n);
  }

  method ComputePolicyLossGvpo(rtheta: seq<real>, reward: seq<real>, uid: seq<nat>, allRtheta: seq<real>, allUid: seq<nat>, n: nat)
      returns (r: LossResult)
    requires |rtheta| == |reward| == |uid| && |allRtheta| == |allUid| && n > 1
    requires forall i :: 0 <= i < |uid| ==> uid[i] in allUid
    ensures r.Loss? <==> Complete(allUid, n)
    ensures r.Loss? ==> r.value == Sum(Penalties(rtheta, reward, RowMeans(uid, allRtheta, allUid))) / (n - 1) as real
    ensures r.Loss? ==> IsGvpoLoss(r.value, Centred(rtheta, RowMeans(uid, allRtheta, allUid)), reward, n)
    ensures r.IncompleteGroup? ==> r.uid in allUid && GroupCount(allUid, r.uid) != n
  {
    var ok, bad, means := GatherMeans(allRtheta, allUid, n);
    if !ok {
      return IncompleteGroup(bad);
    }
    ghost var terms := Penalties(rtheta, reward, RowMeans(uid, allRtheta, allUid));
    var loss := 0.0;
    for i := 0 to |rtheta|
      invariant loss == Sum(terms[..i])
    {
      SumAppend(terms, i);
      loss := loss + Penalty(rtheta[i] - means[uid[i]], reward[i]);
    }
    assert terms[..|rtheta|] == terms;
    r := Loss(loss / (n - 1) as real);
    PenaltiesAreLoss(rtheta, reward, RowMeans(uid, allRtheta, allUid), n, r.value);
  }

  // ----- batches whose row `x` belongs to group `x / n` -----

  function Uids(rows: seq<nat>, n: nat): (r: seq<nat>)
    requires n > 0
    ensures |r| == |rows| && forall i :: 0 <= i < |rows| ==> r[i] == rows[i] / n
  {
    seq(|rows|, i requires 0 <= i < |rows| => rows[i] / n)
  }

  function Selected(f: nat -> real, n: nat, u: nat): nat -> real
    requires n > 0
  {
    (x: nat) => if x / n == u then f(x) else 0.0
  }

  function One(): nat -> real {
    x => 1.0
  }

  lemma {:induction false} GroupSumIsSelected(f: nat -> real, rows: seq<nat>, n: nat, u: nat)
    requires n > 0
    ensures GroupSum(Map(f, rows), Uids(rows, n), u) == SumOf<nat>(Selected(f, n, u), rows)
  {
    if rows != [] {
      GroupSumIsSelected(f, rows[1..], n, u);
      assert Map(f, rows)[1..] == Map(f, rows[1..]);
      assert Uids(rows, n)[1..] == Uids(rows[1..], n);
    }
  }

  lemma {:induction false} GroupCountIsSelected(rows: seq<nat>, n: nat, u: nat)
    requires n > 0
    ensures GroupCount(Uids(rows, n), u) as real == SumOf<nat>(Selected(One(), n, u), rows)
  {
    if rows != [] {
      GroupCountIsSelected(rows[1..], n, u);
      assert Uids(rows, n)[1..] == Uids(rows[1..], n);
    }
  }

  /** The sum over the rows of one whole group. */
  ghost function WholeGroupSum(f: nat -> real, n: nat, u: nat): real {
    SumOf<nat>(f, GroupRows([u], n))
  }

  lemma GroupRowsHead(part: seq<nat>, n: nat)
    requires part != []
    ensures GroupRows(part, n) == GroupRows([part[0]], n) + GroupRows(part[1..], n)
  {
    assert part == [part[0]] + part[1..];
    GroupRowsConcat([part[0]], part[1..], n);
  }

  lemma SelectedInBlock(f: nat -> real, n: nat, v: nat, u: nat)
    requires n > 0
    ensures SumOf<nat>(Selected(f, n, u), GroupRows([v], n)) == if v == u then WholeGroupSum(f, n, u) else 0.0
  {
    var block := GroupRows([v], n);
    forall x | x in block ensures x / n == v {
      GroupRowsMembers([v], n, x);
    }
    if v == u {
      SumOfCongruent<nat>(Selected(f, n, u), f, block);
    } else {
      SumOfCongruent<nat>(Selected(f, n, u), x => 0.0, block);
      SumOfZero(block);
    }
  }

  lemma {:induction false} SumOfZero(s: seq<nat>)
    ensures SumOf<nat>(x => 0.0, s) == 0.0
  {
    if s != [] {
      SumOfZero(s[1..]);
    }
  }

  lemma {:induction false} SumOfOnes(s: seq<nat>)
    ensures SumOf<nat>(One(), s) == |s| as real
  {
    if s != [] {
      SumOfOnes(s[1..]);
    }
  }

  /** Among the rows of distinct listed groups, group `u` contributes its
      whole sum if it is listed and nothing otherwise. */
  lemma {:induction false} SelectedInGroups(f: nat -> real, part: seq<nat>, n: nat, u: nat)
    requires n > 0 && multiset(part)[u] <= 1
    ensures SumOf<nat>(Selected(f, n, u), GroupRows(part, n)) == if u in part then WholeGroupSum(f, n, u) else 0.0
  {
    if part != [] {
      assert part == [part[0]] + part[1..];
      assert u in part[1..] ==> u in multiset(part[1..]);
      SelectedInGroups(f, part[1..], n, u);
      SelectedInBlock(f, n, part[0], u);
      GroupRowsHead(part, n);
      SumOfConcat<nat>(Selected(f, n, u), GroupRows([part[0]], n), GroupRows(part[1..], n));
    }
  }

  // ----- the scheduled batch -----

  /** The mean over group `u`'s rows `u * n .. u * n + n` of the batch. */
  ghost function BatchMean(f: nat -> real, n: nat, u: nat): real
    requires n > 0
  {
    WholeGroupSum(f, n, u) / n as real
  }

  ghost function BatchMeans(f: nat -> real, n: nat): nat -> real
    requires n > 0
  {
    (x: nat) => BatchMean(f, n, x / n)
  }

  ghost function RowPenalty(f: nat -> real, g: nat -> real, mean: nat -> real): nat -> real {
    (x: nat) => Penalty(f(x) - mean(x), g(x))
  }

  lemma PenaltyAt(f: nat -> real, g: nat -> real, mean: nat -> real, own: seq<nat>, i: nat)
    requires i < |own|
    ensures Penalties(Map(f, own), Map(g, own), Map(mean, own))[i] == RowPenalty(f, g, mean)(own[i])
  {
    assert Map(f, own)[i] == f(own[i]);
    assert Map(g, own)[i] == g(own[i]);
    assert Map(mean, own)[i] == mean(own[i]);
  }

  lemma PenaltiesOfRows(f: nat -> real, g: nat -> real, mean: nat -> real, own: seq<nat>)
    ensures Sum(Penalties(Map(f, own), Map(g, own), Map(mean, own))) == SumOf<nat>(RowPenalty(f, g, mean), own)
  {
    SumOfIsSum<nat>(RowPenalty(f, g, mean), own);
    var a, b := Penalties(Map(f, own), Map(g, own), Map(mean, own)), Map(RowPenalty(f, g, mean), own);
    forall i | 0 <= i < |own| ensures a[i] == b[i] {
      PenaltyAt(f, g, mean, own, i);
    }
    assert a == b;
  }

  /** The single-machine loss: every row against its own group's mean. */
  ghost function ReferenceLoss(f: nat -> real, g: nat -> real, n: nat, batch: nat): real
    requires n > 1
  {
    SumOf<nat>(RowPenalty(f, g, BatchMeans(f, n)), Range(batch)) / (n - 1) as real
  }

  lemma {:induction false} ListedOnce(groups: seq<seq<nat>>, k: nat, u: nat)
    requires k < |groups|
    ensures multiset(groups[k])[u] <= multiset(Flatten<nat>(groups))[u]
  {
    if k > 0 {
      ListedOnce(groups[1..], k - 1, u);
    }
  }

  lemma DistinctGroups(groups: seq<seq<nat>>, m: nat, slots: nat, k: nat, u: nat)
    requires IsEqualPartition(groups, m, slots) && k < slots
    ensures multiset(groups[k])[u] <= 1
  {
    ListedOnce(groups, k, u);
    RangeMultiplicity(m, u);
  }

  /** A balanced batch: the order, its sizes and the groups of each slot. */
  datatype Plan = Plan(idx: seq<nat>, batch: nat, ranks: nat, n: nat, perRank: nat, slots: nat, groups: seq<seq<nat>>) {

    ghost predicate Valid() {
      n > 1 && Scheduled(idx, batch, ranks, n, perRank, slots, groups)
    }

    /** Everything the ranks hold at slot `k`, as the all-gather sees it. */
    ghost function Slot(k: nat): seq<nat>
      requires Valid() && k < slots
    {
      BlockBounds(k, slots, perRank);
      SlotRows<nat>(idx, ranks, slots * perRank, perRank, k)
    }

    /** What rank `i` holds at slot `k`. */
    ghost function Own(k: nat, i: nat): seq<nat>
      requires Valid() && k < slots && i < ranks
    {
      BlockBounds(k, slots, perRank);
      MicroBatch<nat>(idx, ranks, slots * perRank, perRank, k, i)
    }

    lemma SlotBlocksAreOwn(k: nat) returns (blocks: seq<seq<nat>>)
      requires Valid() && k < slots
      ensures |blocks| == ranks && Slot(k) == Flatten<nat>(blocks)
      ensures forall i :: 0 <= i < ranks ==> blocks[i] == Own(k, i)
    {
      BlockBounds(k, slots, perRank);
      blocks := SlotBlocks<nat>(idx, ranks, slots * perRank, perRank, k);
    }

    lemma SlotHolds(k: nat)
      requires Valid() && k < slots
      ensures multiset(Slot(k)) == multiset(GroupRows(groups[k], n))
      ensures forall u: nat :: multiset(groups[k])[u] <= 1
    {
      assert SlotIs(idx, ranks, perRank, slots, k, GroupRows(groups[k], n));
      forall u: nat ensures multiset(groups[k])[u] <= 1 {
        DistinctGroups(groups, batch / n, slots, k, u);
      }
    }

    lemma OwnInSlot(k: nat, i: nat, x: nat)
      requires Valid() && k < slots && i < ranks && x in Own(k, i)
      ensures x in Slot(k)
    {
      var blocks := SlotBlocksAreOwn(k);
      assert x in blocks[i];
      FlattenMembers<nat>(blocks, x);
    }

    /** A slot holds a row exactly when the row's group is one of the slot's. */
    lemma SlotMembers(k: nat, x: nat)
      requires Valid() && k < slots
      ensures x in Slot(k) <==> x / n in groups[k]
    {
      SlotHolds(k);
      GroupRowsMembers(groups[k], n, x);
      assert x in Slot(k) <==> x in multiset(Slot(k));
      assert x in GroupRows(groups[k], n) <==> x in multiset(GroupRows(groups[k], n));
    }

    lemma SlotInBatch(k: nat, x: nat)
      requires Valid() && k < slots && x in Slot(k)
      ensures x < batch
    {
      SlotMembers(k, x);
      FlattenMembers<nat>(groups, x / n);
      PermutationEntries(Flatten<nat>(groups), batch / n);
      ExactQuotient(batch, n);
      QuotientBelow(x, n, batch / n);
    }

    /** Prompt groups are never split between micro-batch slots. */
    lemma WholeGroups(k: nat, x: nat, y: nat)
      requires Valid() && k < slots
      requires x in Slot(k) && x / n == y / n
      ensures y in Slot(k)
    {
      SlotMembers(k, x);
      SlotMembers(k, y);
    }

    /** Sums over a group inside a slot are sums over the whole group. */
    lemma SlotSelected(k: nat, f: nat -> real, u: nat)
      requires Valid() && k < slots && u in groups[k]
      ensures SumOf<nat>(Selected(f, n, u), Slot(k)) == WholeGroupSum(f, n, u)
    {
      SlotHolds(k);
      SumOfPermuted<nat>(Selected(f, n, u), Slot(k), GroupRows(groups[k], n));
      SelectedInGroups(f, groups[k], n, u);
    }

    lemma GatheredGroup(k: nat, u: nat)
      requires Valid() && k < slots && u in Uids(Slot(k), n)
      ensures u in groups[k]
    {
      var rows := Slot(k);
      var i :| 0 <= i < |rows| && rows[i] / n == u;
      SlotMembers(k, rows[i]);
    }

    lemma GatheredUid(k: nat, x: nat)
      requires Valid() && k < slots && x in Slot(k)
      ensures x / n in Uids(Slot(k), n)
    {
      var p :| 0 <= p < |Slot(k)| && Slot(k)[p] == x;
      assert Uids(Slot(k), n)[p] == x / n;
    }

    /** The loss's group-size assertion holds in every slot. */
    lemma SlotComplete(k: nat)
      requires Valid() && k < slots
      ensures Complete(Uids(Slot(k), n), n)
    {
      forall u | u in Uids(Slot(k), n) ensures GroupCount(Uids(Slot(k), n), u) == n {
        GatheredGroup(k, u);
        SlotSelected(k, One(), u);
        GroupCountIsSelected(Slot(k), n, u);
        SumOfOnes(GroupRows([u], n));
      }
    }

    /** The gathered mean of a group is its mean over the whole batch. */
    lemma SlotMean(k: nat, f: nat -> real, u: nat)
      requires Valid() && k < slots && u in Uids(Slot(k), n)
      ensures GroupMean(Map(f, Slot(k)), Uids(Slot(k), n), u) == BatchMean(f, n, u)
    {
      SlotComplete(k);
      GatheredGroup(k, u);
      SlotSelected(k, f, u);
      GroupSumIsSelected(f, Slot(k), n, u);
    }

    /** What rank `i` computes at slot `k`: the loss of its own rows against
        the means gathered from all ranks. */
    ghost function RankLoss(f: nat -> real, g: nat -> real, k: nat, i: nat): real
      requires Valid() && k < slots && i < ranks
    {
      LocalPenalties(f, g, Own(k, i), Slot(k), n) / (n - 1) as real
    }

    ghost function SlotLoss(f: nat -> real, g: nat -> real, k: nat): real
      requires Valid() && k < slots
    {
      Sum(seq(ranks, i requires 0 <= i < ranks => RankLoss(f, g, k, i)))
    }

    /** The sum of the losses of all ranks over all slots. */
    ghost function TotalLoss(f: nat -> real, g: nat -> real): real
      requires Valid()
    {
      Sum(seq(slots, k requires 0 <= k < slots => SlotLoss(f, g, k)))
    }

    lemma RankLossIs(f: nat -> real, g: nat -> real, k: nat, i: nat)
      requires Valid() && k < slots && i < ranks
      ensures RankLoss(f, g, k, i) == SumOf<nat>(RowPenalty(f, g, BatchMeans(f, n)), Own(k, i)) / (n - 1) as real
    {
      var own, uids := Own(k, i), Uids(Own(k, i), n);
      var means := RowMeans(uids, Map(f, Slot(k)), Uids(Slot(k), n));
      forall j | 0 <= j < |own| ensures means[j] == BatchMeans(f, n)(own[j]) {
        OwnInSlot(k, i, own[j]);
        GatheredUid(k, own[j]);
        SlotMean(k, f, uids[j]);
      }
      assert means == Map(BatchMeans(f, n), own);
      PenaltiesOfRows(f, g, BatchMeans(f, n), own);
    }

    lemma SlotLossIs(f: nat -> real, g: nat -> real, k: nat)
      requires Valid() && k < slots
      ensures SlotLoss(f, g, k) == SumOf<nat>(RowPenalty(f, g, BatchMeans(f, n)), GroupRows(groups[k], n)) / (n - 1) as real
    {
      hide SumOf, Flatten, RowPenalty, BatchMeans, GroupRows, Sum, RankLoss;
      var blocks := SlotBlocksAreOwn(k);
      var losses := seq(ranks, i requires 0 <= i < ranks => RankLoss(f, g, k, i));
      forall i | 0 <= i < ranks ensures losses[i] == SumOf<nat>(RowPenalty(f, g, BatchMeans(f, n)), blocks[i]) / (n - 1) as real {
        RankLossIs(f, g, k, i);
      }
      SumOfBlocks(RowPenalty(f, g, BatchMeans(f, n)), blocks, losses, (n - 1) as real);
      SlotHolds(k);
      SumOfPermuted<nat>(RowPenalty(f, g, BatchMeans(f, n)), Slot(k), GroupRows(groups[k], n));
    }

    /** Summed over all ranks and micro-batch slots of a balanced batch, the
        loss is the single-machine loss of the batch in its original order. */
    lemma DistributedLossIsReference(f: nat -> real, g: nat -> real)
      requires Valid()
      ensures TotalLoss(f, g) == ReferenceLoss(f, g, n, batch)
    {
      hide SumOf, Flatten, RowPenalty, BatchMeans, GroupRows, Sum, Range;
      var rows := seq(slots, k requires 0 <= k < slots => GroupRows(groups[k], n));
      var losses := seq(slots, k requires 0 <= k < slots => SlotLoss(f, g, k));
      forall k | 0 <= k < slots ensures losses[k] == SumOf<nat>(RowPenalty(f, g, BatchMeans(f, n)), rows[k]) / (n - 1) as real {
        SlotLossIs(f, g, k);
      }
      SumOfBlocks(RowPenalty(f, g, BatchMeans(f, n)), rows, losses, (n - 1) as real);
      AllRows(rows);
      SumOfPermuted<nat>(RowPenalty(f, g, BatchMeans(f, n)), Flatten<nat>(rows), Range(batch));
    }

    lemma AllRows(rows: seq<seq<nat>>)
      requires Valid() && |rows| == slots && forall k :: 0 <= k < slots ==> rows[k] == GroupRows(groups[k], n)
      ensures IsPermutation(Flatten<nat>(rows), batch)
    {
      GroupRowsFlatten(groups, n, rows);
      var m := batch / n;
      ExactQuotient(batch, n);
      GroupRowsPermutation(Flatten<nat>(groups), m, n);
    }

    /** Rank `i` is sent chunk `i` of the reordered batch, cuts it into
        mini-batches and those into micro-batches: its `k`-th micro-batch is
        its part of slot `k`. */
    lemma RankMicroBatches(mini: nat, k: nat, i: nat)
      requires Valid() && idx != [] && ranks > 0 && perRank > 0
      requires mini > 0 && mini % perRank == 0 && k < slots && i < ranks
      ensures |TorchChunk<nat>(idx, ranks)| == ranks
      ensures var micros := MicroBatches(TorchChunk<nat>(idx, ranks)[i], mini, perRank);
              |micros| == slots && micros[k] == Own(k, i)
    {
      var chunk := slots * perRank;
      BlockBounds(k, slots, perRank);
      BlockBounds(i, ranks, chunk);
      EvenCeilDiv(ranks, chunk);
      var whole := idx;
      assert TorchChunk<nat>(whole, ranks) == Split<nat>(whole, chunk);
      OwnIs(k, i);
      hide *;
      SplitEvenAt<nat>(whole, chunk, ranks, i);
      var rows := Split<nat>(whole, chunk)[i];
      MicroBatchesAreSplit(rows, mini, perRank);
      SplitEvenAt<nat>(rows, perRank, slots, k);
      SliceOfSlice<nat>(whole, i * chunk, i * chunk + chunk, k * perRank, k * perRank + perRank);
    }

    lemma OwnIs(k: nat, i: nat)
      requires Valid() && k < slots && i < ranks
      ensures var chunk := slots * perRank;
              && |idx| == ranks * chunk && 0 <= i * chunk <= i * chunk + chunk <= |idx|
              && 0 <= k * perRank <= k * perRank + perRank <= chunk
              && Own(k, i) == idx[i * chunk + k * perRank..i * chunk + (k * perRank + perRank)]
    {
      BlockBounds(k, slots, perRank);
      BlockBounds(i, ranks, slots * perRank);
    }
  }

  // ----- what each rank computes -----

  /** The penalties computed from the vectors of the own and gathered rows. */
  ghost function LocalPenalties(f: nat -> real, g: nat -> real, own: seq<nat>, gathered: seq<nat>, n: nat): real
    requires n > 0
  {
    Sum(Penalties(Map(f, own), Map(g, own), RowMeans(Uids(own, n), Map(f, gathered), Uids(gathered, n))))
  }

  lemma {:induction false} SumOfBlocks(f: nat -> real, blocks: seq<seq<nat>>, losses: seq<real>, c: real)
    requires c != 0.0 && |losses| == |blocks|
    requires forall i :: 0 <= i < |blocks| ==> losses[i] == SumOf<nat>(f, blocks[i]) / c
    ensures Sum(losses) == SumOf<nat>(f, Flatten<nat>(blocks)) / c
  {
    if blocks != [] {
      SumOfBlocks(f, blocks[1..], losses[1..], c);
      SumOfConcat<nat>(f, blocks[0], Flatten<nat>(blocks[1..]));
      DivideSum(SumOf<nat>(f, blocks[0]), SumOf<nat>(f, Flatten<nat>(blocks[1..])), c);
    }
  }

  /** Mini-batches of `mini` rows, each cut into micro-batches of `micro`. */
  function MicroBatches(rows: seq<nat>, mini: nat, micro: nat): seq<seq<nat>>
    requires mini > 0 && micro > 0
  {
    Flatten(Map((m: seq<nat>) => if micro > 0 then Split<nat>(m, micro) else [], Split<nat>(rows, mini)))
  }

  lemma EvenCeilDiv(k: nat, c: nat)
    requires k > 0
    ensures CeilDiv(k * c, k) == c
  {
    assert k * c == c * k;
    assert c > 0 ==> (c - 1) * k == c * k - k;
    CeilDivIs(k * c, k, c);
  }

  lemma MicroBatchesAreSplit(rows: seq<nat>, mini: nat, micro: nat)
    requires mini > 0 && micro > 0 && mini % micro == 0
    ensures MicroBatches(rows, mini, micro) == Split<nat>(rows, micro)
  {
    SplitTwice<nat>(rows, mini, micro);
    hide Split, Flatten;
  }

  // ----- invariance -----

  /** `h` is `f` with an amount added per group. */
  ghost predicate IsShift(f: nat -> real, shift: nat -> real, h: nat -> real, n: nat)
    requires n > 0
  {
    forall x: nat :: h(x) == f(x) + shift(x / n)
  }

  /** Shifting every row of a group by one amount shifts the group's mean by it. */
  lemma ShiftedMean(f: nat -> real, shift: nat -> real, h: nat -> real, n: nat, u: nat)
    requires n > 0 && IsShift(f, shift, h, n)
    ensures BatchMean(h, n, u) == BatchMean(f, n, u) + shift(u)
  {
    hide *;
    var rows := GroupRows([u], n);
    forall x | x in rows ensures h(x) == f(x) + shift(u) * One()(x) {
      ShiftedMember(f, shift, h, n, u, x);
    }
    SumOfLinear<nat>(f, One(), h, shift(u), rows);
    SumOfOnes(rows);
    OneGroupSize(n, u);
    BatchMeanIs(f, n, u);
    BatchMeanIs(h, n, u);
    ShiftOverCount(SumOf<nat>(f, rows), shift(u), n as real);
  }

  lemma ShiftedMember(f: nat -> real, shift: nat -> real, h: nat -> real, n: nat, u: nat, x: nat)
    requires n > 0 && IsShift(f, shift, h, n) && x in GroupRows([u], n)
    ensures h(x) == f(x) + shift(u) * One()(x)
  {
    GroupRowsMembers([u], n, x);
    hide GroupRows;
  }

  lemma OneGroupSize(n: nat, u: nat)
    ensures |GroupRows([u], n)| == n
  {
  }

  lemma BatchMeanIs(f: nat -> real, n: nat, u: nat)
    requires n > 0
    ensures BatchMean(f, n, u) == SumOf<nat>(f, GroupRows([u], n)) / n as real
  {
    hide SumOf, GroupRows;
  }

  lemma ShiftOverCount(a: real, c: real, n: real)
    requires n != 0.0
    ensures (a + c * n) / n == a / n + c
  {
  }

  /** The loss does not see a constant added to the log-ratios of a group. */
  lemma LossIgnoresGroupShift(f: nat -> real, g: nat -> real, shift: nat -> real, h: nat -> real, n: nat, batch: nat)
    requires n > 1 && IsShift(f, shift, h, n)
    ensures ReferenceLoss(h, g, n, batch) == ReferenceLoss(f, g, n, batch)
  {
    var a, b := RowPenalty(f, g, BatchMeans(f, n)), RowPenalty(h, g, BatchMeans(h, n));
    hide BatchMean, Penalty, SumOf, Range;
    forall x | x in Range(batch) ensures b(x) == a(x) {
      SamePenaltyAt(f, g, shift, h, n, x);
    }
    SumOfCongruent<nat>(b, a, Range(batch));
  }

  lemma SamePenaltyAt(f: nat -> real, g: nat -> real, shift: nat -> real, h: nat -> real, n: nat, x: nat)
    requires n > 1 && IsShift(f, shift, h, n)
    ensures RowPenalty(h, g, BatchMeans(h, n))(x) == RowPenalty(f, g, BatchMeans(f, n))(x)
  {
    var u := x / n;
    assert h(x) == f(x) + shift(u);
    hide BatchMean, Penalty;
    ShiftedMean(f, shift, h, n, u);
    SamePenalty(f(x), BatchMean(f, n, u), h(x), BatchMean(h, n, u), g(x));
  }

  lemma SamePenalty(x: real, mean: real, x': real, mean': real, reward: real)
    requires x' - mean' == x - mean
    ensures Penalty(x' - mean', reward) == Penalty(x - mean, reward)
  {
  }
}
