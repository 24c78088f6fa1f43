/** Dynamic sampling: prompts whose answers all score alike are dropped, and
    generation goes on until a training batch is full. */
module DynamicSampling {
  import opened Options
  import opened Sequences

  /** One answer: its prompt's id, its score, and the rest of its row. */
  datatype Answer<+T> = Answer(uid: nat, metric: real, data: T)

  /** The `n` answers to one prompt. */
  type Group<T> = seq<Answer<T>>

  // ----- scores -----

  function Metrics<T>(rows: seq<Answer<T>>): seq<real> {
    Map((a: Answer<T>) => a.metric, rows)
  }

  function Mean(vals: seq<real>): real
    requires vals != []
  {
    Sum(vals) / |vals| as real
  }

  function Abs(x: real): (a: real)
    ensures if x == 0.0 then a == 0.0 else a > 0.0
  {
    if x < 0.0 then -x else x
  }

  function Product(a: real, b: real): real {
    a * b
  }

  lemma ProductSign(a: real, b: real)
    requires a >= 0.0 && b >= 0.0
    ensures a > 0.0 && b > 0.0 ==> Product(a, b) > 0.0
    ensures a == 0.0 ==> Product(a, b) == 0.0
  {
  }

  function Deviation(m: real): real -> real {
    (x: real) => Product(Abs(x - m), Abs(x - m))
  }

  /** The square of the standard deviation. */
  function Variance(vals: seq<real>): real
    requires vals != []
  {
    SumOf(Deviation(Mean(vals)), vals) / |vals| as real
  }

  predicate AllEqual(vals: seq<real>, c: real) {
    forall i :: 0 <= i < |vals| ==> vals[i] == c
  }

  predicate Constant(vals: seq<real>) {
    vals != [] ==> AllEqual(vals, vals[0])
  }

  lemma {:induction false} SumOfEqual(vals: seq<real>, c: real)
    requires AllEqual(vals, c)
    ensures Sum(vals) == c * |vals| as real
  {
    if vals != [] {
      SumOfEqual(vals[1..], c);
      OneMore(c, (|vals| - 1) as real);
    }
  }

  lemma OneMore(c: real, k: real)
    ensures c + c * k == c * (k + 1.0)
  {
  }

  lemma {:induction false} DeviationsVanish(m: real, vals: seq<real>)
    ensures if AllEqual(vals, m) then SumOf(Deviation(m), vals) == 0.0 else SumOf(Deviation(m), vals) > 0.0
  {
    if vals != [] {
      DeviationsVanish(m, vals[1..]);
      var d := Deviation(m)(vals[0]);
      ProductSign(Abs(vals[0] - m), Abs(vals[0] - m));
      assert if vals[0] == m then d == 0.0 else d > 0.0;
      assert SumOf(Deviation(m), vals) == d + SumOf(Deviation(m), vals[1..]);
      assert vals == [vals[0]] + vals[1..];
      assert AllEqual(vals, m) <==> vals[0] == m && AllEqual(vals[1..], m);
    }
  }

  /** The scores of a prompt deviate exactly when they are not all equal. */
  lemma VarianceIff(vals: seq<real>)
    requires vals != []
    ensures Variance(vals) >= 0.0 && (Variance(vals) > 0.0 <==> !Constant(vals))
  {
    var m := Mean(vals);
    DeviationsVanish(m, vals);
    QuotientSign(SumOf(Deviation(m), vals), |vals| as real);
    if AllEqual(vals, vals[0]) {
      SumOfEqual(vals, vals[0]);
      Cancel(vals[0], |vals| as real);
    }
  }

  lemma QuotientSign(x: real, n: real)
    requires x >= 0.0 && n > 0.0
    ensures x / n >= 0.0 && (x / n > 0.0 <==> x > 0.0)
  {
  }

  lemma Cancel(c: real, n: real)
    requires n > 0.0
    ensures c * n / n == c
  {
  }

  /** A group worth training on. */
  predicate Useful<T>(g: Group<T>) {
    |g| == 1 || !Constant(Metrics(g))
  }

  function Kept<T>(groups: seq<Group<T>>): seq<Group<T>> {
    if groups == [] then []
    else Kept(groups[..|groups| - 1]) + if Useful(groups[|groups| - 1]) then [groups[|groups| - 1]] else []
  }

  /** Keeping works group by group, whatever is around a group. */
  lemma {:induction false} KeptConcat<T>(a: seq<Group<T>>, b: seq<Group<T>>)
    ensures Kept(a + b) == Kept(a) + Kept(b)
    ensures |b| == 1 ==> Kept(b) == if Useful(b[0]) then b else []
    decreases |b|
  {
    if b == [] {
      assert a + b == a;
    } else {
      var k := |b| - 1;
      assert (a + b)[..|a + b| - 1] == a + b[..k];
      KeptConcat(a, b[..k]);
      hide Useful;
      assert Kept(b[..0]) == [];
      assert k == 0 ==> b == [b[0]] && b[..0] == b[..k];
    }
  }

  // ----- a generated batch -----

  /** `n` answers each to different prompts, prompt by prompt. */
  ghost predicate Generated<T>(groups: seq<Group<T>>, n: nat) {
    && n > 0
    && (forall i :: 0 <= i < |groups| ==> IsGroup(groups[i], n))
    && forall i, j :: 0 <= i < j < |groups| ==> groups[i][0].uid != groups[j][0].uid
  }

  ghost predicate IsGroup<T>(g: Group<T>, n: nat) {
    |g| == n > 0 && forall i :: 0 <= i < n ==> g[i].uid == g[0].uid
  }

  // ----- the dictionaries of the filter -----

  /** The scores of the answers to one prompt, in order. */
  function ScoresOf<T>(rows: seq<Answer<T>>, uid: nat): seq<real> {
    if rows == [] then []
    else
      var last := rows[|rows| - 1];
      ScoresOf(rows[..|rows| - 1], uid) + if last.uid == uid then [last.metric] else []
  }

  /** The prompts in the order of their first answers. */
  function Uids<T>(rows: seq<Answer<T>>): seq<nat> {
    if rows == [] then []
    else
      var before := Uids(rows[..|rows| - 1]);
      var uid := rows[|rows| - 1].uid;
      if uid in before then before else before + [uid]
  }

  /** The answers to the prompts in `uids`, in order. */
  function RowsOf<T>(rows: seq<Answer<T>>, uids: seq<nat>): seq<Answer<T>> {
    if rows == [] then []
    else RowsOf(rows[..|rows| - 1], uids) + if rows[|rows| - 1].uid in uids then [rows[|rows| - 1]] else []
  }

  lemma {:induction false} ScoresExtend<T>(a: seq<Answer<T>>, g: seq<Answer<T>>, uid: nat, own: nat)
    requires forall i :: 0 <= i < |g| ==> g[i].uid == own
    ensures ScoresOf(a + g, uid) == ScoresOf(a, uid) + if uid == own then Metrics(g) else []
    decreases |g|
  {
    if g == [] {
      assert a + g == a;
    } else {
      var k := |g| - 1;
      assert (a + g)[..|a + g| - 1] == a + g[..k];
      ScoresExtend(a, g[..k], uid, own);
      assert Metrics(g) == Metrics(g[..k]) + [g[k].metric];
    }
  }

  lemma {:induction false} UidsExtend<T>(a: seq<Answer<T>>, g: seq<Answer<T>>, own: nat)
    requires g != [] && (forall i :: 0 <= i < |g| ==> g[i].uid == own) && own !in Uids(a)
    ensures Uids(a + g) == Uids(a) + [own]
    decreases |g|
  {
    var k := |g| - 1;
    assert (a + g)[..|a + g| - 1] == a + g[..k];
    if k == 0 {
      assert a + g[..0] == a;
    } else {
      UidsExtend(a, g[..k], own);
    }
  }

  lemma {:induction false} RowsExtend<T>(a: seq<Answer<T>>, g: seq<Answer<T>>, uids: seq<nat>, own: nat)
    requires forall i :: 0 <= i < |g| ==> g[i].uid == own
    ensures RowsOf(a + g, uids) == RowsOf(a, uids) + if own in uids then g else []
    decreases |g|
  {
    if g == [] {
      assert a + g == a;
    } else {
      var k := |g| - 1;
      assert (a + g)[..|a + g| - 1] == a + g[..k];
      RowsExtend(a, g[..k], uids, own);
      assert g == g[..k] + [g[k]];
    }
  }

  function Heads<T>(groups: seq<Group<T>>): (r: seq<nat>)
    requires forall i :: 0 <= i < |groups| ==> groups[i] != []
    ensures |r| == |groups| && forall i :: 0 <= i < |groups| ==> r[i] == groups[i][0].uid
  {
    seq(|groups|, i requires 0 <= i < |groups| => groups[i][0].uid)
  }

  lemma FlattenInit<T>(groups: seq<seq<T>>)
    requires groups != []
    ensures Flatten(groups) == Flatten(groups[..|groups| - 1]) + groups[|groups| - 1]
  {
    var k := |groups| - 1;
    assert groups == groups[..k] + [groups[k]];
    FlattenAppend(groups[..k], groups[k]);
  }

  /** The dictionary's keys are the prompts in order. */
  lemma {:induction false} UidsAreHeads<T>(groups: seq<Group<T>>, n: nat)
    requires Generated(groups, n)
    ensures Uids(Flatten(groups)) == Heads(groups)
    decreases |groups|
  {
    if groups != [] {
      var k := |groups| - 1;
      FlattenInit(groups);
      UidsAreHeads(groups[..k], n);
      UidsExtend(Flatten(groups[..k]), groups[k], groups[k][0].uid);
      assert Heads(groups) == Heads(groups[..k]) + [groups[k][0].uid];
    }
  }

  /** The dictionary's lists are the groups' scores. */
  lemma {:induction false} ScoresAreMetrics<T>(groups: seq<Group<T>>, n: nat, i: nat)
    requires Generated(groups, n) && i < |groups|
    ensures ScoresOf(Flatten(groups), groups[i][0].uid) == Metrics(groups[i])
    decreases |groups|
  {
    hide Flatten, ScoresOf, Metrics;
    var k := |groups| - 1;
    FlattenInit(groups);
    ScoresExtend(Flatten(groups[..k]), groups[k], groups[i][0].uid, groups[k][0].uid);
    if i < k {
      ScoresAreMetrics(groups[..k], n, i);
    } else {
      NoScores(groups[..k], n, groups[k][0].uid);
      NothingBefore(Metrics(groups[k]));
    }
    NothingBehind(ScoresOf(Flatten(groups[..k]), groups[i][0].uid));
  }

  lemma NothingBefore(s: seq<real>)
    ensures [] + s == s
  {
  }

  lemma NothingBehind(s: seq<real>)
    ensures s + [] == s
  {
  }

  lemma {:induction false} NoScores<T>(groups: seq<Group<T>>, n: nat, uid: nat)
    requires Generated(groups, n) && forall i :: 0 <= i < |groups| ==> groups[i][0].uid != uid
    ensures ScoresOf(Flatten(groups), uid) == []
    decreases |groups|
  {
    if groups != [] {
      var k := |groups| - 1;
      FlattenInit(groups);
      NoScores(groups[..k], n, uid);
      ScoresExtend(Flatten(groups[..k]), groups[k], uid, groups[k][0].uid);
    }
  }

  /** Keeping the answers to the useful prompts keeps the useful groups whole. */
  lemma {:induction false} RowsAreKept<T>(groups: seq<Group<T>>, n: nat, uids: seq<nat>)
    requires Generated(groups, n)
    requires forall i :: 0 <= i < |groups| ==> (groups[i][0].uid in uids <==> Useful(groups[i]))
    ensures RowsOf(Flatten(groups), uids) == Flatten(Kept(groups))
    decreases |groups|
  {
    if groups != [] {
      var k := |groups| - 1;
      FlattenInit(groups);
      RowsAreKept(groups[..k], n, uids);
      RowsExtend(Flatten(groups[..k]), groups[k], uids, groups[k][0].uid);
      FlattenAppend(Kept(groups[..k]), groups[k]);
      assert Kept(groups[..k]) + [] == Kept(groups[..k]);
    }
  }

  lemma {:induction false} KeptAreGroups<T>(groups: seq<Group<T>>, n: nat)
    requires Generated(groups, n)
    ensures forall i :: 0 <= i < |Kept(groups)| ==> IsGroup(Kept(groups)[i], n) && Useful(Kept(groups)[i])
    decreases |groups|
  {
    if groups != [] {
      KeptAreGroups(groups[..|groups| - 1], n);
    }
  }

  // ----- the filter -----

  lemma NoRows<T>(rows: seq<Answer<T>>, uids: seq<nat>)
    ensures RowsOf(rows[..0], uids) == []
  {
  }

  lemma NextRow<T>(rows: seq<Answer<T>>, uids: seq<nat>, i: nat)
    requires i < |rows|
    ensures RowsOf(rows[..i + 1], uids) == RowsOf(rows[..i], uids) + if rows[i].uid in uids then [rows[i]] else []
  {
    assert rows[..i + 1][..i] == rows[..i];
  }

  /** The answers to the useful prompts, and how many those are. */
  method FilterGroups<T>(rows: seq<Answer<T>>, ghost groups: seq<Group<T>>, ghost n: nat)
    returns (kept: seq<Answer<T>>, prompts: nat)
    requires Generated(groups, n) && rows == Flatten(groups)
    ensures kept == Flatten(Kept(groups)) && prompts == |Kept(groups)|
  {
    var order, scores := CollectScores(rows);
    var keptUids := KeepUids(order, scores, groups, n);
    RowsAreKept(groups, n, keptUids);
    hide *;
    kept := [];
    NoRows(rows, keptUids);
    for i := 0 to |rows|
      invariant kept == RowsOf(rows[..i], keptUids)
    {
      NextRow(rows, keptUids, i);
      if rows[i].uid in keptUids {
        kept := kept + [rows[i]];
      }
    }
    assert rows[..|rows|] == rows;
    prompts := |keptUids|;
  }

  /** The ids of the prompts with deviating scores or a single answer. */
  method KeepUids<T>(order: seq<nat>, scores: map<nat, seq<real>>, ghost groups: seq<Group<T>>, ghost n: nat)
    returns (keptUids: seq<nat>)
    requires Generated(groups, n) && order == Uids(Flatten(groups))
    requires forall u :: u in order ==> u in scores && scores[u] == ScoresOf(Flatten(groups), u) && scores[u] != []
    ensures |keptUids| == |Kept(groups)|
    ensures forall j :: 0 <= j < |groups| ==> (groups[j][0].uid in keptUids <==> Useful(groups[j]))
  {
    UidsAreHeads(groups, n);
    keptUids := [];
    for i := 0 to |order|
      invariant KeptSoFar(groups, keptUids, i)
    {
      var vals := scores[order[i]];
      ScoresAreMetrics(groups, n, i);
      VarianceIff(vals);
      KeepNext(groups, n, keptUids, i);
      if Variance(vals) > 0.0 || |vals| == 1 {
        keptUids := keptUids + [order[i]];
      }
    }
    assert groups[..|groups|] == groups;
  }

  ghost predicate KeptSoFar<T>(groups: seq<Group<T>>, keptUids: seq<nat>, i: nat)
    requires i <= |groups| && forall j :: 0 <= j < |groups| ==> groups[j] != []
  {
    && |keptUids| == |Kept(groups[..i])|
    && forall j :: 0 <= j < |groups| ==> (groups[j][0].uid in keptUids <==> j < i && Useful(groups[j]))
  }

  lemma KeepNext<T>(groups: seq<Group<T>>, n: nat, keptUids: seq<nat>, i: nat)
    requires Generated(groups, n) && i < |groups| && KeptSoFar(groups, keptUids, i)
    ensures KeptSoFar(groups, if Useful(groups[i]) then keptUids + [groups[i][0].uid] else keptUids, i + 1)
  {
    assert groups[..i + 1][..i] == groups[..i];
  }

  method CollectScores<T>(rows: seq<Answer<T>>) returns (order: seq<nat>, scores: map<nat, seq<real>>)
    ensures order == Uids(rows)
    ensures forall u :: u in order <==> u in scores
    ensures forall u :: u in scores ==> scores[u] == ScoresOf(rows, u) && scores[u] != []
  {
    order, scores := [], map[];
    for i := 0 to |rows|
      invariant order == Uids(rows[..i])
      invariant forall u :: u in order <==> u in scores
      invariant forall u :: u in scores ==> scores[u] == ScoresOf(rows[..i], u) && scores[u] != []
      invariant forall u: nat :: u !in scores ==> ScoresOf(rows[..i], u) == []
    {
      var row := rows[i];
      assert rows[..i + 1][..i] == rows[..i];
      if row.uid in scores {
        scores := scores[row.uid := scores[row.uid] + [row.metric]];
      } else {
        order := order + [row.uid];
        scores := scores[row.uid := [row.metric]];
      }
    }
    assert rows[..|rows|] == rows;
  }

  // ----- accumulation -----

  datatype Outcome<+T> = KeepGenerating | TooManyGenerations | Train(batch: seq<Answer<T>>, generations: nat)

  /** `rows` is `count` whole groups of useful answers, one behind the other. */
  ghost predicate WholeGroups<T>(rows: seq<Answer<T>>, n: nat, count: nat) {
    |rows| == count * n && forall i :: 0 <= i < count ==> UsefulBlock(rows, n, i)
  }

  ghost predicate UsefulBlock<T>(rows: seq<Answer<T>>, n: nat, i: nat) {
    i * n + n <= |rows| && IsGroup(rows[i * n..i * n + n], n) && Useful(rows[i * n..i * n + n])
  }

  lemma GroupsAreWhole<T>(groups: seq<Group<T>>, n: nat)
    requires forall i :: 0 <= i < |groups| ==> IsGroup(groups[i], n) && Useful(groups[i])
    ensures WholeGroups(Flatten(groups), n, |groups|)
  {
    FlattenUniformLength(groups, n);
    forall i | 0 <= i < |groups| ensures UsefulBlock(Flatten(groups), n, i) {
      FlattenUniform(groups, n, i);
    }
  }

  lemma NoGroups<T>(n: nat)
    ensures WholeGroups<T>([], n, 0)
  {
  }

  lemma WholeGroupsJoin<T>(a: seq<Answer<T>>, x: nat, b: seq<Answer<T>>, y: nat, n: nat)
    requires WholeGroups(a, n, x) && WholeGroups(b, n, y)
    ensures WholeGroups(a + b, n, x + y)
  {
    assert (x + y) * n == x * n + y * n;
    forall i | 0 <= i < x + y ensures UsefulBlock(a + b, n, i) {
      if i < x {
        assert UsefulBlock(a, n, i);
        BlockOfFirst(a, b, n, i);
      } else {
        assert UsefulBlock(b, n, i - x);
        BlockOfSecond(a, x, b, n, i - x);
      }
    }
  }

  lemma BlockOfFirst<T>(a: seq<Answer<T>>, b: seq<Answer<T>>, n: nat, i: nat)
    requires UsefulBlock(a, n, i)
    ensures UsefulBlock(a + b, n, i)
  {
    assert (a + b)[i * n..i * n + n] == a[i * n..i * n + n];
  }

  lemma BlockOfSecond<T>(a: seq<Answer<T>>, x: nat, b: seq<Answer<T>>, n: nat, k: nat)
    requires |a| == x * n && UsefulBlock(b, n, k)
    ensures UsefulBlock(a + b, n, x + k)
  {
    assert (x + k) * n == x * n + k * n;
    assert (a + b)[|a| + k * n..|a| + k * n + n] == b[k * n..k * n + n];
  }

  lemma WholeGroupsPrefix<T>(a: seq<Answer<T>>, x: nat, y: nat, n: nat)
    requires WholeGroups(a, n, x) && y <= x
    ensures y * n <= |a| && WholeGroups(a[..y * n], n, y)
  {
    MulOrder(y, x, n);
    forall i | 0 <= i < y ensures UsefulBlock(a[..y * n], n, i) {
      assert UsefulBlock(a, n, i);
      BlockBounds(i, y, n);
      assert a[..y * n][i * n..i * n + n] == a[i * n..i * n + n];
    }
  }

  // ----- which batches are trained on -----

  /** The useful groups of several generations, in order. */
  function KeptIn<T>(generations: seq<seq<Group<T>>>): seq<Group<T>> {
    if generations == [] then []
    else KeptIn(generations[..|generations| - 1]) + Kept(generations[|generations| - 1])
  }

  /** `batch` is what the `count` generations from `from` on give: the first
      `size` useful groups, of which there are enough only with the last of
      these generations. */
  ghost predicate BatchFrom<T>(groups: seq<seq<Group<T>>>, batch: seq<Answer<T>>, from: nat, count: nat, n: nat, size: nat) {
    && count > 0 && from + count <= |groups|
    && |KeptIn(groups[from..from + count - 1])| < size <= |KeptIn(groups[from..from + count])|
    && size * n <= |Flatten(KeptIn(groups[from..from + count]))|
    && batch == Flatten(KeptIn(groups[from..from + count]))[..size * n]
  }

  /** Each batch comes from the generations behind those of the one before. */
  ghost predicate TrainedOn<T>(groups: seq<seq<Group<T>>>, trained: seq<seq<Answer<T>>>, generations: seq<nat>, n: nat, size: nat) {
    && |trained| == |generations|
    && forall i :: 0 <= i < |trained| ==> BatchFrom(groups, trained[i], SumNat(generations[..i]), generations[i], n, size)
  }

  lemma KeptInNext<T>(groups: seq<seq<Group<T>>>, from: nat, i: nat)
    requires from <= i < |groups|
    ensures KeptIn(groups[from..i + 1]) == KeptIn(groups[from..i]) + Kept(groups[i])
    ensures Flatten(KeptIn(groups[from..i + 1])) == Flatten(KeptIn(groups[from..i])) + Flatten(Kept(groups[i]))
  {
    assert groups[from..i + 1][..i - from] == groups[from..i];
    FlattenConcat(KeptIn(groups[from..i]), Kept(groups[i]));
  }

  /** `rows` are the `count` useful groups of the `gens` generations from `from`
      up to `to`. */
  ghost predicate IsPending<T>(groups: seq<seq<Group<T>>>, from: nat, to: nat, rows: seq<Answer<T>>, count: nat, gens: nat) {
    && from <= to <= |groups| && gens == to - from
    && rows == Flatten(KeptIn(groups[from..to])) && count == |KeptIn(groups[from..to])|
  }

  lemma PendingSum<T>(groups: seq<seq<Group<T>>>, from: nat, to: nat, rows: seq<Answer<T>>, count: nat, gens: nat)
    requires IsPending(groups, from, to, rows, count, gens)
    ensures from <= to <= |groups| && to == from + gens && count == |KeptIn(groups[from..to])|
  {
    hide KeptIn, Flatten;
  }

  lemma NothingPending<T>(groups: seq<seq<Group<T>>>, i: nat)
    requires i <= |groups|
    ensures IsPending(groups, i, i, [], 0, 0)
  {
  }

  /** Another generation's useful groups join the pending ones. */
  lemma MorePending<T>(groups: seq<seq<Group<T>>>, from: nat, i: nat, rows: seq<Answer<T>>, count: nat, gens: nat)
    requires IsPending(groups, from, i, rows, count, gens) && i < |groups|
    ensures IsPending(groups, from, i + 1, rows + Flatten(Kept(groups[i])), count + |Kept(groups[i])|, gens + 1)
  {
    hide KeptIn, Kept, Flatten;
    KeptInNext(groups, from, i);
  }

  lemma CutPending<T>(groups: seq<seq<Group<T>>>, from: nat, i: nat, rows: seq<Answer<T>>, count: nat, gens: nat,
                      all: seq<Answer<T>>, prompts: nat, n: nat, size: nat, cut: nat)
    requires IsPending(groups, from, i, rows, count, gens) && count < size
    requires IsPending(groups, from, i + 1, all, prompts, gens + 1) && size <= prompts && size * n == cut <= |all|
    ensures BatchFrom(groups, all[..cut], from, gens + 1, n, size)
  {
    hide KeptIn, Flatten;
  }

  lemma NothingTrained<T>(groups: seq<seq<Group<T>>>, n: nat, size: nat)
    ensures TrainedOn(groups, [], [], n, size) && SumNat([]) == 0
  {
  }

  lemma TrainedNext<T>(groups: seq<seq<Group<T>>>, trained: seq<seq<Answer<T>>>, generations: seq<nat>, batch: seq<Answer<T>>,
                       count: nat, n: nat, size: nat)
    requires TrainedOn(groups, trained, generations, n, size)
    requires BatchFrom(groups, batch, SumNat(generations), count, n, size)
    ensures TrainedOn(groups, trained + [batch], generations + [count], n, size)
    ensures SumNat(generations + [count]) == SumNat(generations) + count
  {
    hide BatchFrom;
    var next := generations + [count];
    SumNatConcat(generations, [count]);
    forall i | 0 <= i < |next| ensures BatchFrom(groups, (trained + [batch])[i], SumNat(next[..i]), next[i], n, size) {
      assert next[..i] == generations[..i];
      assert generations[..|generations|] == generations;
    }
  }

  class Trainer<T> {
    const n: nat
    const trainBatchSize: nat
    const maxNumGenBatches: int
    const filtering: bool

    var batch: Option<seq<Answer<T>>>
    var numPromptInBatch: nat
    var numGenBatches: nat
    var genSteps: nat

    /** Between iterations: whole useful groups, not yet enough of them, and
        room under a positive cap for another generation. */
    ghost predicate Valid()
      reads this
    {
      && n > 0 && trainBatchSize > 0
      && numPromptInBatch < trainBatchSize
      && WholeGroups(Pending(), n, numPromptInBatch)
      && (maxNumGenBatches > 0 ==> numGenBatches < maxNumGenBatches)
    }

    function Pending(): seq<Answer<T>>
      reads this
    {
      if batch.Some? then batch.value else []
    }

    constructor (n: nat, trainBatchSize: nat, maxNumGenBatches: int, filtering: bool, genSteps: nat)
      requires n > 0 && trainBatchSize > 0
      ensures Valid() && Pending() == [] && numGenBatches == 0 && this.genSteps == genSteps + 1
      ensures this.n == n && this.trainBatchSize == trainBatchSize
      ensures this.maxNumGenBatches == maxNumGenBatches && this.filtering == filtering
    {
      this.n, this.trainBatchSize, this.maxNumGenBatches, this.filtering := n, trainBatchSize, maxNumGenBatches, filtering;
      batch, numPromptInBatch, numGenBatches, this.genSteps := None, 0, 0, genSteps + 1;
    }

    /** One generated batch: it is trained on as it is, or its useful groups
        join the pending ones, of which the first `trainBatchSize` are trained
        on as soon as there are so many. */
    method Iterate(rows: seq<Answer<T>>, ghost groups: seq<Group<T>>) returns (r: Outcome<T>)
      requires Valid() && Generated(groups, n) && rows == Flatten(groups)
      modifies this
      ensures !filtering ==> r.Train? && r.batch == rows
      ensures r.Train? ==> r.generations == old(numGenBatches) + 1 && (maxNumGenBatches > 0 ==> r.generations <= maxNumGenBatches)
      ensures filtering ==>
        var all := old(Pending()) + Flatten(Kept(groups));
        var prompts := old(numPromptInBatch) + |Kept(groups)|;
        if prompts >= trainBatchSize then
          trainBatchSize * n <= |all| && r.Train? && r.batch == all[..trainBatchSize * n] && WholeGroups(r.batch, n, trainBatchSize)
        else if maxNumGenBatches > 0 && old(numGenBatches) + 1 >= maxNumGenBatches then r == TooManyGenerations
        else r == KeepGenerating && Pending() == all && numPromptInBatch == prompts && numGenBatches == old(numGenBatches) + 1
      ensures !r.TooManyGenerations? ==> Valid() && genSteps == old(genSteps) + 1
      ensures r.Train? ==> batch == None && numPromptInBatch == 0 && numGenBatches == 0
    {
      hide WholeGroups, Generated, Kept, Flatten;
      NoGroups<T>(n);
      numGenBatches := numGenBatches + 1;
      if !filtering {
        batch := Some(rows);
      } else {
        Accumulate(rows, groups);
        if numPromptInBatch < trainBatchSize {
          if maxNumGenBatches <= 0 || numGenBatches < maxNumGenBatches {
            genSteps := genSteps + 1;
            return KeepGenerating;
          } else {
            return TooManyGenerations;
          }
        }
        WholeGroupsPrefix(batch.value, numPromptInBatch, trainBatchSize, n);
        batch := Some(batch.value[..trainBatchSize * n]);
      }
      r := Train(batch.value, numGenBatches);
      batch, numPromptInBatch, numGenBatches := None, 0, 0;
      genSteps := genSteps + 1;
    }

    /** The useful groups join the pending ones. */
    method Accumulate(rows: seq<Answer<T>>, ghost groups: seq<Group<T>>)
      requires Generated(groups, n) && rows == Flatten(groups) && WholeGroups(Pending(), n, numPromptInBatch)
      modifies this`batch, this`numPromptInBatch
      ensures batch == Some(old(Pending()) + Flatten(Kept(groups)))
      ensures numPromptInBatch == old(numPromptInBatch) + |Kept(groups)|
      ensures WholeGroups(batch.value, n, numPromptInBatch)
    {
      var kept, prompts := FilterGroups(rows, groups, n);
      KeptAreGroups(groups, n);
      GroupsAreWhole(Kept(groups), n);
      WholeGroupsJoin(Pending(), numPromptInBatch, kept, prompts, n);
      numPromptInBatch := numPromptInBatch + prompts;
      assert [] + kept == kept;
      batch := if batch.None? then Some(kept) else Some(batch.value + kept);
    }

    /** Nothing is pending. */
    ghost predicate Fresh()
      reads this
    {
      batch == None && numPromptInBatch == 0 && numGenBatches == 0
    }

    /** The generations from `from` up to `to` are pending. */
    ghost predicate PendingFrom(groups: seq<seq<Group<T>>>, from: nat, to: nat)
      reads this
    {
      from <= to && IsPending(groups, from, to, Pending(), numPromptInBatch, numGenBatches)
    }

    lemma FreshIsPending(groups: seq<seq<Group<T>>>, i: nat)
      requires batch == None && numPromptInBatch == 0 && numGenBatches == 0 && i <= |groups|
      ensures PendingFrom(groups, i, i)
    {
      hide IsPending;
      NothingPending(groups, i);
    }

    lemma FreshState()
      requires Fresh()
      ensures batch == None && numPromptInBatch == 0 && numGenBatches == 0
    {
    }

    /** What an iteration makes of the pending rows. */
    lemma AfterIteration(groups: seq<seq<Group<T>>>, trained: seq<seq<Answer<T>>>, generations: seq<nat>, i: nat,
                         pending: seq<Answer<T>>, count: nat, gens: nat, cut: nat, r: Outcome<T>)
      requires i < |groups| && TrainedOn(groups, trained, generations, n, trainBatchSize)
      requires IsPending(groups, SumNat(generations), i, pending, count, gens)
      requires count < trainBatchSize && (maxNumGenBatches > 0 ==> gens < maxNumGenBatches)
      requires
        var all := pending + Flatten(Kept(groups[i]));
        var prompts := count + |Kept(groups[i])|;
        if prompts >= trainBatchSize then
          && trainBatchSize * n == cut <= |all| && r == Train(all[..cut], gens + 1)
          && batch == None && numPromptInBatch == 0 && numGenBatches == 0
        else if maxNumGenBatches > 0 && gens + 1 >= maxNumGenBatches then r == TooManyGenerations
        else r == KeepGenerating && Pending() == all && numPromptInBatch == prompts && numGenBatches == gens + 1
      ensures r.KeepGenerating? ==> PendingFrom(groups, SumNat(generations), i + 1)
      ensures r.Train? ==>
        && TrainedOn(groups, trained + [r.batch], generations + [r.generations], n, trainBatchSize)
        && PendingFrom(groups, SumNat(generations + [r.generations]), i + 1)
      ensures r.TooManyGenerations? ==>
        var used := SumNat(generations);
        && 0 < maxNumGenBatches && used + maxNumGenBatches <= |groups|
        && |KeptIn(groups[used..used + maxNumGenBatches])| < trainBatchSize
    {
      hide *;
      var used := SumNat(generations);
      var all, prompts := pending + Flatten(Kept(groups[i])), count + |Kept(groups[i])|;
      MorePending(groups, used, i, pending, count, gens);
      if prompts >= trainBatchSize {
        CutPending(groups, used, i, pending, count, gens, all, prompts, n, trainBatchSize, cut);
        TrainedNext(groups, trained, generations, r.batch, gens + 1, n, trainBatchSize);
        PendingSum(groups, used, i + 1, all, prompts, gens + 1);
        FreshIsPending(groups, i + 1);
      } else if r.KeepGenerating? {
        PendingNow(groups, used, i + 1);
      } else {
        PendingSum(groups, used, i + 1, all, prompts, gens + 1);
      }
    }

    lemma PendingNow(groups: seq<seq<Group<T>>>, from: nat, to: nat)
      requires IsPending(groups, from, to, Pending(), numPromptInBatch, numGenBatches)
      ensures PendingFrom(groups, from, to)
    {
      hide IsPending;
      PendingSum(groups, from, to, Pending(), numPromptInBatch, numGenBatches);
    }

    lemma PendingIs(groups: seq<seq<Group<T>>>, from: nat, to: nat)
      requires PendingFrom(groups, from, to)
      ensures IsPending(groups, from, to, Pending(), numPromptInBatch, numGenBatches)
    {
    }

    lemma Room()
      requires Valid()
      ensures numPromptInBatch < trainBatchSize && (maxNumGenBatches > 0 ==> numGenBatches < maxNumGenBatches)
    {
    }

    /** The loop over generated batches. With filtering, every batch trained on
        is `trainBatchSize` whole useful groups, and a positive cap bounds the
        generations behind each. Starting with nothing pending, the useful groups are cut
        whenever a generation makes them enough; too few useful groups in as
        many generations as the cap allows are an error. Without filtering,
        every generation is a batch. */
    method Fit(generated: seq<seq<Answer<T>>>, ghost groups: seq<seq<Group<T>>>)
      returns (trained: seq<seq<Answer<T>>>, generations: seq<nat>, failed: bool)
      requires Valid() && |groups| == |generated|
      requires forall i :: 0 <= i < |generated| ==> Generated(groups[i], n) && generated[i] == Flatten(groups[i])
      modifies this
      ensures |trained| == |generations|
      ensures filtering ==> forall i :: 0 <= i < |trained| ==> WholeGroups(trained[i], n, trainBatchSize)
      ensures maxNumGenBatches > 0 ==> forall i :: 0 <= i < |generations| ==> generations[i] <= maxNumGenBatches
      ensures !failed ==> Valid() && genSteps == old(genSteps) + |generated|
      ensures !filtering ==> !failed && trained == generated
      ensures filtering && old(Fresh()) ==>
        var used := SumNat(generations);
        && TrainedOn(groups, trained, generations, n, trainBatchSize)
        && (!failed ==> PendingFrom(groups, used, |groups|))
        && (failed ==>
             && 0 < maxNumGenBatches && used + maxNumGenBatches <= |groups|
             && |KeptIn(groups[used..used + maxNumGenBatches])| < trainBatchSize)
    {
      hide *;
      trained, generations, failed := [], [], false;
      ghost var tracked := filtering && Fresh();
      if tracked {
        FreshState();
        FreshIsPending(groups, 0);
        NothingTrained(groups, n, trainBatchSize);
      }
      for i := 0 to |generated|
        invariant Valid() && genSteps == old(genSteps) + i && |trained| == |generations|
        invariant filtering ==> forall j :: 0 <= j < |trained| ==> WholeGroups(trained[j], n, trainBatchSize)
        invariant maxNumGenBatches > 0 ==> forall j :: 0 <= j < |generations| ==> generations[j] <= maxNumGenBatches
        invariant !filtering ==> trained == generated[..i]
        invariant tracked ==> TrainedOn(groups, trained, generations, n, trainBatchSize)
        invariant tracked ==> PendingFrom(groups, SumNat(generations), i)
      {
        ghost var pending, count, gens := Pending(), numPromptInBatch, numGenBatches;
        Room();
        if tracked {
          PendingIs(groups, SumNat(generations), i);
        }
        var r := Iterate(generated[i], groups[i]);
        if tracked {
          AfterIteration(groups, trained, generations, i, pending, count, gens, trainBatchSize * n, r);
        }
        if r.TooManyGenerations? {
          failed := true;
          return;
        }
        if r.Train? {
          trained, generations := trained + [r.batch], generations + [r.generations];
        }
      }
    }
  }
}
