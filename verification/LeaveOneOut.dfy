/** Leave-one-out baselines: the loop that groups scores in a dictionary and
    overwrites them in place, and the vectorised form that bins by code. */
module LeaveOneOut {
  import opened Sequences

  /** The positions below `n` whose prompt is `u`, in order. */
  function Positions<T(==)>(index: seq<T>, u: T, n: nat): (p: seq<nat>)
    requires n <= |index|
    ensures forall j :: 0 <= j < |p| ==> p[j] < n && index[p[j]] == u
  {
    if n == 0 then [] else Positions(index, u, n - 1) + (if index[n - 1] == u then [n - 1] else [])
  }

  function Group<T(==)>(index: seq<T>, u: T): (p: seq<nat>)
    ensures forall j :: 0 <= j < |p| ==> p[j] < |index| && index[p[j]] == u
  {
    Positions(index, u, |index|)
  }

  function SumAt(s: seq<real>, p: seq<nat>): real
    requires forall j :: 0 <= j < |p| ==> p[j] < |s|
  {
    if p == [] then 0.0 else s[p[0]] + SumAt(s, p[1..])
  }

  /** The positions of the other members of `i`'s group. */
  ghost function Others<T>(index: seq<T>, i: nat, n: nat): (p: seq<nat>)
    requires i < |index| && n <= |index|
    ensures forall j :: 0 <= j < |p| ==> p[j] < |index|
  {
    if n == 0 then []
    else Others(index, i, n - 1) + (if index[n - 1] == index[i] && n - 1 != i then [n - 1] else [])
  }

  /** What the estimator is for: the score minus the mean of the other
      members' scores; a lone member keeps its score. */
  ghost function LeaveOneOut<T>(s: seq<real>, index: seq<T>, i: nat): real
    requires |s| == |index| && i < |s|
  {
    var others := Others(index, i, |index|);
    if others == [] then s[i] else s[i] - SumAt(s, others) / |others| as real
  }

  lemma {:induction false} SumAtAppend(s: seq<real>, p: seq<nat>, x: nat)
    requires forall j :: 0 <= j < |p| ==> p[j] < |s|
    requires x < |s|
    ensures SumAt(s, p + [x]) == SumAt(s, p) + s[x]
  {
    if p == [] {
      assert p + [x] == [x];
    } else {
      assert (p + [x])[1..] == p[1..] + [x];
      SumAtAppend(s, p[1..], x);
    }
  }

  /** Taking one member out of its group removes one position and its score. */
  lemma {:induction false} GroupAndOthers<T>(s: seq<real>, index: seq<T>, i: nat, n: nat)
    requires |s| == |index| && i < |s| && n <= |s|
    ensures |Positions(index, index[i], n)| == |Others(index, i, n)| + (if i < n then 1 else 0)
    ensures SumAt(s, Positions(index, index[i], n)) == SumAt(s, Others(index, i, n)) + (if i < n then s[i] else 0.0)
    decreases n
  {
    if n > 0 {
      GroupAndOthers(s, index, i, n - 1);
      assert Positions(index, index[i], n - 1) + [] == Positions(index, index[i], n - 1);
      assert Others(index, i, n - 1) + [] == Others(index, i, n - 1);
      if index[n - 1] == index[i] {
        SumAtAppend(s, Positions(index, index[i], n - 1), n - 1);
        if n - 1 != i {
          SumAtAppend(s, Others(index, i, n - 1), n - 1);
        }
      }
    }
  }

  // ----- the loop form -----

  /** The first loop: which rows belong to which prompt. The entries are views
      into the score vector, so rows are kept, not values. */
  method GroupRowsByPrompt<T(==, !new)>(index: seq<T>) returns (id2score: map<T, seq<nat>>)
    ensures forall u :: u in id2score <==> u in index
    ensures forall u :: u in id2score ==> id2score[u] == Group(index, u)
  {
    hide *;
    id2score := map[];
    NoGroups(index);
    for i := 0 to |index|
      invariant GroupedUpTo(index, i, id2score)
    {
      var u := index[i];
      var seen := if u in id2score then id2score[u] else [];
      GroupedStep(index, i, id2score);
      id2score := id2score[u := seen + [i]];
    }
    AllGrouped(index, id2score);
  }

  /** The dictionary after the first `i` rows. */
  ghost predicate GroupedUpTo<T(!new)>(index: seq<T>, i: nat, m: map<T, seq<nat>>)
    requires i <= |index|
  {
    && (forall u :: u in m <==> u in index[..i])
    && (forall u :: u in m ==> m[u] == Positions(index, u, i))
    && (forall u :: u !in index[..i] ==> Positions(index, u, i) == [])
  }

  lemma NoGroups<T(!new)>(index: seq<T>)
    ensures GroupedUpTo(index, 0, map[])
  {
  }

  lemma AllGrouped<T(!new)>(index: seq<T>, m: map<T, seq<nat>>)
    requires GroupedUpTo(index, |index|, m)
    ensures forall u :: u in m <==> u in index
    ensures forall u :: u in m ==> m[u] == Group(index, u)
  {
    assert index[..|index|] == index;
  }

  lemma GroupedStep<T(!new)>(index: seq<T>, i: nat, m: map<T, seq<nat>>)
    requires i < |index| && GroupedUpTo(index, i, m)
    ensures GroupedUpTo(index, i + 1, m[index[i] := (if index[i] in m then m[index[i]] else []) + [i]])
  {
    hide Positions;
    assert index[..i + 1] == index[..i] + [index[i]];
    forall u ensures Positions(index, u, i + 1) == if index[i] == u then Positions(index, u, i) + [i] else Positions(index, u, i) {
      NextPosition(index, u, i);
    }
  }

  lemma NextPosition<T>(index: seq<T>, u: T, i: nat)
    requires i < |index|
    ensures Positions(index, u, i + 1) == if index[i] == u then Positions(index, u, i) + [i] else Positions(index, u, i)
  {
  }

  function MeanAt(s: seq<real>, p: seq<nat>): real
    requires forall j :: 0 <= j < |p| ==> p[j] < |s|
  {
    if |p| <= 1 then 0.0 else SumAt(s, p) / |p| as real
  }

  method GroupMeans<T(==)>(s: seq<real>, index: seq<T>, id2score: map<T, seq<nat>>) returns (id2mean: map<T, real>)
    requires |s| == |index|
    requires forall u :: u in id2score ==> id2score[u] == Group(index, u)
    ensures id2mean.Keys == id2score.Keys
    ensures forall u :: u in id2mean ==> id2mean[u] == MeanAt(s, Group(index, u))
  {
    id2mean := map[];
    var todo := id2score.Keys;
    while todo != {}
      invariant todo <= id2score.Keys && id2mean.Keys == id2score.Keys - todo
      invariant forall u :: u in id2mean ==> id2mean[u] == MeanAt(s, Group(index, u))
      decreases todo
    {
      var u :| u in todo;
      id2mean := id2mean[u := MeanAt(s, id2score[u])];
      todo := todo - {u};
    }
  }

  function Rescaled(x: real, mean: real, n: nat): real
    requires n > 1
  {
    x * n as real / (n - 1) as real - mean * n as real / (n - 1) as real
  }

  /** The in-place loop leaves every row at its leave-one-out value. */
  method ComputeRlooOutcomeAdvantage<T(==, !new)>(scores: array<real>, index: seq<T>)
    requires scores.Length == |index|
    modifies scores
    ensures forall i :: 0 <= i < |index| ==> scores[i] == LeaveOneOut(old(scores[..]), index, i)
  {
    ghost var s := scores[..];
    var id2score := GroupRowsByPrompt(index);
    var id2mean := GroupMeans(scores[..], index, id2score);
    for i := 0 to |index|
      invariant forall j :: 0 <= j < i ==> scores[j] == LeaveOneOut(s, index, j)
      invariant forall j :: i <= j < |index| ==> scores[j] == s[j]
    {
      var n := |id2score[index[i]]|;
      LoopStep(s, index, i);
      if n > 1 {
        scores[i] := Rescaled(scores[i], id2mean[index[i]], n);
      }
    }
  }

  lemma LoopStep<T>(s: seq<real>, index: seq<T>, i: nat)
    requires |s| == |index| && i < |s|
    ensures |Group(index, index[i])| >= 1
    ensures var n := |Group(index, index[i])|;
            LeaveOneOut(s, index, i) ==
              if n > 1 then Rescaled(s[i], MeanAt(s, Group(index, index[i])), n)
              else s[i]
  {
    hide *;
    LeaveOneOutIs(s, index, i);
    var n := |Group(index, index[i])|;
    if n > 1 {
      RescaledMean(s, Group(index, index[i]), s[i]);
      LooAlgebra(s[i], SumAt(s, Others(index, i, |index|)), SumAt(s, Group(index, index[i])), n as real);
    }
  }

  /** A score less the mean of `n - 1` others. */
  function Baselined(x: real, others: real, n: real): real
    requires n != 1.0
  {
    x - others / (n - 1.0)
  }

  /** A score and the mean of all `n`, both scaled up. */
  function RescaledBy(x: real, total: real, n: real): real
    requires n != 0.0 && n != 1.0
  {
    x * n / (n - 1.0) - (total / n) * n / (n - 1.0)
  }

  /** The numerator of the vectorised form over its denominator. */
  function Vectorised(x: real, total: real, n: real): real
    requires n != 1.0
  {
    (n * x - total) / (n - 1.0)
  }

  /** The estimate in terms of the sum over the other members. */
  lemma LeaveOneOutIs<T>(s: seq<real>, index: seq<T>, i: nat)
    requires |s| == |index| && i < |s|
    ensures |Group(index, index[i])| >= 1
    ensures var n, o := |Group(index, index[i])|, SumAt(s, Others(index, i, |index|));
            && SumAt(s, Group(index, index[i])) == o + s[i]
            && LeaveOneOut(s, index, i) == if n > 1 then Baselined(s[i], o, n as real) else s[i]
  {
    hide *;
    GroupAndOthers(s, index, i, |index|);
    GroupIs(index, index[i]);
    LeaveOneOutBase(s, index, i);
  }

  lemma LeaveOneOutBase<T>(s: seq<real>, index: seq<T>, i: nat)
    requires |s| == |index| && i < |s|
    ensures var others := Others(index, i, |index|);
            LeaveOneOut(s, index, i) == if |others| == 0 then s[i] else Baselined(s[i], SumAt(s, others), (|others| + 1) as real)
  {
    hide SumAt, Others;
  }

  lemma RescaledMean(s: seq<real>, p: seq<nat>, x: real)
    requires |p| > 1 && forall j :: 0 <= j < |p| ==> p[j] < |s|
    ensures var n := |p| as real;
            Rescaled(x, MeanAt(s, p), |p|) == RescaledBy(x, SumAt(s, p), n)
  {
    hide SumAt;
  }

  /** `x - o / (n - 1)` is `x * n / (n - 1)` minus the scaled mean of all. */
  lemma LooAlgebra(x: real, o: real, t: real, n: real)
    requires n > 1.0 && t == o + x
    ensures Baselined(x, o, n) == RescaledBy(x, t, n)
  {
    assert (t / n) * n == t;
    var d := n - 1.0;
    assert x * n == x * d + x;
    assert (x * d + x) / d == x + x / d;
    assert t / d == o / d + x / d;
  }

  // ----- what the estimator promises -----

  lemma {:induction false} SumAtMinus(s: seq<real>, t: seq<real>, d: seq<real>, p: seq<nat>)
    requires |s| == |t| == |d|
    requires forall j :: 0 <= j < |p| ==> p[j] < |s| && d[p[j]] == s[p[j]] - t[p[j]]
    ensures SumAt(d, p) == SumAt(s, p) - SumAt(t, p)
  {
    if p != [] {
      SumAtMinus(s, t, d, p[1..]);
    }
  }

  lemma {:induction false} SumAtQuotient(s: seq<real>, q: seq<real>, m: real, p: seq<nat>)
    requires m != 0.0 && |s| == |q|
    requires forall j :: 0 <= j < |p| ==> p[j] < |s| && q[p[j]] == s[p[j]] / m
    ensures SumAt(q, p) == SumAt(s, p) / m
  {
    if p != [] {
      SumAtQuotient(s, q, m, p[1..]);
      DivideSum(s[p[0]], SumAt(s, p[1..]), m);
    }
  }

  lemma {:induction false} SumAtConstant(s: seq<real>, c: real, p: seq<nat>)
    requires forall j :: 0 <= j < |p| ==> p[j] < |s| && s[p[j]] == c
    ensures SumAt(s, p) == Times(|p|, c)
  {
    if p != [] {
      SumAtConstant(s, c, p[1..]);
    }
  }

  /** The scores of the other members, row by row, and their means. */
  ghost function Rest(s: seq<real>, total: real): (r: seq<real>)
    ensures |r| == |s| && forall i :: 0 <= i < |s| ==> r[i] == total - s[i]
  {
    seq(|s|, i requires 0 <= i < |s| => total - s[i])
  }

  ghost function Scaled(s: seq<real>, m: real): (r: seq<real>)
    requires m != 0.0
    ensures |r| == |s| && forall i :: 0 <= i < |s| ==> r[i] == s[i] / m
  {
    seq(|s|, i requires 0 <= i < |s| => s[i] / m)
  }

  lemma EntryIs<T>(s: seq<real>, index: seq<T>, i: nat, total: real, m: nat)
    requires |s| == |index| && i < |s|
    requires m == |Group(index, index[i])| - 1 && m >= 1
    requires total == SumAt(s, Group(index, index[i]))
    ensures LeaveOneOut(s, index, i) == s[i] - (total - s[i]) / m as real
  {
    GroupAndOthers(s, index, i, |index|);
    assert SumAt(s, Others(index, i, |index|)) == total - s[i];
  }

  /** Over a whole group the means of the others add up to the scores. */
  lemma MeansOfOthers(s: seq<real>, p: seq<nat>, m: nat)
    requires forall j :: 0 <= j < |p| ==> p[j] < |s|
    requires m >= 1 && |p| == m + 1
    ensures SumAt(Scaled(Rest(s, SumAt(s, p)), m as real), p) == SumAt(s, p)
  {
    var total := SumAt(s, p);
    var rest := Rest(s, total);
    var constant := seq(|s|, _ => total);
    SumAtMinus(constant, s, rest, p);
    SumAtConstant(constant, total, p);
    SumAtQuotient(rest, Scaled(rest, m as real), m as real, p);
    TimesIsProduct(m, total);
  }

  /** The advantages of a group of at least two sum to zero. */
  lemma GroupSumsToZero<T>(s: seq<real>, index: seq<T>, u: T, adv: seq<real>)
    requires |s| == |adv| == |index| && |Group(index, u)| > 1
    requires forall i :: 0 <= i < |s| ==> adv[i] == LeaveOneOut(s, index, i)
    ensures SumAt(adv, Group(index, u)) == 0.0
  {
    var p := Group(index, u);
    var m := |p| - 1;
    var means := Scaled(Rest(s, SumAt(s, p)), m as real);
    forall j | 0 <= j < |p| ensures adv[p[j]] == s[p[j]] - means[p[j]] {
      EntryIs(s, index, p[j], SumAt(s, p), m);
    }
    SumAtMinus(s, means, adv, p);
    MeansOfOthers(s, p, m);
  }

  /** `k` times `c`, by repeated addition. */
  ghost function Times(k: nat, c: real): real {
    if k == 0 then 0.0 else c + Times(k - 1, c)
  }

  lemma {:induction false} TimesIsProduct(k: nat, c: real)
    ensures Times(k, c) == k as real * c
  {
    if k > 0 {
      TimesIsProduct(k - 1, c);
      assert k as real * c == c + (k - 1) as real * c;
    }
  }

  lemma {:induction false} ShiftedSum(s: seq<real>, t: seq<real>, c: real, p: seq<nat>)
    requires |s| == |t| && forall j :: 0 <= j < |p| ==> p[j] < |s| && t[p[j]] == s[p[j]] + c
    ensures SumAt(t, p) == SumAt(s, p) + Times(|p|, c)
  {
    if p != [] {
      ShiftedSum(s, t, c, p[1..]);
    }
  }

  lemma {:induction false} OthersShareGroup<T>(index: seq<T>, i: nat, n: nat)
    requires i < |index| && n <= |index|
    ensures forall j :: 0 <= j < |Others(index, i, n)| ==> index[Others(index, i, n)[j]] == index[i]
    decreases n
  {
    if n > 0 {
      OthersShareGroup(index, i, n - 1);
    }
  }

  lemma ShiftedMean(a: real, k: nat, c: real)
    requires k > 0
    ensures (a + Times(k, c)) / k as real == a / k as real + c
  {
    TimesIsProduct(k, c);
  }

  /** Raising a whole group's scores by one amount changes no advantage in a
      group of at least two, and raises a lone member's by that amount. */
  lemma ShiftedScores<T>(s: seq<real>, t: seq<real>, index: seq<T>, c: real, i: nat)
    requires |s| == |t| == |index| && i < |s|
    requires forall j :: 0 <= j < |s| && index[j] == index[i] ==> t[j] == s[j] + c
    ensures LeaveOneOut(t, index, i) == LeaveOneOut(s, index, i) + (if |Group(index, index[i])| > 1 then 0.0 else c)
  {
    GroupAndOthers(s, index, i, |index|);
    var others := Others(index, i, |index|);
    if others != [] {
      ShiftedOthers(s, t, index, c, i);
      ShiftedMean(SumAt(s, others), |others|, c);
    }
  }

  lemma ShiftedOthers<T>(s: seq<real>, t: seq<real>, index: seq<T>, c: real, i: nat)
    requires |s| == |t| == |index| && i < |s|
    requires forall j :: 0 <= j < |s| && index[j] == index[i] ==> t[j] == s[j] + c
    ensures SumAt(t, Others(index, i, |index|)) == SumAt(s, Others(index, i, |index|)) + Times(|Others(index, i, |index|)|, c)
  {
    OthersShareGroup(index, i, |index|);
    ShiftedSum(s, t, c, Others(index, i, |index|));
  }

  // ----- the vectorised form -----

  /** `inv` are the codes of the distinct prompts. */
  ghost predicate InverseCodes<T>(inv: seq<nat>, index: seq<T>) {
    |inv| == |index| && forall i, j :: 0 <= i < |inv| && 0 <= j < |inv| ==> (inv[i] == inv[j] <==> index[i] == index[j])
  }

  /** Bin `c` of a weighted count over the first `n` entries. */
  function BinSum(inv: seq<nat>, weights: seq<real>, c: nat, n: nat): real
    requires |inv| == |weights| && n <= |inv|
  {
    if n == 0 then 0.0 else BinSum(inv, weights, c, n - 1) + (if inv[n - 1] == c then weights[n - 1] else 0.0)
  }

  function Ones(n: nat): (r: seq<real>)
    ensures |r| == n && forall i :: 0 <= i < n ==> r[i] == 1.0
  {
    seq(n, _ => 1.0)
  }

  function VectorisedEntry(s: seq<real>, inv: seq<nat>, i: nat): real
    requires |s| == |inv| && i < |s|
  {
    var c := BinSum(inv, Ones(|inv|), inv[i], |inv|);
    var total := BinSum(inv, s, inv[i], |inv|);
    ((c * s[i] - total) / (if c - 1.0 < 1.0 then 1.0 else c - 1.0)) * (if c > 1.0 then 1.0 else 0.0)
  }

  /** The row-by-row reading of the vectorised expression. */
  function ComputeRlooVectorized(s: seq<real>, inv: seq<nat>): (adv: seq<real>)
    requires |s| == |inv|
    ensures |adv| == |s|
  {
    seq(|s|, i requires 0 <= i < |s| => VectorisedEntry(s, inv, i))
  }

  lemma {:induction false} BinsAreGroups<T>(s: seq<real>, index: seq<T>, inv: seq<nat>, i: nat, n: nat)
    requires |s| == |index| && InverseCodes(inv, index) && i < |s| && n <= |s|
    ensures BinSum(inv, s, inv[i], n) == SumAt(s, Positions(index, index[i], n))
    ensures BinSum(inv, Ones(|inv|), inv[i], n) == |Positions(index, index[i], n)| as real
    decreases n
  {
    if n > 0 {
      BinsAreGroups(s, index, inv, i, n - 1);
      assert inv[n - 1] == inv[i] <==> index[n - 1] == index[i];
      if index[n - 1] == index[i] {
        SumAtAppend(s, Positions(index, index[i], n - 1), n - 1);
      } else {
        assert Positions(index, index[i], n - 1) + [] == Positions(index, index[i], n - 1);
      }
    }
  }

  lemma VectorisedAlgebra(x: real, o: real, t: real, c: real)
    requires c > 1.0 && t == o + x
    ensures Vectorised(x, t, c) == Baselined(x, o, c)
  {
    var d := c - 1.0;
    assert c * x - t == d * x - o;
    assert (d * x - o) / d == (d * x) / d - o / d;
    assert (d * x) / d == x;
  }

  /** The vectorised form is leave-one-out too, except that a lone member gets
      0 instead of its score. */
  lemma VectorisedIs<T>(s: seq<real>, index: seq<T>, inv: seq<nat>, i: nat)
    requires |s| == |index| && InverseCodes(inv, index) && i < |s|
    ensures ComputeRlooVectorized(s, inv)[i] == if |Group(index, index[i])| > 1 then LeaveOneOut(s, index, i) else 0.0
  {
    hide LeaveOneOut, ComputeRlooVectorized, VectorisedEntry, BinSum, SumAt, Others, Positions, Group, Baselined, Vectorised;
    BinsAreGroups(s, index, inv, i, |index|);
    LeaveOneOutIs(s, index, i);
    GroupIs(index, index[i]);
    var g, o := |Group(index, index[i])|, SumAt(s, Others(index, i, |index|));
    VectorisedEntryIs(s, inv, i, g);
    if g > 1 {
      VectorisedAlgebra(s[i], o, SumAt(s, Group(index, index[i])), g as real);
    }
  }

  lemma GroupIs<T>(index: seq<T>, u: T)
    ensures Group(index, u) == Positions(index, u, |index|)
  {
    hide Positions;
  }

  /** The entry for a bin of `g` members. */
  lemma VectorisedEntryIs(s: seq<real>, inv: seq<nat>, i: nat, g: nat)
    requires |s| == |inv| && i < |s| && g >= 1 && BinSum(inv, Ones(|inv|), inv[i], |inv|) == g as real
    ensures var total := BinSum(inv, s, inv[i], |inv|);
            ComputeRlooVectorized(s, inv)[i] == if g > 1 then Vectorised(s[i], total, g as real) else 0.0
  {
    hide BinSum, Ones;
    EntryAlgebra(g as real * s[i] - BinSum(inv, s, inv[i], |inv|), g);
  }

  lemma EntryAlgebra(x: real, g: nat)
    requires g >= 1
    ensures var c := g as real;
            (x / (if c - 1.0 < 1.0 then 1.0 else c - 1.0)) * (if c > 1.0 then 1.0 else 0.0)
              == if g > 1 then x / (c - 1.0) else 0.0
  {
  }

  /** Loop and vectorised form agree on a row exactly when its group has a
      second member or its score is 0. */
  lemma FormsAgreeIff<T>(s: seq<real>, index: seq<T>, inv: seq<nat>, i: nat)
    requires |s| == |index| && InverseCodes(inv, index) && i < |s|
    ensures ComputeRlooVectorized(s, inv)[i] == LeaveOneOut(s, index, i) <==> |Group(index, index[i])| > 1 || s[i] == 0.0
  {
    hide *;
    VectorisedIs(s, index, inv, i);
    LeaveOneOutIs(s, index, i);
  }
}
