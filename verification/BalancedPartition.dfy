/** The sequence-length balancer: Karmarkar-Karp differencing with equal-size
    parts. Whichever of the heap's states are merged first, the parts split the
    index set evenly, and their totals differ no more than the items that were
    dealt out together at the start. */
module BalancedPartition {
  import opened Sequences

  datatype Partitions = Parts(parts: seq<seq<nat>>) | AssertionFailed | DivisionByZero

  /** A bin of the differencing method: the indices it holds and their total. */
  datatype Bin = Bin(items: seq<nat>, sum: nat) {
    function Merge(other: Bin): Bin {
      Bin(items + other.items, sum + other.sum)
    }
  }

  /** `parts` are `k` sorted parts of one size that together hold each of
      `0..n` exactly once. */
  ghost predicate IsEqualPartition(parts: seq<seq<nat>>, n: nat, k: nat) {
    && |parts| == k
    && (forall i :: 0 <= i < k ==> |parts[i]| * k == n && Ascending(parts[i]))
    && IsPermutation(Flatten<nat>(parts), n)
  }

  ghost predicate Ascending(s: seq<nat>) {
    forall i, j :: 0 <= i < j < |s| ==> s[i] <= s[j]
  }

  // ----- sorting -----

  lemma ConsMultiset(s: seq<nat>, x: nat, t: seq<nat>)
    requires s != [] && multiset(t) == multiset(s[1..]) + multiset{x}
    ensures multiset([s[0]] + t) == multiset(s) + multiset{x}
  {
    assert s == [s[0]] + s[1..];
  }

  function InsertIndex(weight: seq<nat>, x: nat, s: seq<nat>): (r: seq<nat>)
    requires x < |weight| && forall i :: 0 <= i < |s| ==> s[i] < |weight|
    ensures multiset(r) == multiset(s) + multiset{x}
    ensures |r| == |s| + 1 && forall i :: 0 <= i < |r| ==> r[i] < |weight|
  {
    if s == [] || weight[x] < weight[s[0]] || (weight[x] == weight[s[0]] && x <= s[0]) then
      [x] + s
    else
      var t := InsertIndex(weight, x, s[1..]);
      ConsMultiset(s, x, t);
      [s[0]] + t
  }

  /** The indices below `n` in order of weight, ties by index. */
  function IndicesByWeight(weight: seq<nat>, n: nat): (r: seq<nat>)
    requires n <= |weight|
    ensures IsPermutation(r, n)
    ensures |r| == n && forall i :: 0 <= i < n ==> r[i] < |weight|
  {
    if n == 0 then [] else
      assert Range(n) == Range(n - 1) + [n - 1];
      InsertIndex(weight, n - 1, IndicesByWeight(weight, n - 1))
  }

  ghost predicate ByWeight(weight: seq<nat>, s: seq<nat>)
    requires forall i :: 0 <= i < |s| ==> s[i] < |weight|
  {
    forall i, j :: 0 <= i < j < |s| ==> weight[s[i]] <= weight[s[j]]
  }

  lemma {:induction false} InsertIndexAscends(weight: seq<nat>, x: nat, s: seq<nat>)
    requires x < |weight| && (forall i :: 0 <= i < |s| ==> s[i] < |weight|) && ByWeight(weight, s)
    ensures ByWeight(weight, InsertIndex(weight, x, s))
    ensures var first := InsertIndex(weight, x, s)[0]; first == x || (s != [] && first == s[0])
  {
    if s == [] || weight[x] < weight[s[0]] || (weight[x] == weight[s[0]] && x <= s[0]) {
      FirstByWeight(weight, x, s);
    } else {
      assert ByWeight(weight, s[1..]);
      InsertIndexAscends(weight, x, s[1..]);
      FirstByWeight(weight, s[0], InsertIndex(weight, x, s[1..]));
    }
  }

  lemma FirstByWeight(weight: seq<nat>, x: nat, s: seq<nat>)
    requires x < |weight| && (forall i :: 0 <= i < |s| ==> s[i] < |weight|) && ByWeight(weight, s)
    requires s != [] ==> weight[x] <= weight[s[0]]
    ensures ByWeight(weight, [x] + s)
  {
    var r := [x] + s;
    forall i, j | 0 <= i < j < |r| ensures weight[r[i]] <= weight[r[j]] {
      assert r[j] == s[j - 1];
    }
  }

  lemma {:induction false} IndicesAscend(weight: seq<nat>, n: nat)
    requires n <= |weight|
    ensures ByWeight(weight, IndicesByWeight(weight, n))
  {
    hide *;
    if n == 0 {
      FewAscend(weight, IndicesByWeight(weight, n));
    } else {
      IndicesAscend(weight, n - 1);
      InsertIndexAscends(weight, n - 1, IndicesByWeight(weight, n - 1));
      NextByWeight(weight, n);
    }
  }

  lemma FewAscend(weight: seq<nat>, s: seq<nat>)
    requires |s| < 2 && forall i :: 0 <= i < |s| ==> s[i] < |weight|
    ensures ByWeight(weight, s)
  {
  }

  lemma NextByWeight(weight: seq<nat>, n: nat)
    requires 0 < n <= |weight|
    ensures IndicesByWeight(weight, n) == InsertIndex(weight, n - 1, IndicesByWeight(weight, n - 1))
  {
    hide InsertIndex;
  }

  function Insert(x: nat, s: seq<nat>): (r: seq<nat>)
    requires Ascending(s)
    ensures Ascending(r) && multiset(r) == multiset(s) + multiset{x}
  {
    if s == [] || x <= s[0] then [x] + s
    else
      var t := Insert(x, s[1..]);
      ConsMultiset(s, x, t);
      ConsAscends(s, x, t);
      [s[0]] + t
  }

  lemma ConsAscends(s: seq<nat>, x: nat, t: seq<nat>)
    requires s != [] && Ascending(s) && s[0] <= x
    requires Ascending(t) && multiset(t) == multiset(s[1..]) + multiset{x}
    ensures Ascending([s[0]] + t)
  {
    forall i | 0 <= i < |t| ensures s[0] <= t[i] {
      assert t[i] in multiset(t);
      assert t[i] == x || t[i] in s[1..];
    }
  }

  function Sorted(s: seq<nat>): (r: seq<nat>)
    ensures Ascending(r) && multiset(r) == multiset(s) && |r| == |s|
  {
    if s == [] then [] else
      assert s == [s[0]] + s[1..];
      var r := Insert(s[0], Sorted(s[1..]));
      assert |r| == |multiset(r)| && |s| == |multiset(s)|;
      r
  }

  /** All indices held by a list of bins. */
  ghost function Held(bins: seq<Bin>): multiset<nat> {
    if bins == [] then multiset{} else multiset(bins[0].items) + Held(bins[1..])
  }

  ghost predicate Uniform(bins: seq<Bin>, k: nat, c: nat) {
    |bins| == k && forall i :: 0 <= i < k ==> |bins[i].items| == c
  }

  function InsertBin(x: Bin, bins: seq<Bin>): (r: seq<Bin>)
    ensures |r| == |bins| + 1
    ensures Held(r) == multiset(x.items) + Held(bins)
    ensures forall b :: b in r <==> b == x || b in bins
  {
    if bins == [] || bins[0].sum <= x.sum then [x] + bins
    else [bins[0]] + InsertBin(x, bins[1..])
  }

  /** Bins in decreasing order of total. */
  function SortBins(bins: seq<Bin>): (r: seq<Bin>)
    ensures |r| == |bins| && Held(r) == Held(bins)
    ensures forall b :: b in r <==> b in bins
  {
    if bins == [] then [] else InsertBin(bins[0], SortBins(bins[1..]))
  }

  lemma SortBinsUniform(bins: seq<Bin>, k: nat, c: nat)
    requires Uniform(bins, k, c)
    ensures Uniform(SortBins(bins), k, c)
  {
    var r := SortBins(bins);
    forall i | 0 <= i < |r| ensures |r[i].items| == c {
      assert r[i] in bins;
    }
  }

  lemma {:induction false} HeldAppend(bins: seq<Bin>, x: Bin)
    ensures Held(bins + [x]) == Held(bins) + multiset(x.items)
  {
    if bins == [] {
      assert bins + [x] == [x];
    } else {
      assert (bins + [x])[1..] == bins[1..] + [x];
      HeldAppend(bins[1..], x);
    }
  }

  lemma HeldLast(bins: seq<Bin>)
    requires bins != []
    ensures var n := |bins| - 1; Held(bins) == Held(bins[..n]) + multiset(bins[n].items)
  {
    var n := |bins| - 1;
    assert bins == bins[..n] + [bins[n]];
    HeldAppend(bins[..n], bins[n]);
  }

  // ----- totals -----

  function Total(weight: seq<nat>, items: seq<nat>): nat
    requires forall i :: 0 <= i < |items| ==> items[i] < |weight|
  {
    if items == [] then 0 else weight[items[0]] + Total(weight, items[1..])
  }

  lemma {:induction false} TotalConcat(weight: seq<nat>, a: seq<nat>, b: seq<nat>)
    requires (forall i :: 0 <= i < |a| ==> a[i] < |weight|) && forall i :: 0 <= i < |b| ==> b[i] < |weight|
    ensures Total(weight, a + b) == Total(weight, a) + Total(weight, b)
  {
    if a == [] {
      assert a + b == b;
    } else {
      assert (a + b)[1..] == a[1..] + b;
      TotalConcat(weight, a[1..], b);
    }
  }

  lemma {:induction false} TotalInsert(weight: seq<nat>, x: nat, s: seq<nat>)
    requires Ascending(s) && x < |weight| && forall i :: 0 <= i < |s| ==> s[i] < |weight|
    ensures (forall i :: 0 <= i < |Insert(x, s)| ==> Insert(x, s)[i] < |weight|)
    ensures Total(weight, Insert(x, s)) == weight[x] + Total(weight, s)
  {
    var r := Insert(x, s);
    if s != [] && x > s[0] {
      TotalInsert(weight, x, s[1..]);
      assert r[1..] == Insert(x, s[1..]);
    } else {
      assert r == [x] + s && r[1..] == s;
    }
  }

  lemma {:induction false} TotalSorted(weight: seq<nat>, s: seq<nat>)
    requires forall i :: 0 <= i < |s| ==> s[i] < |weight|
    ensures (forall i :: 0 <= i < |Sorted(s)| ==> Sorted(s)[i] < |weight|)
    ensures Total(weight, Sorted(s)) == Total(weight, s)
  {
    if s != [] {
      TotalSorted(weight, s[1..]);
      hide Insert;
      TotalInsert(weight, s[0], Sorted(s[1..]));
    }
  }

  /** Each bin knows the total of its items. */
  ghost predicate Totalled(weight: seq<nat>, bin: Bin) {
    (forall i :: 0 <= i < |bin.items| ==> bin.items[i] < |weight|) && bin.sum == Total(weight, bin.items)
  }

  lemma MergeTotalled(weight: seq<nat>, a: Bin, b: Bin)
    requires Totalled(weight, a) && Totalled(weight, b)
    ensures Totalled(weight, a.Merge(b))
  {
    TotalConcat(weight, a.items, b.items);
  }

  // ----- spread -----

  ghost predicate Decreasing(bins: seq<Bin>) {
    forall i, j :: 0 <= i < j < |bins| ==> bins[i].sum >= bins[j].sum
  }

  /** No two totals differ by more than `d`. */
  ghost predicate Within(bins: seq<Bin>, d: nat) {
    forall i, j :: 0 <= i < |bins| && 0 <= j < |bins| ==> bins[i].sum <= bins[j].sum + d
  }

  lemma {:induction false} InsertBinDecreases(x: Bin, bins: seq<Bin>)
    requires Decreasing(bins)
    ensures Decreasing(InsertBin(x, bins))
  {
    if bins == [] || bins[0].sum <= x.sum {
      FirstDecreases(x, bins);
    } else {
      var t := InsertBin(x, bins[1..]);
      assert Decreasing(bins[1..]);
      InsertBinDecreases(x, bins[1..]);
      forall b | b in t ensures bins[0].sum >= b.sum {
        assert b == x || b in bins[1..];
      }
      FirstDecreases(bins[0], t);
    }
  }

  lemma FirstDecreases(x: Bin, bins: seq<Bin>)
    requires Decreasing(bins) && forall b :: b in bins ==> x.sum >= b.sum
    ensures Decreasing([x] + bins)
  {
    var r := [x] + bins;
    forall i, j | 0 <= i < j < |r| ensures r[i].sum >= r[j].sum {
      assert r[j] == bins[j - 1];
    }
  }

  lemma {:induction false} SortBinsDecreases(bins: seq<Bin>)
    ensures Decreasing(SortBins(bins))
  {
    if bins != [] {
      SortBinsDecreases(bins[1..]);
      hide InsertBin;
      InsertBinDecreases(bins[0], SortBins(bins[1..]));
    }
  }

  lemma SortBinsWithin(bins: seq<Bin>, d: nat)
    requires Within(bins, d)
    ensures Within(SortBins(bins), d)
  {
    var r := SortBins(bins);
    forall i, j | 0 <= i < |r| && 0 <= j < |r| ensures r[i].sum <= r[j].sum + d {
      assert r[i] in bins && r[j] in bins;
    }
  }

  lemma MergedSum(a: seq<Bin>, b: seq<Bin>, i: nat)
    requires |a| == |b| && i < |a|
    ensures MergeOpposite(a, b)[i].sum == a[i].sum + b[|b| - 1 - i].sum
  {
    hide MergeOpposite;
    MergedAt(a, b, i);
  }

  lemma Gap(bins: seq<Bin>, d: nat, i: nat, j: nat)
    requires i < |bins| && j < |bins| && Decreasing(bins) && Within(bins, d)
    ensures bins[i].sum <= bins[j].sum + if i >= j then 0 else d
  {
  }

  /** Merging opposite ends does not add spreads up: the larger of the two is
      still a bound. */
  lemma MergeOppositeWithin(a: seq<Bin>, b: seq<Bin>, d: nat)
    requires |a| == |b| && Decreasing(a) && Decreasing(b) && Within(a, d) && Within(b, d)
    ensures Within(MergeOpposite(a, b), d)
  {
    hide Decreasing, MergeOpposite, Bin.Merge;
    var r, n := MergeOpposite(a, b), |a|;
    forall i, j | 0 <= i < n && 0 <= j < n ensures r[i].sum <= r[j].sum + d {
      hide Within;
      MergedSum(a, b, i);
      MergedSum(a, b, j);
      Gap(a, d, i, j);
      Gap(b, d, n - 1 - i, n - 1 - j);
    }
  }

  /** `d` bounds how far the weights of the items that are dealt out together
      lie apart: `k` at a time, in order of weight. */
  ghost predicate RowsWithin(weight: seq<nat>, k: nat, d: nat)
    requires k > 0
  {
    forall row: nat :: row * k + k <= |weight| ==> RowWithin(weight, IndicesByWeight(weight, |weight|), row * k, k, d)
  }

  ghost predicate RowWithin(weight: seq<nat>, order: seq<nat>, offset: nat, k: nat, d: nat)
    requires offset + k <= |order| && forall i :: 0 <= i < |order| ==> order[i] < |weight|
  {
    forall i, j :: offset <= i < offset + k && offset <= j < offset + k ==> weight[order[i]] <= weight[order[j]] + d
  }

  /** The range of all weights is such a bound. */
  lemma RangeBoundsRows(weight: seq<nat>, k: nat, d: nat)
    requires k > 0 && forall i, j :: 0 <= i < |weight| && 0 <= j < |weight| ==> weight[i] <= weight[j] + d
    ensures RowsWithin(weight, k, d)
  {
    hide IndicesByWeight;
  }

  /** A state of the differencing method. */
  ghost predicate IsState(weight: seq<nat>, k: nat, bins: seq<Bin>)
    requires k > 0
  {
    && Decreasing(bins) && (forall b :: b in bins ==> Totalled(weight, b))
    && forall d: nat :: RowsWithin(weight, k, d) ==> Within(bins, d)
  }

  lemma MergedState(weight: seq<nat>, k: nat, a: seq<Bin>, b: seq<Bin>)
    requires k > 0 && |a| == |b| && IsState(weight, k, a) && IsState(weight, k, b)
    ensures IsState(weight, k, SortBins(MergeOpposite(a, b)))
  {
    hide RowsWithin, Decreasing, Within, Totalled, SortBins;
    var r := MergeOpposite(a, b);
    forall x | x in r ensures Totalled(weight, x) {
      var i :| 0 <= i < |r| && r[i] == x;
      MergedAt(a, b, i);
      MergeTotalled(weight, a[i], b[|b| - 1 - i]);
    }
    SortBinsDecreases(r);
    forall d: nat | RowsWithin(weight, k, d) ensures Within(SortBins(r), d) {
      MergeOppositeWithin(a, b, d);
      SortBinsWithin(r, d);
    }
  }

  /** One item to a bin. */
  ghost function Singles(weight: seq<nat>, items: seq<nat>): (r: seq<Bin>)
    requires forall i :: 0 <= i < |items| ==> items[i] < |weight|
    ensures |r| == |items| && forall i :: 0 <= i < |r| ==> r[i] == Bin([items[i]], weight[items[i]])
  {
    seq(|items|, i requires 0 <= i < |items| => Bin([items[i]], weight[items[i]]))
  }

  lemma FirstState(weight: seq<nat>, order: seq<nat>, k: nat, r: nat, offset: nat, row: seq<nat>)
    requires k > 0 && order == IndicesByWeight(weight, |weight|) && offset == r * k && offset + k <= |weight|
    requires row == order[offset..offset + k]
    ensures (forall i :: 0 <= i < |row| ==> row[i] < |weight|) && IsState(weight, k, SortBins(Singles(weight, row)))
  {
    hide *;
    assert forall i :: 0 <= i < |row| ==> row[i] == order[offset + i];
    var bins := Singles(weight, row);
    SortBinsDecreases(bins);
    SinglesTotalled(weight, row);
    forall d: nat | RowsWithin(weight, k, d) ensures Within(SortBins(bins), d) {
      RowOf(weight, order, k, r, offset, d);
      FirstWithin(weight, order, k, offset, row, d);
      SortBinsWithin(bins, d);
    }
    StateFrom(weight, k, SortBins(bins));
  }

  lemma StateFrom(weight: seq<nat>, k: nat, bins: seq<Bin>)
    requires k > 0 && Decreasing(bins) && forall b :: b in bins ==> Totalled(weight, b)
    requires forall d: nat :: RowsWithin(weight, k, d) ==> Within(bins, d)
    ensures IsState(weight, k, bins)
  {
    hide Decreasing, Totalled, RowsWithin, Within;
  }

  lemma SinglesTotalled(weight: seq<nat>, items: seq<nat>)
    requires forall i :: 0 <= i < |items| ==> items[i] < |weight|
    ensures forall x :: x in SortBins(Singles(weight, items)) ==> Totalled(weight, x)
  {
    hide *;
    forall x | x in SortBins(Singles(weight, items)) ensures Totalled(weight, x) {
      SingleTotalled(weight, x.items[0]);
    }
  }

  lemma SingleTotalled(weight: seq<nat>, x: nat)
    requires x < |weight|
    ensures Totalled(weight, Bin([x], weight[x]))
  {
    assert [x][1..] == [];
  }

  lemma RowOf(weight: seq<nat>, order: seq<nat>, k: nat, row: nat, offset: nat, d: nat)
    requires k > 0 && order == IndicesByWeight(weight, |weight|) && offset == row * k && offset + k <= |weight|
    requires RowsWithin(weight, k, d)
    ensures RowWithin(weight, order, offset, k, d)
  {
    hide IndicesByWeight, RowWithin;
  }

  lemma FirstWithin(weight: seq<nat>, order: seq<nat>, k: nat, offset: nat, row: seq<nat>, d: nat)
    requires offset + k <= |order| && forall i :: 0 <= i < |order| ==> order[i] < |weight|
    requires |row| == k && forall i :: 0 <= i < k ==> row[i] == order[offset + i]
    requires RowWithin(weight, order, offset, k, d)
    ensures Within(Singles(weight, row), d)
  {
    var bins := Singles(weight, row);
    forall i, j | 0 <= i < k && 0 <= j < k ensures bins[i].sum <= bins[j].sum + d {
      assert weight[order[offset + i]] <= weight[order[offset + j]] + d;
    }
  }

  /** No two parts' totals differ by more than `d`. */
  ghost predicate Balanced(weight: seq<nat>, parts: seq<seq<nat>>, d: nat) {
    forall i, j :: 0 <= i < |parts| && 0 <= j < |parts| ==> TotalsWithin(weight, parts[i], parts[j], d)
  }

  ghost predicate TotalsWithin(weight: seq<nat>, a: seq<nat>, b: seq<nat>, d: nat) {
    && (forall i :: 0 <= i < |a| ==> a[i] < |weight|) && (forall i :: 0 <= i < |b| ==> b[i] < |weight|)
    && Total(weight, a) <= Total(weight, b) + d
  }

  // ----- differencing -----

  /** The largest bin of one state takes the smallest of the other, and so on. */
  function MergeOpposite(a: seq<Bin>, b: seq<Bin>): (r: seq<Bin>)
    requires |a| == |b|
    ensures |r| == |a|
  {
    if a == [] then []
    else
      var n := |b| - 1;
      [a[0].Merge(b[n])] + MergeOpposite(a[1..], b[..n])
  }

  lemma {:induction false} MergedAt(a: seq<Bin>, b: seq<Bin>, i: nat)
    requires |a| == |b| && i < |a|
    ensures MergeOpposite(a, b)[i] == a[i].Merge(b[|b| - 1 - i])
    decreases |a|
  {
    if i > 0 {
      hide Bin.Merge;
      MergedAt(a[1..], b[..|b| - 1], i - 1);
    }
  }

  lemma {:induction false} MergeOppositeHolds(a: seq<Bin>, b: seq<Bin>)
    requires |a| == |b|
    ensures Held(MergeOpposite(a, b)) == Held(a) + Held(b)
    decreases |a|
  {
    if a != [] {
      var n := |b| - 1;
      HeldLast(b);
      MergeOppositeHolds(a[1..], b[..n]);
      HeldFirst(a[0].Merge(b[n]), MergeOpposite(a[1..], b[..n]));
      assert MergeOpposite(a, b) == [a[0].Merge(b[n])] + MergeOpposite(a[1..], b[..n]);
      assert Held(a) == multiset(a[0].items) + Held(a[1..]);
      assert multiset(a[0].Merge(b[n]).items) == multiset(a[0].items) + multiset(b[n].items);
    }
  }

  lemma HeldFirst(x: Bin, bins: seq<Bin>)
    ensures Held([x] + bins) == multiset(x.items) + Held(bins)
  {
    assert ([x] + bins)[1..] == bins;
  }

  ghost function HeldByAll(states: seq<seq<Bin>>): multiset<nat> {
    if states == [] then multiset{} else Held(states[0]) + HeldByAll(states[1..])
  }

  lemma {:induction false} HeldByAllConcat(a: seq<seq<Bin>>, b: seq<seq<Bin>>)
    ensures HeldByAll(a + b) == HeldByAll(a) + HeldByAll(b)
  {
    if a == [] {
      assert a + b == b;
    } else {
      assert (a + b)[1..] == a[1..] + b;
      HeldByAllConcat(a[1..], b);
    }
  }

  lemma HeldByAllWithout(states: seq<seq<Bin>>, j: nat)
    requires j < |states|
    ensures HeldByAll(states) == Held(states[j]) + HeldByAll(Without(states, j))
  {
    assert states == states[..j] + states[j..];
    HeldByAllConcat(states[..j], states[j..]);
    HeldByAllConcat(states[..j], states[j + 1..]);
  }

  ghost predicate StateShape(bins: seq<Bin>, k: nat) {
    exists c :: 0 <= c && Uniform(bins, k, c)
  }

  /** The heap hands back some state; any choice will do. */
  method PopState(states: seq<seq<Bin>>) returns (top: seq<Bin>, rest: seq<seq<Bin>>)
    requires states != []
    ensures |rest| == |states| - 1
    ensures HeldByAll(states) == Held(top) + HeldByAll(rest)
    ensures top in states && forall s :: s in rest ==> s in states
  {
    var j :| 0 <= j < |states|;
    top, rest := states[j], Without(states, j);
    HeldByAllWithout(states, j);
  }

  method InitialState(seqlens: seq<nat>, items: seq<nat>) returns (bins: seq<Bin>)
    requires forall i :: 0 <= i < |items| ==> items[i] < |seqlens|
    ensures bins == SortBins(Singles(seqlens, items))
  {
    hide SortBins;
    bins := [];
    for i := 0 to |items|
      invariant |bins| == i && forall j :: 0 <= j < i ==> bins[j] == Bin([items[j]], seqlens[items[j]])
    {
      bins := bins + [Bin([items[i]], seqlens[items[i]])];
    }
    assert bins == Singles(seqlens, items);
    bins := SortBins(bins);
  }

  lemma {:induction false} SinglesHold(weight: seq<nat>, items: seq<nat>)
    requires forall i :: 0 <= i < |items| ==> items[i] < |weight|
    ensures Held(Singles(weight, items)) == multiset(items)
  {
    if items != [] {
      hide *;
      var x, rest := items[0], items[1..];
      SinglesHold(weight, rest);
      HeldFirst(Bin([x], weight[x]), Singles(weight, rest));
      SinglesFirst(weight, x, rest);
      assert items == [x] + rest;
    }
  }

  lemma SinglesFirst(weight: seq<nat>, x: nat, rest: seq<nat>)
    requires x < |weight| && forall i :: 0 <= i < |rest| ==> rest[i] < |weight|
    ensures Singles(weight, [x] + rest) == [Bin([x], weight[x])] + Singles(weight, rest)
  {
  }

  lemma SinglesShape(weight: seq<nat>, items: seq<nat>)
    requires forall i :: 0 <= i < |items| ==> items[i] < |weight|
    ensures var bins := SortBins(Singles(weight, items)); Uniform(bins, |items|, 1) && Held(bins) == multiset(items)
  {
    hide SortBins, Held;
    SinglesHold(weight, items);
    SortBinsUniform(Singles(weight, items), |items|, 1);
  }

  lemma MergeKeepsShape(a: seq<Bin>, b: seq<Bin>, k: nat)
    requires StateShape(a, k) && StateShape(b, k)
    ensures |a| == |b|
    ensures StateShape(SortBins(MergeOpposite(a, b)), k)
  {
    var c :| 0 <= c && Uniform(a, k, c);
    var d :| 0 <= d && Uniform(b, k, d);
    forall i | 0 <= i < k ensures |MergeOpposite(a, b)[i].items| == c + d {
      MergedAt(a, b, i);
    }
    SortBinsUniform(MergeOpposite(a, b), k, c + d);
  }

  /** Every state has `k` bins of one size, and together they hold `m`. */
  ghost predicate StatesHold(states: seq<seq<Bin>>, k: nat, m: multiset<nat>) {
    (forall s :: s in states ==> StateShape(s, k)) && HeldByAll(states) == m
  }

  lemma StatesHoldAppend(states: seq<seq<Bin>>, bins: seq<Bin>, k: nat, m: multiset<nat>)
    requires StatesHold(states, k, m) && StateShape(bins, k)
    ensures StatesHold(states + [bins], k, m + Held(bins))
  {
    HeldByAllConcat(states, [bins]);
    assert HeldByAll([bins]) == Held(bins);
  }

  lemma StatesHoldNext(states: seq<seq<Bin>>, bins: seq<Bin>, k: nat, order: seq<nat>, offset: nat)
    requires offset + k <= |order|
    requires StatesHold(states, k, multiset(order[..offset]))
    requires Uniform(bins, k, 1) && Held(bins) == multiset(order[offset..offset + k])
    ensures StatesHold(states + [bins], k, multiset(order[..offset + k]))
  {
    StatesHoldAppend(states, bins, k, multiset(order[..offset]));
    assert order[..offset + k] == order[..offset] + order[offset..offset + k];
  }

  lemma NothingHeld(k: nat)
    ensures StatesHold([], k, multiset{})
  {
  }

  ghost predicate AreStates(weight: seq<nat>, k: nat, states: seq<seq<Bin>>)
    requires k > 0
  {
    forall s :: s in states ==> IsState(weight, k, s)
  }

  method InitialStates(seqlens: seq<nat>, k: nat) returns (states: seq<seq<Bin>>)
    requires k > 0 && seqlens != [] && |seqlens| % k == 0
    ensures states != [] && StatesHold(states, k, multiset(Range(|seqlens|))) && AreStates(seqlens, k, states)
  {
    hide HeldByAll, Held, IndicesByWeight, StateShape, Uniform, IsState, SortBins, Singles;
    var order := IndicesByWeight(seqlens, |seqlens|);
    states := [];
    NothingHeld(k);
    var offset := 0;
    while offset < |order|
      invariant 0 <= offset <= |order| && offset % k == 0
      invariant offset > 0 ==> states != []
      invariant AreStates(seqlens, k, states)
      invariant StatesHold(states, k, multiset(order[..offset]))
    {
      NextMultiple(offset, |order|, k);
      var row := order[offset..offset + k];
      ExactQuotient(offset, k);
      FirstState(seqlens, order, k, offset / k, offset, row);
      SinglesShape(seqlens, row);
      var bins := InitialState(seqlens, row);
      StatesHoldNext(states, bins, k, order, offset);
      states := states + [bins];
      offset := offset + k;
    }
    assert order[..|order|] == order;
  }

  method KarmarkarKarp(seqlens: seq<nat>, k: nat) returns (bins: seq<Bin>)
    requires k > 0 && seqlens != [] && |seqlens| % k == 0
    ensures StateShape(bins, k)
    ensures Held(bins) == multiset(Range(|seqlens|))
    ensures IsState(seqlens, k, bins)
  {
    var states := InitialStates(seqlens, k);
    hide *;
    while |states| > 1
      invariant |states| >= 1
      invariant StatesHold(states, k, multiset(Range(|seqlens|))) && AreStates(seqlens, k, states)
    {
      var state0, rest0 := PopState(states);
      var state1, rest1 := PopState(rest0);
      MergeStep(states, state0, rest0, state1, rest1, k, multiset(Range(|seqlens|)));
      MergeStates(seqlens, k, states, state0, state1, rest1);
      var merged := SortBins(MergeOpposite(state0, state1));
      states := rest1 + [merged];
    }
    bins := states[0];
    StateOf(seqlens, k, states, 0);
    LastState(states, k, multiset(Range(|seqlens|)));
  }

  /** Merging two states into one keeps what all of them hold. */
  lemma MergeStep(states: seq<seq<Bin>>, state0: seq<Bin>, rest0: seq<seq<Bin>>, state1: seq<Bin>, rest1: seq<seq<Bin>>,
                  k: nat, m: multiset<nat>)
    requires StatesHold(states, k, m)
    requires HeldByAll(states) == Held(state0) + HeldByAll(rest0) && HeldByAll(rest0) == Held(state1) + HeldByAll(rest1)
    requires state0 in states && state1 in rest0
    requires (forall s :: s in rest0 ==> s in states) && forall s :: s in rest1 ==> s in rest0
    ensures |state0| == |state1|
    ensures StatesHold(rest1 + [SortBins(MergeOpposite(state0, state1))], k, m)
  {
    hide Held, HeldByAll, StateShape, SortBins, MergeOpposite;
    MergeKeepsShape(state0, state1, k);
    MergeOppositeHolds(state0, state1);
    StatesHoldAppend(rest1, SortBins(MergeOpposite(state0, state1)), k, HeldByAll(rest1));
  }

  lemma StateOf(weight: seq<nat>, k: nat, states: seq<seq<Bin>>, i: nat)
    requires k > 0 && AreStates(weight, k, states) && i < |states|
    ensures IsState(weight, k, states[i])
  {
    hide IsState;
  }

  lemma MergeStates(weight: seq<nat>, k: nat, states: seq<seq<Bin>>, state0: seq<Bin>, state1: seq<Bin>, rest: seq<seq<Bin>>)
    requires k > 0 && AreStates(weight, k, states) && |state0| == |state1|
    requires state0 in states && state1 in states && forall s :: s in rest ==> s in states
    ensures AreStates(weight, k, rest + [SortBins(MergeOpposite(state0, state1))])
  {
    hide IsState, SortBins, MergeOpposite;
    MergedState(weight, k, state0, state1);
  }

  lemma LastState(states: seq<seq<Bin>>, k: nat, m: multiset<nat>)
    requires |states| == 1 && StatesHold(states, k, m)
    ensures Held(states[0]) == m && StateShape(states[0], k)
  {
    assert HeldByAll(states[1..]) == multiset{};
  }

  lemma NextMultiple(m: nat, n: nat, k: nat)
    requires k > 0 && m < n && m % k == 0 && n % k == 0
    ensures m + k <= n && (m + k) % k == 0
  {
    var a: int, b: int := m / k, n / k;
    assert m == a * k && n == b * k;
    MulOrder(b, a, k);
    MulOrder(a + 1, b, k);
    DivModUnique(a + 1, 0, k);
    assert (a + 1) * k == m + k;
  }

  lemma {:induction false} FlattenedBins(bins: seq<Bin>, parts: seq<seq<nat>>)
    requires |parts| == |bins|
    requires forall i :: 0 <= i < |bins| ==> multiset(parts[i]) == multiset(bins[i].items)
    ensures multiset(Flatten<nat>(parts)) == Held(bins)
  {
    if bins != [] {
      FlattenedBins(bins[1..], parts[1..]);
      assert Flatten<nat>(parts) == parts[0] + Flatten<nat>(parts[1..]);
    }
  }

  method SortedParts(bins: seq<Bin>) returns (parts: seq<seq<nat>>)
    ensures |parts| == |bins|
    ensures forall i :: 0 <= i < |bins| ==> parts[i] == Sorted(bins[i].items)
  {
    parts := [];
    for i := 0 to |bins|
      invariant |parts| == i
      invariant forall j :: 0 <= j < i ==> parts[j] == Sorted(bins[j].items)
    {
      parts := parts + [Sorted(bins[i].items)];
    }
  }

  lemma PartsAreEqualPartition(bins: seq<Bin>, parts: seq<seq<nat>>, n: nat, k: nat)
    requires StateShape(bins, k) && Held(bins) == multiset(Range(n))
    requires |parts| == k && forall i :: 0 <= i < k ==> parts[i] == Sorted(bins[i].items)
    ensures IsEqualPartition(parts, n, k)
  {
    var c :| 0 <= c && Uniform(bins, k, c);
    forall i | 0 <= i < k ensures multiset(parts[i]) == multiset(bins[i].items) && |parts[i]| == c && Ascending(parts[i]) {
    }
    hide Sorted, Held, Ascending, Flatten, Range;
    FlattenedBins(bins, parts);
    FlattenUniformLength<nat>(parts, c);
    SameCount(Flatten<nat>(parts), Range(n));
    assert k * c == c * k == n;
    forall i | 0 <= i < k ensures |parts[i]| * k == n && Ascending(parts[i]) {
    }
  }

  lemma PartsAreBalanced(weight: seq<nat>, bins: seq<Bin>, parts: seq<seq<nat>>, k: nat)
    requires k > 0 && IsState(weight, k, bins)
    requires |parts| == |bins| && forall i :: 0 <= i < |bins| ==> parts[i] == Sorted(bins[i].items)
    ensures forall d: nat :: RowsWithin(weight, k, d) ==> Balanced(weight, parts, d)
  {
    hide RowsWithin, Sorted, Decreasing, Ascending, Total;
    forall d: nat | RowsWithin(weight, k, d) ensures Balanced(weight, parts, d) {
      forall i, j | 0 <= i < |parts| && 0 <= j < |parts| ensures TotalsWithin(weight, parts[i], parts[j], d) {
        assert bins[i].sum <= bins[j].sum + d;
        assert Totalled(weight, bins[i]) && Totalled(weight, bins[j]);
        TotalSorted(weight, bins[i].items);
        TotalSorted(weight, bins[j].items);
      }
    }
  }

  lemma SameCount(a: seq<nat>, b: seq<nat>)
    requires multiset(a) == multiset(b)
    ensures |a| == |b|
  {
    assert |multiset(a)| == |a| && |multiset(b)| == |b|;
  }

  /** An equal-size partition exactly when the items split evenly; otherwise
      an assertion or the modulus fails. */
  method GetSeqlenBalancedPartitions(seqlens: seq<nat>, k: nat) returns (r: Partitions)
    ensures r.Parts? <==> k > 0 && seqlens != [] && |seqlens| % k == 0
    ensures r.DivisionByZero? <==> k == 0
    ensures r.Parts? ==> IsEqualPartition(r.parts, |seqlens|, k)
    ensures r.Parts? ==> forall d: nat :: RowsWithin(seqlens, k, d) ==> Balanced(seqlens, r.parts, d)
  {
    if |seqlens| < k {
      return AssertionFailed;
    }
    if k == 0 {
      return DivisionByZero;
    }
    if |seqlens| % k != 0 {
      return AssertionFailed;
    }
    var bins := KarmarkarKarp(seqlens, k);
    var parts := SortedParts(bins);
    PartsAreEqualPartition(bins, parts, |seqlens|, k);
    PartsAreBalanced(seqlens, bins, parts, k);
    r := Parts(parts);
  }
}
