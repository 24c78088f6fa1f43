/** Finite sums, flattening and permutations of sequences: the vocabulary the
    other modules state their results in. */
module Sequences {

  function Range(n: nat): (r: seq<nat>)
    ensures |r| == n
    ensures forall i :: 0 <= i < n ==> r[i] == i
  {
    seq(n, i => i)
  }

  function Sum(s: seq<real>): real {
    if s == [] then 0.0 else s[0] + Sum(s[1..])
  }

  function SumNat(s: seq<nat>): nat {
    if s == [] then 0 else s[0] + SumNat(s[1..])
  }

  function Map<T, U>(f: T -> U, s: seq<T>): (r: seq<U>)
    ensures |r| == |s|
    ensures forall i :: 0 <= i < |s| ==> r[i] == f(s[i])
  {
    seq(|s|, i requires 0 <= i < |s| => f(s[i]))
  }

  /** A mask of zeros and ones. */
  ghost predicate IsMask(mask: seq<real>) {
    forall t :: 0 <= t < |mask| ==> mask[t] == 0.0 || mask[t] == 1.0
  }

  /** The entries of `s` that the mask keeps, in order. */
  ghost function Unmasked(s: seq<real>, mask: seq<real>): seq<real>
    requires |s| == |mask|
  {
    if s == [] then [] else (if mask[0] == 1.0 then [s[0]] else []) + Unmasked(s[1..], mask[1..])
  }

  /** The sum of `f` over the entries of `s`. */
  function SumOf<T>(f: T -> real, s: seq<T>): real {
    if s == [] then 0.0 else f(s[0]) + SumOf(f, s[1..])
  }

  function Flatten<T>(ss: seq<seq<T>>): seq<T> {
    if ss == [] then [] else ss[0] + Flatten(ss[1..])
  }

  lemma {:induction false} SumOfConcat<T>(f: T -> real, a: seq<T>, b: seq<T>)
    ensures SumOf(f, a + b) == SumOf(f, a) + SumOf(f, b)
  {
    if a == [] {
      assert a + b == b;
    } else {
      assert (a + b)[1..] == a[1..] + b;
      SumOfConcat(f, a[1..], b);
    }
  }

  lemma DivideSum(a: real, b: real, c: real)
    requires c != 0.0
    ensures (a + b) / c == a / c + b / c
  {
  }

  lemma {:induction false} SumConcat(a: seq<real>, b: seq<real>)
    ensures Sum(a + b) == Sum(a) + Sum(b)
  {
    if a == [] {
      assert a + b == b;
    } else {
      assert (a + b)[1..] == a[1..] + b;
      SumConcat(a[1..], b);
    }
  }

  lemma SumAppend(a: seq<real>, i: nat)
    requires i < |a|
    ensures Sum(a[..i + 1]) == Sum(a[..i]) + a[i]
  {
    assert a[..i + 1] == a[..i] + [a[i]];
    SumConcat(a[..i], [a[i]]);
  }

  lemma {:induction false} SumOfIsSum<T>(f: T -> real, s: seq<T>)
    ensures SumOf(f, s) == Sum(Map(f, s))
  {
    if s != [] {
      SumOfIsSum(f, s[1..]);
      assert Map(f, s)[1..] == Map(f, s[1..]);
    }
  }

  lemma {:induction false} SumNatConcat(a: seq<nat>, b: seq<nat>)
    ensures SumNat(a + b) == SumNat(a) + SumNat(b)
  {
    if a == [] {
      assert a + b == b;
    } else {
      assert (a + b)[1..] == a[1..] + b;
      SumNatConcat(a[1..], b);
    }
  }

  function Without<T>(s: seq<T>, j: nat): (r: seq<T>)
    requires j < |s|
    ensures multiset(r) == multiset(s) - multiset{s[j]}
  {
    assert s == s[..j] + [s[j]] + s[j + 1..];
    s[..j] + s[j + 1..]
  }

  lemma SumOfWithout<T>(f: T -> real, s: seq<T>, j: nat)
    requires j < |s|
    ensures SumOf(f, s) == f(s[j]) + SumOf(f, Without(s, j))
  {
    assert s == s[..j] + s[j..];
    SumOfConcat(f, s[..j], s[j..]);
    SumOfConcat(f, s[..j], s[j + 1..]);
  }

  /** A sum does not depend on the order of its terms. */
  lemma {:induction false} SumOfPermuted<T>(f: T -> real, a: seq<T>, b: seq<T>)
    requires multiset(a) == multiset(b)
    ensures SumOf(f, a) == SumOf(f, b)
  {
    if a == [] {
      assert |multiset(b)| == |b|;
    } else {
      assert a[0] in multiset(b);
      var j :| 0 <= j < |b| && b[j] == a[0];
      assert Without(a, 0) == a[1..];
      SumOfPermuted(f, a[1..], Without(b, j));
      SumOfWithout(f, b, j);
    }
  }

  lemma {:induction false} SumOfCongruent<T>(f: T -> real, g: T -> real, s: seq<T>)
    requires forall x :: x in s ==> f(x) == g(x)
    ensures SumOf(f, s) == SumOf(g, s)
  {
    if s != [] {
      SumOfCongruent(f, g, s[1..]);
    }
  }

  lemma {:induction false} SumOfLinear<T>(f: T -> real, g: T -> real, h: T -> real, c: real, s: seq<T>)
    requires forall x :: x in s ==> h(x) == f(x) + c * g(x)
    ensures SumOf(h, s) == SumOf(f, s) + c * SumOf(g, s)
  {
    if s != [] {
      SumOfLinear(f, g, h, c, s[1..]);
    }
  }

  lemma {:induction false} SumOfZero<T>(f: T -> real, s: seq<T>)
    requires forall i :: 0 <= i < |s| ==> f(s[i]) == 0.0
    ensures SumOf(f, s) == 0.0
  {
    if s != [] {
      SumOfZero(f, s[1..]);
    }
  }

  lemma SumOfSingle<T>(f: T -> real, s: seq<T>, j: nat)
    requires j < |s| && forall i :: 0 <= i < |s| && i != j ==> f(s[i]) == 0.0
    ensures SumOf(f, s) == f(s[j])
  {
    SumOfWithout(f, s, j);
    SumOfZero(f, Without(s, j));
  }

  lemma SumSingle(s: seq<real>, j: nat)
    requires j < |s| && forall i :: 0 <= i < |s| && i != j ==> s[i] == 0.0
    ensures Sum(s) == s[j]
  {
    var id := (x: real) => x;
    SumOfSingle(id, s, j);
    SumOfIsSum(id, s);
    assert Map(id, s) == s;
  }

  lemma {:induction false} FlattenConcat<T>(a: seq<seq<T>>, b: seq<seq<T>>)
    ensures Flatten(a + b) == Flatten(a) + Flatten(b)
  {
    if a == [] {
      assert a + b == b;
    } else {
      assert (a + b)[1..] == a[1..] + b;
      FlattenConcat(a[1..], b);
    }
  }

  lemma {:induction false} FlattenAppend<T>(a: seq<seq<T>>, x: seq<T>)
    ensures Flatten(a + [x]) == Flatten(a) + x
  {
    FlattenConcat(a, [x]);
    assert Flatten([x]) == x + Flatten([x][1..]);
  }

  lemma {:induction false} FlattenMembers<T>(ss: seq<seq<T>>, x: T)
    ensures x in Flatten(ss) <==> exists i :: 0 <= i < |ss| && x in ss[i]
  {
    if ss != [] {
      FlattenMembers(ss[1..], x);
      if x in Flatten(ss[1..]) {
        var i :| 0 <= i < |ss[1..]| && x in ss[1..][i];
        assert x in ss[i + 1];
      }
      if i :| 0 <= i < |ss| && x in ss[i] {
        if i > 0 {
          assert x in ss[1..][i - 1];
        }
      }
    }
  }

  lemma {:induction false} FlattenUniformLength<T>(ss: seq<seq<T>>, c: nat)
    requires forall i :: 0 <= i < |ss| ==> |ss[i]| == c
    ensures |Flatten(ss)| == |ss| * c
  {
    if ss != [] {
      FlattenUniformLength(ss[1..], c);
    }
  }

  /** Flattening blocks of one size is positional: block `i` of the result is
      the slice that starts at `i * c`. */
  lemma {:induction false} FlattenUniform<T>(ss: seq<seq<T>>, c: nat, i: nat)
    requires forall i :: 0 <= i < |ss| ==> |ss[i]| == c
    requires i < |ss|
    ensures 0 <= i * c <= i * c + c <= |Flatten(ss)|
    ensures Flatten(ss)[i * c..i * c + c] == ss[i]
  {
    FlattenUniformLength(ss, c);
    BlockBounds(i, |ss|, c);
    var front := Flatten(ss[..i]);
    FlattenUniformLength(ss[..i], c);
    FlattenConcat(ss[..i], ss[i..]);
    assert ss == ss[..i] + ss[i..];
    assert Flatten(ss[i..]) == ss[i] + Flatten(ss[i..][1..]);
    assert |front| == i * c;
    assert Flatten(ss) == front + (ss[i] + Flatten(ss[i..][1..]));
  }

  /** Cutting a sequence into blocks of one size and flattening gives it back. */
  lemma FlattenBlocks<T>(s: seq<T>, k: nat, c: nat, blocks: seq<seq<T>>)
    requires |s| == k * c && |blocks| == k
    requires forall i :: 0 <= i < k ==> IsBlock(s, i, c, blocks[i])
    ensures Flatten(blocks) == s
  {
    FlattenBlocksUpTo(s, c, blocks, k);
    assert blocks[..k] == blocks;
  }

  lemma {:induction false} FlattenBlocksUpTo<T>(s: seq<T>, c: nat, blocks: seq<seq<T>>, j: nat)
    requires j <= |blocks|
    requires forall i :: 0 <= i < |blocks| ==> IsBlock(s, i, c, blocks[i])
    ensures j * c <= |s| && Flatten(blocks[..j]) == s[..j * c]
    decreases j
  {
    if j > 0 {
      FlattenBlocksUpTo(s, c, blocks, j - 1);
      assert IsBlock(s, j - 1, c, blocks[j - 1]);
      var m := (j - 1) * c;
      assert m + c == j * c;
      assert blocks[..j] == blocks[..j - 1] + [blocks[j - 1]];
      FlattenAppend(blocks[..j - 1], blocks[j - 1]);
    }
  }

  /** `block` is the `i`-th run of `c` entries of `s`. */
  ghost predicate IsBlock<T>(s: seq<T>, i: nat, c: nat, block: seq<T>) {
    i * c + c <= |s| && block == s[i * c..i * c + c]
  }

  lemma BlockBounds(i: nat, k: nat, c: nat)
    requires i < k
    ensures 0 <= i * c <= i * c + c <= k * c
  {
    assert (k - i) * c == k * c - i * c;
    assert (k - i) * c >= c by {
      assert (k - i - 1) * c >= 0;
    }
  }

  lemma ExactQuotient(x: nat, c: nat)
    requires c > 0 && x % c == 0
    ensures x == (x / c) * c
  {
  }

  lemma MulOrder(a: int, b: int, k: nat)
    ensures a <= b ==> a * k <= b * k
  {
  }

  /** Division by `c` undoes `i * c + j` for `j < c`. */
  lemma DivModUnique(i: nat, j: nat, c: nat)
    requires j < c
    ensures (i * c + j) / c == i && (i * c + j) % c == j
  {
    var x := i * c + j;
    var q, m := x / c, x % c;
    assert x == q * c + m;
    Difference(q, i, c);
    SmallMultiple(q - i, c);
  }

  lemma Difference(q: int, i: int, c: int)
    ensures (q - i) * c == q * c - i * c
  {
  }

  lemma SmallMultiple(d: int, c: int)
    requires 0 <= c
    ensures -c < d * c < c ==> d == 0
  {
    if d >= 1 {
      MulOrder(1, d, c);
    } else if d <= -1 {
      MulOrder(d, -1, c);
    }
  }

  /** A permutation of `0..n` holds each index exactly once. */
  ghost predicate IsPermutation(s: seq<nat>, n: nat) {
    multiset(s) == multiset(Range(n))
  }

  lemma {:induction false} RangeMultiplicity(n: nat, x: nat)
    ensures multiset(Range(n))[x] == if x < n then 1 else 0
  {
    if n > 0 {
      RangeMultiplicity(n - 1, x);
      assert Range(n) == Range(n - 1) + [n - 1];
    } else {
      assert Range(n) == [];
    }
  }

  lemma {:induction false} DistinctOnce<T>(s: seq<T>, x: T)
    requires forall i, j :: 0 <= i < j < |s| ==> s[i] != s[j]
    ensures multiset(s)[x] == if x in s then 1 else 0
  {
    if s != [] {
      DistinctOnce(s[1..], x);
      assert s == [s[0]] + s[1..];
    }
  }

  lemma RepeatedEntry<T>(s: seq<T>, i: nat, j: nat)
    requires i < j < |s| && s[i] == s[j]
    ensures multiset(s)[s[i]] >= 2
  {
    var t := Without(s, j);
    assert t[i] == s[i];
    assert s[i] in multiset(t);
  }

  /** What a permutation of `0..n` is, entry by entry. */
  lemma PermutationEntries(s: seq<nat>, n: nat)
    requires IsPermutation(s, n)
    ensures |s| == n
    ensures forall x: nat :: x in s <==> x < n
    ensures forall i, j :: 0 <= i < j < |s| ==> s[i] != s[j]
  {
    assert |multiset(s)| == |s|;
    assert |multiset(Range(n))| == n;
    forall x: nat ensures x in s <==> x < n {
      RangeMultiplicity(n, x);
      assert x in s <==> x in multiset(s);
    }
    forall i, j | 0 <= i < j < |s| ensures s[i] != s[j] {
      RangeMultiplicity(n, s[i]);
      if s[i] == s[j] {
        RepeatedEntry(s, i, j);
      }
    }
  }

  /** The entries of `s` at the positions `p`, in that order. */
  function Pick<T>(s: seq<T>, p: seq<nat>): (r: seq<T>)
    requires forall i :: 0 <= i < |p| ==> p[i] < |s|
    ensures |r| == |p|
    ensures forall i :: 0 <= i < |p| ==> r[i] == s[p[i]]
  {
    seq(|p|, i requires 0 <= i < |p| => s[p[i]])
  }

  lemma PickWithout<T>(s: seq<T>, q: seq<nat>, j: nat)
    requires forall i :: 0 <= i < |q| ==> q[i] < |s|
    requires j < |q|
    ensures |Without<nat>(q, j)| == |q| - 1
    ensures forall i :: 0 <= i < |Without<nat>(q, j)| ==> Without<nat>(q, j)[i] < |s|
    ensures multiset(Pick(s, q)) == multiset(Pick(s, Without<nat>(q, j))) + multiset{s[q[j]]}
  {
    var r := Pick(s, q);
    assert Pick(s, Without<nat>(q, j)) == Without(r, j);
    assert r[j] in multiset(r);
  }

  lemma {:induction false} PickSameMultiset<T>(s: seq<T>, p: seq<nat>, q: seq<nat>)
    requires forall i :: 0 <= i < |p| ==> p[i] < |s|
    requires forall i :: 0 <= i < |q| ==> q[i] < |s|
    requires multiset(p) == multiset(q)
    ensures multiset(Pick(s, p)) == multiset(Pick(s, q))
    decreases |p|
  {
    hide Pick, Without;
    if p == [] {
      assert |multiset(q)| == |q|;
      assert Pick(s, p) == [] && Pick(s, q) == [];
    } else {
      var j := PlaceOf(q, p[0]);
      PickWithout(s, p, 0);
      PickWithout(s, q, j);
      PickSameMultiset(s, Without<nat>(p, 0), Without<nat>(q, j));
    }
  }

  lemma PlaceOf<T>(q: seq<T>, x: T) returns (j: nat)
    requires x in multiset(q)
    ensures j < |q| && q[j] == x
  {
    j :| 0 <= j < |q| && q[j] == x;
  }

  /** Picking along a permutation only reorders. */
  lemma PickPermuted<T>(s: seq<T>, p: seq<nat>)
    requires IsPermutation(p, |s|)
    ensures forall i :: 0 <= i < |p| ==> p[i] < |s|
    ensures multiset(Pick(s, p)) == multiset(s)
  {
    PermutationEntries(p, |s|);
    forall i | 0 <= i < |p| ensures p[i] < |s| {
      assert p[i] in p;
    }
    PickSameMultiset(s, p, Range(|s|));
    assert Pick(s, Range(|s|)) == s;
  }

  lemma SliceOfSlice<T>(s: seq<T>, lo: nat, hi: nat, k: nat, n: nat)
    requires lo <= hi <= |s| && k <= n <= hi - lo
    ensures s[lo..hi][k..n] == s[lo + k..lo + n]
  {
    var t := s[lo..hi];
    forall i | 0 <= i < n - k ensures t[k..n][i] == s[lo + k..lo + n][i] {
      assert t[k..n][i] == t[k + i];
      assert t[k + i] == s[lo + (k + i)];
    }
  }

  lemma {:induction false} SumOfFlatten<T>(f: T -> real, ss: seq<seq<T>>)
    ensures SumOf(f, Flatten(ss)) == Sum(Map((s: seq<T>) => SumOf(f, s), ss))
  {
    if ss != [] {
      SumOfFlatten(f, ss[1..]);
      SumOfConcat(f, ss[0], Flatten(ss[1..]));
      assert Map((s: seq<T>) => SumOf(f, s), ss)[1..] == Map((s: seq<T>) => SumOf(f, s), ss[1..]);
    }
  }

  /** Only block `j` has a sum. */
  lemma SumOfFlattenSingle<T>(f: T -> real, ss: seq<seq<T>>, j: nat)
    requires j < |ss| && forall i :: 0 <= i < |ss| && i != j ==> SumOf(f, ss[i]) == 0.0
    ensures SumOf(f, Flatten(ss)) == SumOf(f, ss[j])
  {
    SumOfFlatten(f, ss);
    SumSingle(Map((s: seq<T>) => SumOf(f, s), ss), j);
  }

  /** Joining two lists of blocks pairwise keeps all entries. */
  lemma {:induction false} FlattenJoined<T>(x: seq<seq<T>>, y: seq<seq<T>>, z: seq<seq<T>>)
    requires |x| == |y| == |z|
    requires forall i :: 0 <= i < |x| ==> z[i] == x[i] + y[i]
    ensures multiset(Flatten(z)) == multiset(Flatten(x)) + multiset(Flatten(y))
  {
    if x != [] {
      FlattenJoined(x[1..], y[1..], z[1..]);
    }
  }

  function Column<T>(blocks: seq<seq<seq<T>>>, i: nat): (r: seq<seq<T>>)
    requires forall k :: 0 <= k < |blocks| ==> i < |blocks[k]|
    ensures |r| == |blocks| && forall k :: 0 <= k < |blocks| ==> r[k] == blocks[k][i]
  {
    seq(|blocks|, k requires 0 <= k < |blocks| => blocks[k][i])
  }

  /** Reading a table of blocks by columns or by rows gives the same entries. */
  lemma {:induction false} RowsAndColumns<T>(blocks: seq<seq<seq<T>>>, w: nat, columns: seq<seq<T>>, rows: seq<seq<T>>)
    requires forall k :: 0 <= k < |blocks| ==> |blocks[k]| == w
    requires |columns| == w && forall i :: 0 <= i < w ==> columns[i] == Flatten(Column(blocks, i))
    requires |rows| == |blocks| && forall k :: 0 <= k < |rows| ==> rows[k] == Flatten(blocks[k])
    ensures multiset(Flatten(columns)) == multiset(Flatten(rows))
    decreases |blocks|
  {
    if blocks == [] {
      FlattenUniformLength(columns, 0);
    } else {
      hide *;
      var m := |blocks| - 1;
      var front := blocks[..m];
      var frontColumns := Columns(front, w);
      RowsAndColumns(front, w, frontColumns, rows[..m]);
      forall i | 0 <= i < w ensures columns[i] == frontColumns[i] + blocks[m][i] {
        ColumnAppend(blocks, i);
      }
      FlattenJoined(frontColumns, blocks[m], columns);
      assert rows == rows[..m] + [rows[m]];
      FlattenAppend(rows[..m], rows[m]);
    }
  }

  function Columns<T>(blocks: seq<seq<seq<T>>>, w: nat): (r: seq<seq<T>>)
    requires forall k :: 0 <= k < |blocks| ==> |blocks[k]| == w
    ensures |r| == w && forall i :: 0 <= i < w ==> r[i] == Flatten(Column(blocks, i))
  {
    seq(w, i requires 0 <= i < w => Flatten(Column(blocks, i)))
  }

  lemma ColumnAppend<T>(blocks: seq<seq<seq<T>>>, i: nat)
    requires blocks != [] && forall k :: 0 <= k < |blocks| ==> i < |blocks[k]|
    ensures var m := |blocks| - 1; Flatten(Column(blocks, i)) == Flatten(Column(blocks[..m], i)) + blocks[m][i]
  {
    var m := |blocks| - 1;
    assert Column(blocks, i) == Column(blocks[..m], i) + [blocks[m][i]];
    FlattenAppend(Column(blocks[..m], i), blocks[m][i]);
  }
}
