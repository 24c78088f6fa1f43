/** Row-level cuts of a batch dimension: splitting by size, the tensor
    library's `chunk` and the array library's cut at given indices. */
module RowMaps {
  import opened Sequences

  /** Consecutive pieces of `size` rows, the last one possibly shorter. */
  function Split<T>(s: seq<T>, size: nat): (pieces: seq<seq<T>>)
    requires size > 0
    decreases |s|
  {
    if s == [] then []
    else
      var c := if |s| < size then |s| else size;
      [s[..c]] + Split(s[c..], size)
  }

  lemma {:induction false} SplitFlatten<T>(s: seq<T>, size: nat)
    requires size > 0
    ensures Flatten(Split(s, size)) == s
    ensures forall p :: p in Split(s, size) ==> 0 < |p| <= size
    decreases |s|
  {
    if s != [] {
      var c := if |s| < size then |s| else size;
      SplitFlatten(s[c..], size);
      assert Split(s, size)[1..] == Split(s[c..], size);
      assert s == s[..c] + s[c..];
    }
  }

  function CeilDiv(n: nat, k: nat): (c: nat)
    requires k > 0
    ensures n > 0 ==> c > 0
    ensures c * k >= n && (c > 0 ==> (c - 1) * k < n)
  {
    var c := (n + k - 1) / k;
    CeilDivBounds(n, k, c);
    c
  }

  lemma CeilDivBounds(n: nat, k: nat, c: nat)
    requires k > 0 && c == (n + k - 1) / k
    ensures n > 0 ==> c > 0
    ensures c * k >= n && (c > 0 ==> (c - 1) * k < n)
  {
    assert n + k - 1 == c * k + (n + k - 1) % k;
  }

  lemma CeilDivIs(n: nat, k: nat, c: nat)
    requires k > 0 && c * k >= n && (c > 0 ==> (c - 1) * k < n)
    ensures CeilDiv(n, k) == c
  {
    var d: int := CeilDiv(n, k);
    MulOrder(d, c - 1, k);
    MulOrder(c, d - 1, k);
  }

  lemma CeilDivStep(n: nat, k: nat)
    requires 0 < k < n
    ensures CeilDiv(n, k) == 1 + CeilDiv(n - k, k)
  {
    var c := CeilDiv(n - k, k);
    assert (c + 1) * k == c * k + k;
    assert c > 0;
    assert (c + 1 - 1) * k == (c - 1) * k + k;
    CeilDivIs(n, k, c + 1);
  }

  /** How many pieces a split has. */
  lemma {:induction false} SplitCount<T>(s: seq<T>, size: nat)
    requires size > 0
    ensures |Split(s, size)| == CeilDiv(|s|, size)
    decreases |s|
  {
    if |s| <= size {
      CeilDivIs(|s|, size, if s == [] then 0 else 1);
      if s != [] {
        assert s[|s|..] == [];
      }
    } else {
      SplitCount(s[size..], size);
      CeilDivStep(|s|, size);
    }
  }

  /** Pieces of ceil(n/k) rows: possibly fewer than `k` of them. An empty
      dimension yields `k` empty pieces. */
  function TorchChunk<T>(s: seq<T>, k: nat): (pieces: seq<seq<T>>)
    requires k > 0
  {
    if s == [] then seq(k, _ => []) else Split(s, CeilDiv(|s|, k))
  }

  /** The pieces between consecutive cut positions. */
  function SplitAt<T>(s: seq<T>, cuts: seq<nat>): (pieces: seq<seq<T>>)
    requires Monotone(cuts, 0, |s|)
    ensures |pieces| == |cuts| + 1
  {
    SplitFrom(s, 0, cuts)
  }

  function SplitFrom<T>(s: seq<T>, at: nat, cuts: seq<nat>): (pieces: seq<seq<T>>)
    requires Monotone(cuts, at, |s|)
    ensures |pieces| == |cuts| + 1
    decreases |cuts|
  {
    if cuts == [] then [s[at..]] else [s[at..cuts[0]]] + SplitFrom(s, cuts[0], cuts[1..])
  }

  predicate Monotone(cuts: seq<nat>, lo: nat, hi: nat): (b: bool)
    ensures b ==> lo <= hi
    decreases |cuts|
  {
    if cuts == [] then lo <= hi else lo <= cuts[0] && Monotone(cuts[1..], cuts[0], hi)
  }

  function CumSum(sizes: seq<nat>, from: nat): (r: seq<nat>)
    ensures |r| == |sizes|
  {
    if sizes == [] then [] else [from + sizes[0]] + CumSum(sizes[1..], from + sizes[0])
  }

  function Lengths<T>(pieces: seq<seq<T>>): (r: seq<nat>)
    ensures |r| == |pieces|
    ensures forall i :: 0 <= i < |pieces| ==> r[i] == |pieces[i]|
  {
    seq(|pieces|, i requires 0 <= i < |pieces| => |pieces[i]|)
  }

  /** The cut positions the batch dimension hands to the array library: the
      running totals of the piece sizes, without the last. */
  function CutsOf(sizes: seq<nat>): seq<nat>
    requires sizes != []
  {
    CumSum(sizes, 0)[..|sizes| - 1]
  }

  // ----- splitting -----

  lemma {:induction false} SplitEven<T>(s: seq<T>, size: nat, k: nat)
    requires size > 0 && |s| == k * size
    ensures |Split(s, size)| == k
    ensures forall i :: 0 <= i < k ==> |Split(s, size)[i]| == size
    decreases k
  {
    if k > 0 {
      assert |s| - size == (k - 1) * size;
      assert (k - 1) * size >= 0;
      SplitEven(s[size..], size, k - 1);
    }
  }

  /** Piece `i` of an even split is the slice that starts at `i * size`. */
  lemma SplitEvenAt<T>(s: seq<T>, size: nat, k: nat, i: nat)
    requires size > 0 && |s| == k * size && i < k
    ensures |Split(s, size)| == k
    ensures 0 <= i * size <= i * size + size <= |s|
    ensures Split(s, size)[i] == s[i * size..i * size + size]
  {
    SplitEven(s, size, k);
    SplitFlatten(s, size);
    FlattenUniform(Split(s, size), size, i);
  }

  lemma {:induction false} SplitPrefix<T>(s: seq<T>, m: nat, size: nat)
    requires size > 0 && m <= |s| && m % size == 0
    ensures Split(s, size) == Split(s[..m], size) + Split(s[m..], size)
    decreases m
  {
    if m == 0 {
      assert s[0..] == s;
    } else {
      hide *;
      MultipleStep(m, size);
      PrefixSlices(s, m, size);
      SplitPrefix(s[size..], m - size, size);
      SplitHead(s[..m], size);
      SplitHead(s, size);
      JoinHead([s[..size]], Split(s[size..m], size), Split(s[m..], size));
    }
  }

  lemma PrefixSlices<T>(s: seq<T>, m: nat, size: nat)
    requires size <= m <= |s|
    ensures s[size..][..m - size] == s[size..m] && s[size..][m - size..] == s[m..]
    ensures s[..m][..size] == s[..size] && s[..m][size..] == s[size..m]
  {
  }

  lemma JoinHead<T>(a: seq<T>, b: seq<T>, c: seq<T>)
    ensures a + (b + c) == (a + b) + c
  {
  }

  lemma SplitHead<T>(s: seq<T>, size: nat)
    requires 0 < size <= |s|
    ensures Split(s, size) == [s[..size]] + Split(s[size..], size)
  {
  }

  lemma MultipleStep(m: nat, size: nat)
    requires size > 0 && m > 0 && m % size == 0
    ensures m >= size && (m - size) % size == 0
  {
    var q := m / size;
    assert m == q * size;
    assert q >= 1;
    assert m - size == (q - 1) * size;
    assert (q - 1) * size >= 0;
    DivModUnique(q - 1, 0, size);
  }

  /** Splitting by a multiple and then by the divisor is splitting by the
      divisor: mini-batches cut into micro-batches. */
  lemma {:induction false} SplitTwice<T>(s: seq<T>, mini: nat, micro: nat)
    requires micro > 0 && mini > 0 && mini % micro == 0
    ensures Flatten(Map((m: seq<T>) => if micro > 0 then Split(m, micro) else [], Split(s, mini))) == Split(s, micro)
    decreases |s|
  {
    var f := (m: seq<T>) => if micro > 0 then Split(m, micro) else [];
    var minis := Split(s, mini);
    if s == [] {
      assert Map(f, minis) == [];
    } else {
      var c := if |s| < mini then |s| else mini;
      SplitTwice(s[c..], mini, micro);
      assert minis == [s[..c]] + Split(s[c..], mini);
      assert Map(f, minis) == [Split(s[..c], micro)] + Map(f, Split(s[c..], mini));
      assert Map(f, minis)[1..] == Map(f, Split(s[c..], mini));
      if |s| < mini {
        assert s[..c] == s && s[c..] == [];
      } else {
        SplitPrefix(s, mini, micro);
      }
    }
  }

  // ----- both libraries cut alike -----

  /** Cutting a column at the running totals of the pieces of another column
      of the same length gives pieces of the same sizes, at the same rows. */
  lemma {:induction false} SplitFromLengths<T>(s: seq<T>, at: nat, sizes: seq<nat>)
    requires sizes != [] && at + SumNat(sizes) == |s|
    ensures Monotone(CumSum(sizes, at)[..|sizes| - 1], at, |s|)
    ensures Lengths(SplitFrom(s, at, CumSum(sizes, at)[..|sizes| - 1])) == sizes
    ensures Flatten(SplitFrom(s, at, CumSum(sizes, at)[..|sizes| - 1])) == s[at..]
    decreases |sizes|
  {
    var cuts := CumSum(sizes, at)[..|sizes| - 1];
    if |sizes| == 1 {
      assert sizes[1..] == [];
      assert cuts == [];
      assert Flatten([s[at..]]) == s[at..] + Flatten([s[at..]][1..]);
    } else {
      SplitFromLengths(s, at + sizes[0], sizes[1..]);
      var rest := CumSum(sizes[1..], at + sizes[0])[..|sizes| - 2];
      assert cuts == [at + sizes[0]] + rest;
      assert cuts[1..] == rest;
      var tail := SplitFrom(s, at + sizes[0], rest);
      assert SplitFrom(s, at, cuts) == [s[at..at + sizes[0]]] + tail;
      assert ([s[at..at + sizes[0]]] + tail)[1..] == tail;
      assert s[at..] == s[at..at + sizes[0]] + s[at + sizes[0]..];
      assert Lengths(SplitFrom(s, at, cuts)) == [sizes[0]] + Lengths(tail);
      assert sizes == [sizes[0]] + sizes[1..];
    }
  }

  lemma {:induction false} SumOfLengths<T>(pieces: seq<seq<T>>)
    ensures SumNat(Lengths(pieces)) == |Flatten(pieces)|
  {
    if pieces != [] {
      assert Lengths(pieces)[1..] == Lengths(pieces[1..]);
      SumOfLengths(pieces[1..]);
    }
  }

  /** Pieces of a sequence are determined by their lengths. */
  lemma {:induction false} PiecesByLength<T>(a: seq<seq<T>>, b: seq<seq<T>>)
    requires Flatten(a) == Flatten(b) && Lengths(a) == Lengths(b)
    ensures a == b
  {
    assert |a| == |Lengths(a)| == |Lengths(b)| == |b|;
    if a != [] {
      assert |a[0]| == Lengths(a)[0] == Lengths(b)[0] == |b[0]|;
      assert a[0] == Flatten(a)[..|a[0]|] == Flatten(b)[..|b[0]|] == b[0];
      assert Flatten(a[1..]) == Flatten(a)[|a[0]|..];
      assert Flatten(b[1..]) == Flatten(b)[|b[0]|..];
      assert Lengths(a[1..]) == Lengths(a)[1..];
      assert Lengths(b[1..]) == Lengths(b)[1..];
      PiecesByLength(a[1..], b[1..]);
      assert a == [a[0]] + a[1..];
      assert b == [b[0]] + b[1..];
    }
  }
}
