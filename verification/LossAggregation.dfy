/** Aggregating a loss matrix into a scalar, and accumulating it over the
    micro-batches of a mini-batch. */
module LossAggregation {
  import opened Sequences
  import opened RowMaps

  /** One row of the loss matrix and of its mask. */
  datatype Row = Row(loss: seq<real>, mask: seq<real>) {
    ghost predicate Valid(width: nat) {
      |loss| == |mask| == width
    }
  }

  datatype Mode = TokenMean | SeqMeanTokenSum | SeqMeanTokenMean | SeqMeanTokenSumNorm

  const EPSILON: real := 0.00000001

  function Dot(a: seq<real>, b: seq<real>): real
    requires |a| == |b|
  {
    if a == [] then 0.0 else a[0] * b[0] + Dot(a[1..], b[1..])
  }

  /** The masked sum of a row. */
  function TokenSum(row: Row): real {
    if |row.loss| == |row.mask| then Dot(row.loss, row.mask) else 0.0
  }

  function MaskSum(row: Row): real {
    Sum(row.mask)
  }

  /** The masked mean of a row (0 for a row without valid tokens, which the
      tensor library would leave undefined). */
  function TokenMeanOf(row: Row): real {
    if MaskSum(row) == 0.0 then 0.0 else TokenSum(row) / MaskSum(row)
  }

  function Mean(f: Row -> real, rows: seq<Row>): real
    requires rows != []
  {
    SumOf(f, rows) / |rows| as real
  }

  /** The row losses that a sequence-mean mode averages. */
  function RowLoss(mode: Mode): Row -> real {
    if mode == SeqMeanTokenMean then TokenMeanOf else TokenSum
  }

  /** `rows` have one positive width, and masks sum to a positive number where
      a mode divides by them. */
  ghost predicate Defined(rows: seq<Row>, width: nat, mode: Mode) {
    && rows != [] && width > 0
    && (forall r :: r in rows ==> r.Valid(width))
    && (mode == SeqMeanTokenMean ==> forall r :: r in rows ==> MaskSum(r) != 0.0)
    && (mode == TokenMean ==> SumOf(MaskSum, rows) + EPSILON != 0.0)
  }

  function Aggregated(rows: seq<Row>, width: nat, mode: Mode): real
    requires rows != [] && width > 0 && (mode == TokenMean ==> SumOf(MaskSum, rows) + EPSILON != 0.0)
  {
    match mode
    case TokenMean => SumOf(TokenSum, rows) / (SumOf(MaskSum, rows) + EPSILON)
    case SeqMeanTokenSum => Mean(TokenSum, rows)
    case SeqMeanTokenMean => Mean(TokenMeanOf, rows)
    case SeqMeanTokenSumNorm => SumOf(TokenSum, rows) / width as real
  }

  // ----- accumulation over micro-batches -----

  /** The scale of a micro-batch: its share of the configured mini-batch size
      when micro-batches are cut by token count, and otherwise one over the
      configured number of equal micro-batches. */
  function ScaleFactor(dynamic: bool, rows: nat, mini: nat, micro: nat): real
    requires mini > 0 && (!dynamic ==> 0 < micro <= mini)
  {
    if dynamic then rows as real / mini as real
    else
      QuotientPositive(mini, micro);
      1.0 / (mini / micro) as real
  }

  lemma QuotientPositive(mini: nat, micro: nat)
    requires 0 < micro <= mini
    ensures mini / micro > 0
  {
    var q := mini / micro;
    assert mini == q * micro + mini % micro;
    assert q <= 0 ==> q * micro <= 0;
  }

  ghost predicate AllDefined(pieces: seq<seq<Row>>, width: nat, mode: Mode) {
    forall i :: 0 <= i < |pieces| ==> Defined(pieces[i], width, mode)
  }

  function ScaledLoss(piece: seq<Row>, width: nat, mode: Mode, scale: real): real
    requires piece != [] && width > 0 && (mode == TokenMean ==> SumOf(MaskSum, piece) + EPSILON != 0.0)
  {
    Aggregated(piece, width, mode) * scale
  }

  ghost function ScaledLosses(pieces: seq<seq<Row>>, width: nat, mode: Mode, dynamic: bool, mini: nat, micro: nat): (r: seq<real>)
    requires mini > 0 && (!dynamic ==> 0 < micro <= mini) && width > 0 && AllDefined(pieces, width, mode)
    ensures |r| == |pieces|
  {
    seq(|pieces|, i requires 0 <= i < |pieces| =>
      assert Defined(pieces[i], width, mode);
      ScaledLoss(pieces[i], width, mode, ScaleFactor(dynamic, |pieces[i]|, mini, micro)))
  }

  /** The accumulated loss of a mini-batch: the scaled losses of its
      micro-batches, added up as their gradients are. */
  method AccumulateLoss(pieces: seq<seq<Row>>, width: nat, mode: Mode, dynamic: bool, mini: nat, micro: nat) returns (total: real)
    requires mini > 0 && (!dynamic ==> 0 < micro <= mini) && width > 0 && AllDefined(pieces, width, mode)
    ensures total == Sum(ScaledLosses(pieces, width, mode, dynamic, mini, micro))
  {
    ghost var terms := ScaledLosses(pieces, width, mode, dynamic, mini, micro);
    total := 0.0;
    for i := 0 to |pieces|
      invariant total == Sum(terms[..i])
    {
      assert Defined(pieces[i], width, mode);
      var scale := ScaleFactor(dynamic, |pieces[i]|, mini, micro);
      SumAppend(terms, i);
      total := total + ScaledLoss(pieces[i], width, mode, scale);
    }
    assert terms[..|pieces|] == terms;
  }

  predicate IsSeqMean(mode: Mode) {
    mode == SeqMeanTokenSum || mode == SeqMeanTokenMean
  }

  lemma ScaledShare(a: real, k: real, m: real)
    requires k != 0.0 && m != 0.0
    ensures a / k * (k / m) == a / m
  {
  }

  lemma {:induction false} SumOfShares(f: Row -> real, pieces: seq<seq<Row>>, terms: seq<real>, m: real)
    requires m != 0.0 && |terms| == |pieces|
    requires forall i :: 0 <= i < |pieces| ==> terms[i] == SumOf(f, pieces[i]) / m
    ensures Sum(terms) == SumOf(f, Flatten(pieces)) / m
  {
    if pieces != [] {
      SumOfShares(f, pieces[1..], terms[1..], m);
      SumOfConcat(f, pieces[0], Flatten(pieces[1..]));
      DivideSum(SumOf(f, pieces[0]), SumOf(f, Flatten(pieces[1..])), m);
    }
  }

  lemma ShareOfPiece(piece: seq<Row>, width: nat, mode: Mode, mini: nat, scale: real)
    requires piece != [] && width > 0 && mini > 0 && IsSeqMean(mode)
    requires scale == |piece| as real / mini as real
    ensures ScaledLoss(piece, width, mode, scale) == SumOf(RowLoss(mode), piece) / mini as real
  {
    hide *;
    ScaledLossIs(piece, width, mode, scale);
    AggregatedIsMean(piece, width, mode);
    ScaledShare(SumOf(RowLoss(mode), piece), |piece| as real, mini as real);
  }

  lemma ScaledLossIs(piece: seq<Row>, width: nat, mode: Mode, scale: real)
    requires piece != [] && width > 0 && IsSeqMean(mode)
    ensures ScaledLoss(piece, width, mode, scale) == Aggregated(piece, width, mode) * scale
  {
    hide Aggregated;
  }

  lemma AggregatedIsMean(piece: seq<Row>, width: nat, mode: Mode)
    requires piece != [] && width > 0 && IsSeqMean(mode)
    ensures Aggregated(piece, width, mode) == SumOf(RowLoss(mode), piece) / |piece| as real
  {
    hide SumOf;
  }

  /** The rows of a micro-batch weigh the same whatever micro-batch they are
      in: the accumulated loss is the row sum over the configured size. */
  lemma AccumulatedIsRowSum(pieces: seq<seq<Row>>, rows: seq<Row>, width: nat, mode: Mode, dynamic: bool, mini: nat, micro: nat)
    requires mini > 0 && (!dynamic ==> 0 < micro <= mini) && width > 0 && IsSeqMean(mode)
    requires AllDefined(pieces, width, mode)
    requires multiset(Flatten(pieces)) == multiset(rows)
    requires forall i :: 0 <= i < |pieces| ==>
               ScaleFactor(dynamic, |pieces[i]|, mini, micro) == |pieces[i]| as real / mini as real
    ensures Sum(ScaledLosses(pieces, width, mode, dynamic, mini, micro)) == SumOf(RowLoss(mode), rows) / mini as real
  {
    var terms := ScaledLosses(pieces, width, mode, dynamic, mini, micro);
    forall i | 0 <= i < |pieces| ensures terms[i] == SumOf(RowLoss(mode), pieces[i]) / mini as real {
      assert Defined(pieces[i], width, mode);
      ShareOfPiece(pieces[i], width, mode, mini, ScaleFactor(dynamic, |pieces[i]|, mini, micro));
    }
    SumOfShares(RowLoss(mode), pieces, terms, mini as real);
    SumOfPermuted(RowLoss(mode), Flatten(pieces), rows);
  }

  /** The share `k / m` of a loss is the loss exactly when the share is whole
      or the loss is 0. */
  lemma WholeShare(rows: seq<Row>, width: nat, mode: Mode, mini: nat)
    requires mini > 0 && rows != [] && width > 0 && IsSeqMean(mode)
    ensures ScaledLoss(rows, width, mode, |rows| as real / mini as real) == Aggregated(rows, width, mode)
      <==> (|rows| == mini || Aggregated(rows, width, mode) == 0.0)
  {
    ShareIsOne(Aggregated(rows, width, mode), |rows|, mini);
  }

  lemma PiecesDefined(pieces: seq<seq<Row>>, rows: seq<Row>, width: nat, mode: Mode)
    requires Defined(rows, width, mode) && IsSeqMean(mode)
    requires forall i :: 0 <= i < |pieces| ==> pieces[i] != []
    requires multiset(Flatten(pieces)) == multiset(rows)
    ensures AllDefined(pieces, width, mode)
  {
    forall i, r | 0 <= i < |pieces| && r in pieces[i] ensures r in rows {
      FlattenMembers(pieces, r);
      assert r in multiset(Flatten(pieces));
    }
  }

  /** Micro-batches cut by token count: the accumulated loss is the whole
      mini-batch's loss times its share of the configured size, so it is the
      whole loss exactly when the mini-batch is full or its loss is 0. */
  lemma DynamicAccumulation(pieces: seq<seq<Row>>, rows: seq<Row>, width: nat, mode: Mode, mini: nat)
    requires mini > 0 && Defined(rows, width, mode) && IsSeqMean(mode)
    requires forall i :: 0 <= i < |pieces| ==> pieces[i] != []
    requires multiset(Flatten(pieces)) == multiset(rows)
    ensures AllDefined(pieces, width, mode)
    ensures Sum(ScaledLosses(pieces, width, mode, true, mini, 0)) == ScaledLoss(rows, width, mode, |rows| as real / mini as real)
    ensures Sum(ScaledLosses(pieces, width, mode, true, mini, 0)) == Aggregated(rows, width, mode)
      <==> (|rows| == mini || Aggregated(rows, width, mode) == 0.0)
  {
    PiecesDefined(pieces, rows, width, mode);
    AccumulatedIsRowSum(pieces, rows, width, mode, true, mini, 0);
    ShareOfPiece(rows, width, mode, mini, |rows| as real / mini as real);
    WholeShare(rows, width, mode, mini);
  }

  /** Equal micro-batches: the same, for a mini-batch of whole micro-batches. */
  lemma EqualAccumulation(rows: seq<Row>, width: nat, mode: Mode, mini: nat, micro: nat)
    requires 0 < micro <= mini && mini % micro == 0 && |rows| % micro == 0
    requires Defined(rows, width, mode) && IsSeqMean(mode)
    ensures AllDefined(Split(rows, micro), width, mode)
    ensures Sum(ScaledLosses(Split(rows, micro), width, mode, false, mini, micro)) == ScaledLoss(rows, width, mode, |rows| as real / mini as real)
    ensures Sum(ScaledLosses(Split(rows, micro), width, mode, false, mini, micro)) == Aggregated(rows, width, mode)
      <==> (|rows| == mini || Aggregated(rows, width, mode) == 0.0)
  {
    var pieces := Split(rows, micro);
    SplitFlatten(rows, micro);
    ExactQuotient(|rows|, micro);
    SplitEven(rows, micro, |rows| / micro);
    EqualScale(mini, micro);
    PiecesDefined(pieces, rows, width, mode);
    AccumulatedIsRowSum(pieces, rows, width, mode, false, mini, micro);
    ShareOfPiece(rows, width, mode, mini, |rows| as real / mini as real);
    WholeShare(rows, width, mode, mini);
  }

  lemma EqualScale(mini: nat, micro: nat)
    requires 0 < micro <= mini && mini % micro == 0
    ensures ScaleFactor(false, micro, mini, micro) == micro as real / mini as real
  {
    ExactQuotient(mini, micro);
    QuotientPositive(mini, micro);
    var q := mini / micro;
    assert mini as real == q as real * micro as real;
  }

  lemma ShareIsOne(x: real, k: nat, m: nat)
    requires m > 0
    ensures x * (k as real / m as real) == x <==> k == m || x == 0.0
  {
    var q := k as real / m as real;
    assert q * m as real == k as real;
    if x * q == x && x != 0.0 {
      assert x * (q - 1.0) == 0.0;
      assert q == 1.0;
    }
  }

  lemma {:induction false} SumOfScaled(pieces: seq<seq<Row>>, terms: seq<real>, width: nat, scale: real)
    requires width > 0 && |terms| == |pieces|
    requires forall i :: 0 <= i < |pieces| ==> pieces[i] != [] && terms[i] == ScaledLoss(pieces[i], width, SeqMeanTokenSumNorm, scale)
    ensures Sum(terms) == SumOf(TokenSum, Flatten(pieces)) / width as real * scale
  {
    if pieces != [] {
      SumOfScaled(pieces[1..], terms[1..], width, scale);
      SumOfConcat(TokenSum, pieces[0], Flatten(pieces[1..]));
      var a, b := SumOf(TokenSum, pieces[0]), SumOf(TokenSum, Flatten(pieces[1..]));
      DivideSum(a, b, width as real);
      Distribute(a / width as real, b / width as real, scale);
    }
  }

  lemma Distribute(a: real, b: real, c: real)
    ensures (a + b) * c == a * c + b * c
  {
  }

  lemma SplitDefined(rows: seq<Row>, width: nat, micro: nat)
    requires micro > 0 && Defined(rows, width, SeqMeanTokenSumNorm)
    ensures AllDefined(Split(rows, micro), width, SeqMeanTokenSumNorm)
  {
    var pieces := Split(rows, micro);
    SplitFlatten(rows, micro);
    forall i, r | 0 <= i < |pieces| && r in pieces[i] ensures r in rows {
      FlattenMembers(pieces, r);
    }
    forall i | 0 <= i < |pieces| ensures Defined(pieces[i], width, SeqMeanTokenSumNorm) {
      assert pieces[i] in pieces;
    }
  }

  lemma QuotientIsOne(mini: nat, micro: nat)
    requires 0 < micro <= mini && mini % micro == 0
    ensures mini / micro > 0 && (mini / micro == 1 <==> mini == micro)
  {
    ExactQuotient(mini, micro);
    QuotientPositive(mini, micro);
    var q := mini / micro;
    assert q >= 2 ==> q * micro >= 2 * micro;
  }

  lemma EqualScales(pieces: seq<seq<Row>>, width: nat, mini: nat, micro: nat, scale: real)
    requires 0 < micro <= mini && width > 0 && AllDefined(pieces, width, SeqMeanTokenSumNorm)
    requires scale == ScaleFactor(false, 0, mini, micro)
    ensures forall i :: 0 <= i < |pieces| ==>
              pieces[i] != [] && ScaledLosses(pieces, width, SeqMeanTokenSumNorm, false, mini, micro)[i]
                == ScaledLoss(pieces[i], width, SeqMeanTokenSumNorm, scale)
  {
    forall i | 0 <= i < |pieces| ensures pieces[i] != [] {
      assert Defined(pieces[i], width, SeqMeanTokenSumNorm);
    }
  }

  lemma SumNormTotal(rows: seq<Row>, width: nat, mini: nat, micro: nat)
    requires 0 < micro <= mini && rows != [] && width > 0
    requires AllDefined(Split(rows, micro), width, SeqMeanTokenSumNorm)
    ensures Sum(ScaledLosses(Split(rows, micro), width, SeqMeanTokenSumNorm, false, mini, micro))
      == ScaledLoss(rows, width, SeqMeanTokenSumNorm, ScaleFactor(false, 0, mini, micro))
  {
    hide *;
    SumNormLoss(rows, width, ScaleFactor(false, 0, mini, micro));
    var pieces, scale := Split(rows, micro), ScaleFactor(false, 0, mini, micro);
    SplitFlatten(rows, micro);
    EqualScales(pieces, width, mini, micro, scale);
    SumOfScaled(pieces, ScaledLosses(pieces, width, SeqMeanTokenSumNorm, false, mini, micro), width, scale);
  }

  lemma SumNormLoss(rows: seq<Row>, width: nat, scale: real)
    requires width > 0 && rows != []
    ensures ScaledLoss(rows, width, SeqMeanTokenSumNorm, scale) == SumOf(TokenSum, rows) / width as real * scale
  {
    hide SumOf;
  }

  /** The mode that divides by a fixed width is not a mean over rows: equal
      micro-batches accumulate one over their number of the whole loss, which
      is the whole loss only for a single micro-batch or a loss of 0. */
  lemma SumNormAccumulation(rows: seq<Row>, width: nat, mini: nat, micro: nat)
    requires 0 < micro <= mini && mini % micro == 0
    requires Defined(rows, width, SeqMeanTokenSumNorm)
    ensures AllDefined(Split(rows, micro), width, SeqMeanTokenSumNorm)
    ensures Sum(ScaledLosses(Split(rows, micro), width, SeqMeanTokenSumNorm, false, mini, micro)) == Aggregated(rows, width, SeqMeanTokenSumNorm)
      <==> (mini == micro || Aggregated(rows, width, SeqMeanTokenSumNorm) == 0.0)
  {
    SplitDefined(rows, width, micro);
    QuotientIsOne(mini, micro);
    SumNormTotal(rows, width, mini, micro);
    InverseIsOne(Aggregated(rows, width, SeqMeanTokenSumNorm), mini / micro);
  }

  lemma InverseIsOne(x: real, q: nat)
    requires q > 0
    ensures x * (1.0 / q as real) == x <==> q == 1 || x == 0.0
  {
    ShareIsOne(x, 1, q);
  }

  // ----- when the losses of given micro-batches add up -----

  /** What a mode divides the sum of its row losses by. */
  function Denominator(rows: seq<Row>, width: nat, mode: Mode): real {
    match mode
    case TokenMean => SumOf(MaskSum, rows) + EPSILON
    case SeqMeanTokenSum => |rows| as real
    case SeqMeanTokenMean => |rows| as real
    case SeqMeanTokenSumNorm => width as real
  }

  lemma AggregatedIsQuotient(rows: seq<Row>, width: nat, mode: Mode)
    requires Defined(rows, width, mode)
    ensures Denominator(rows, width, mode) != 0.0
    ensures Aggregated(rows, width, mode) == SumOf(RowLoss(mode), rows) / Denominator(rows, width, mode)
  {
    hide SumOf;
  }

  /** The order of the rows does not matter to the loss. */
  lemma AggregatedPermuted(rows: seq<Row>, other: seq<Row>, width: nat, mode: Mode)
    requires Defined(rows, width, mode) && multiset(rows) == multiset(other)
    ensures Defined(other, width, mode)
    ensures Aggregated(other, width, mode) == Aggregated(rows, width, mode)
  {
    assert |rows| == |multiset(rows)| && |other| == |multiset(other)|;
    forall r | r in other ensures r in rows {
      assert r in multiset(other);
    }
    SumOfPermuted(MaskSum, rows, other);
    SumOfPermuted(RowLoss(mode), rows, other);
    AggregatedIsQuotient(rows, width, mode);
    AggregatedIsQuotient(other, width, mode);
  }

  /** Rows of the same shapes and masks, with whatever losses. */
  ghost predicate SameRowMasks(rows: seq<Row>, other: seq<Row>) {
    && |other| == |rows|
    && forall j :: 0 <= j < |rows| ==> other[j].mask == rows[j].mask && |other[j].loss| == |rows[j].loss|
  }

  ghost predicate SameMasks(pieces: seq<seq<Row>>, other: seq<seq<Row>>) {
    |other| == |pieces| && forall i :: 0 <= i < |pieces| ==> SameRowMasks(pieces[i], other[i])
  }

  ghost predicate HasToken(row: Row) {
    exists t :: 0 <= t < |row.mask| && row.mask[t] != 0.0
  }

  /** Some mask entry of the rows is not 0. */
  ghost predicate HasTokens(rows: seq<Row>) {
    exists j :: 0 <= j < |rows| && HasToken(rows[j])
  }

  /** Whatever the losses are, the scaled losses of micro-batches with these
      masks add up to the loss of all their rows. */
  ghost predicate Accumulates(pieces: seq<seq<Row>>, width: nat, mode: Mode, dynamic: bool, mini: nat, micro: nat)
    requires mini > 0 && (!dynamic ==> 0 < micro <= mini) && width > 0
  {
    forall other :: SameMasks(pieces, other) ==> AddsUp(other, width, mode, dynamic, mini, micro)
  }

  ghost predicate AddsUp(pieces: seq<seq<Row>>, width: nat, mode: Mode, dynamic: bool, mini: nat, micro: nat)
    requires mini > 0 && (!dynamic ==> 0 < micro <= mini) && width > 0
  {
    && AllDefined(pieces, width, mode) && Defined(Flatten(pieces), width, mode)
    && Sum(ScaledLosses(pieces, width, mode, dynamic, mini, micro)) == Aggregated(Flatten(pieces), width, mode)
  }

  /** A micro-batch's scale is its share of the divisor. */
  ghost predicate FairScale(pieces: seq<seq<Row>>, i: nat, width: nat, mode: Mode, dynamic: bool, mini: nat, micro: nat)
    requires mini > 0 && (!dynamic ==> 0 < micro <= mini) && i < |pieces|
  {
    ScaleFactor(dynamic, |pieces[i]|, mini, micro) * Denominator(Flatten(pieces), width, mode) == Denominator(pieces[i], width, mode)
  }

  lemma {:induction false} SameMaskSums(rows: seq<Row>, other: seq<Row>)
    requires SameRowMasks(rows, other)
    ensures SumOf(MaskSum, other) == SumOf(MaskSum, rows)
  {
    if rows != [] {
      assert SameRowMasks(rows[1..], other[1..]);
      SameMaskSums(rows[1..], other[1..]);
      assert other[0].mask == rows[0].mask;
    }
  }

  lemma SameDenominator(rows: seq<Row>, other: seq<Row>, width: nat, mode: Mode)
    requires SameRowMasks(rows, other)
    ensures Denominator(other, width, mode) == Denominator(rows, width, mode)
  {
    SameMaskSums(rows, other);
  }

  lemma SameDefined(rows: seq<Row>, other: seq<Row>, width: nat, mode: Mode)
    requires SameRowMasks(rows, other) && Defined(rows, width, mode)
    ensures Defined(other, width, mode)
  {
    SameMaskSums(rows, other);
    forall r | r in other ensures r.Valid(width) && (mode == SeqMeanTokenMean ==> MaskSum(r) != 0.0) {
      var j :| 0 <= j < |other| && other[j] == r;
      assert rows[j] in rows && r.mask == rows[j].mask;
    }
  }

  lemma {:induction false} SameFlattened(pieces: seq<seq<Row>>, other: seq<seq<Row>>)
    requires SameMasks(pieces, other)
    ensures SameRowMasks(Flatten(pieces), Flatten(other))
  {
    if pieces != [] {
      assert SameRowMasks(pieces[0], other[0]);
      SameFlattened(pieces[1..], other[1..]);
    }
  }

  lemma SamePiecesDefined(pieces: seq<seq<Row>>, other: seq<seq<Row>>, width: nat, mode: Mode)
    requires SameMasks(pieces, other)
    requires AllDefined(pieces, width, mode) && Defined(Flatten(pieces), width, mode)
    ensures AllDefined(other, width, mode) && Defined(Flatten(other), width, mode)
  {
    forall i | 0 <= i < |other| ensures Defined(other[i], width, mode) {
      assert Defined(pieces[i], width, mode);
      SameDefined(pieces[i], other[i], width, mode);
    }
    SameFlattened(pieces, other);
    SameDefined(Flatten(pieces), Flatten(other), width, mode);
  }

  lemma {:induction false} DotWithZero(a: seq<real>, b: seq<real>)
    requires |a| == |b|
    requires (forall t :: 0 <= t < |a| ==> a[t] == 0.0) || forall t :: 0 <= t < |b| ==> b[t] == 0.0
    ensures Dot(a, b) == 0.0
  {
    if a != [] {
      DotWithZero(a[1..], b[1..]);
    }
  }

  function Sign(x: real): real {
    if x > 0.0 then 1.0 else if x < 0.0 then -1.0 else 0.0
  }

  function Signs(a: seq<real>): (r: seq<real>)
    ensures |r| == |a|
  {
    if a == [] then [] else [Sign(a[0])] + Signs(a[1..])
  }

  lemma {:induction false} DotWithSigns(a: seq<real>)
    ensures Dot(Signs(a), a) >= 0.0
    ensures (exists t :: 0 <= t < |a| && a[t] != 0.0) ==> Dot(Signs(a), a) > 0.0
  {
    if a != [] {
      DotWithSigns(a[1..]);
      SignTimes(a[0]);
      assert Dot(Signs(a), a) == Sign(a[0]) * a[0] + Dot(Signs(a[1..]), a[1..]);
      hide *;
      if t :| 0 <= t < |a| && a[t] != 0.0 && t > 0 {
        assert a[1..][t - 1] != 0.0;
      }
    }
  }

  lemma SignTimes(x: real)
    ensures Sign(x) * x >= 0.0 && (x != 0.0 ==> Sign(x) * x > 0.0)
  {
  }

  lemma {:induction false} MaskedOut(rows: seq<Row>, mode: Mode)
    requires !HasTokens(rows)
    ensures SumOf(RowLoss(mode), rows) == 0.0
  {
    if rows != [] {
      assert !HasToken(rows[0]);
      if |rows[0].loss| == |rows[0].mask| {
        DotWithZero(rows[0].loss, rows[0].mask);
      }
      assert !HasTokens(rows[1..]) by {
        assert forall j :: 0 <= j < |rows[1..]| ==> rows[1..][j] == rows[j + 1];
      }
      MaskedOut(rows[1..], mode);
    }
  }

  lemma SameTokens(rows: seq<Row>, other: seq<Row>)
    requires SameRowMasks(rows, other) && !HasTokens(rows)
    ensures !HasTokens(other)
  {
    forall j | 0 <= j < |other| ensures !HasToken(other[j]) {
      assert !HasToken(rows[j]) && other[j].mask == rows[j].mask;
    }
  }

  lemma FairTerm(x: real, d: real, s: real, whole: real)
    requires d != 0.0 && whole != 0.0
    requires x == 0.0 || s * whole == d
    ensures x / d * s == x / whole
  {
    if x != 0.0 {
      var y := x / d;
      assert y * d == x;
      assert y * s * whole == y * (s * whole);
    }
  }

  lemma UnfairTerm(x: real, d: real, s: real, whole: real)
    requires d != 0.0 && whole != 0.0 && x != 0.0 && x / d * s == x / whole
    ensures s * whole == d
  {
    var y := x / d;
    assert y * d == x && y != 0.0;
    assert y * s * whole == x;
    assert y * (s * whole) == y * d;
  }

  lemma TermIs(pieces: seq<seq<Row>>, i: nat, width: nat, mode: Mode, dynamic: bool, mini: nat, micro: nat)
    requires mini > 0 && (!dynamic ==> 0 < micro <= mini) && width > 0 && AllDefined(pieces, width, mode) && i < |pieces|
    ensures Denominator(pieces[i], width, mode) != 0.0
    ensures ScaledLosses(pieces, width, mode, dynamic, mini, micro)[i]
      == SumOf(RowLoss(mode), pieces[i]) / Denominator(pieces[i], width, mode) * ScaleFactor(dynamic, |pieces[i]|, mini, micro)
  {
    hide *;
    PieceDefined(pieces, i, width, mode);
    AggregatedIsQuotient(pieces[i], width, mode);
    ScaledLossAt(pieces, i, width, mode, dynamic, mini, micro);
  }

  lemma PieceDefined(pieces: seq<seq<Row>>, i: nat, width: nat, mode: Mode)
    requires AllDefined(pieces, width, mode) && i < |pieces|
    ensures Defined(pieces[i], width, mode) && Aggregated.requires(pieces[i], width, mode)
  {
    hide SumOf, Aggregated;
  }

  lemma ScaledLossAt(pieces: seq<seq<Row>>, i: nat, width: nat, mode: Mode, dynamic: bool, mini: nat, micro: nat)
    requires mini > 0 && (!dynamic ==> 0 < micro <= mini) && width > 0 && AllDefined(pieces, width, mode) && i < |pieces|
    requires Aggregated.requires(pieces[i], width, mode)
    ensures ScaledLosses(pieces, width, mode, dynamic, mini, micro)[i]
      == Aggregated(pieces[i], width, mode) * ScaleFactor(dynamic, |pieces[i]|, mini, micro)
  {
    hide Aggregated, ScaleFactor, SumOf, AllDefined;
  }

  /** Fair scales of the micro-batches with tokens are enough. */
  lemma FairAddsUp(pieces: seq<seq<Row>>, other: seq<seq<Row>>, width: nat, mode: Mode, dynamic: bool, mini: nat, micro: nat)
    requires mini > 0 && (!dynamic ==> 0 < micro <= mini) && width > 0 && SameMasks(pieces, other)
    requires AllDefined(pieces, width, mode) && Defined(Flatten(pieces), width, mode)
    requires forall i :: 0 <= i < |pieces| && HasTokens(pieces[i]) ==> FairScale(pieces, i, width, mode, dynamic, mini, micro)
    ensures AddsUp(other, width, mode, dynamic, mini, micro)
  {
    SamePiecesDefined(pieces, other, width, mode);
    AggregatedIsQuotient(Flatten(other), width, mode);
    var whole, terms := Denominator(Flatten(other), width, mode), ScaledLosses(other, width, mode, dynamic, mini, micro);
    forall i | 0 <= i < |other| ensures terms[i] == SumOf(RowLoss(mode), other[i]) / whole {
      FairPiece(pieces, other, i, width, mode, dynamic, mini, micro);
    }
    hide *;
    SumOfShares(RowLoss(mode), other, terms, whole);
    AddsUpIs(other, width, mode, dynamic, mini, micro);
  }

  lemma AddsUpIs(pieces: seq<seq<Row>>, width: nat, mode: Mode, dynamic: bool, mini: nat, micro: nat)
    requires mini > 0 && (!dynamic ==> 0 < micro <= mini) && width > 0
    requires AllDefined(pieces, width, mode) && Defined(Flatten(pieces), width, mode)
    ensures Aggregated.requires(Flatten(pieces), width, mode)
    ensures AddsUp(pieces, width, mode, dynamic, mini, micro)
      <==> Sum(ScaledLosses(pieces, width, mode, dynamic, mini, micro)) == Aggregated(Flatten(pieces), width, mode)
  {
    hide Aggregated, ScaledLosses, Sum, SumOf, Flatten, AllDefined;
  }

  lemma FairPiece(pieces: seq<seq<Row>>, other: seq<seq<Row>>, i: nat, width: nat, mode: Mode, dynamic: bool, mini: nat, micro: nat)
    requires mini > 0 && (!dynamic ==> 0 < micro <= mini) && width > 0 && SameMasks(pieces, other) && i < |pieces|
    requires AllDefined(other, width, mode) && Denominator(Flatten(other), width, mode) != 0.0
    requires HasTokens(pieces[i]) ==> FairScale(pieces, i, width, mode, dynamic, mini, micro)
    ensures ScaledLosses(other, width, mode, dynamic, mini, micro)[i]
      == SumOf(RowLoss(mode), other[i]) / Denominator(Flatten(other), width, mode)
  {
    hide *;
    SameDenominators(pieces, other, i, width, mode);
    TermIs(other, i, width, mode, dynamic, mini, micro);
    SameSizes(pieces[i], other[i]);
    if HasTokens(pieces[i]) {
      FairScaleIs(pieces, i, width, mode, dynamic, mini, micro);
    } else {
      SameTokens(pieces[i], other[i]);
      MaskedOut(other[i], mode);
    }
    FairTerm(SumOf(RowLoss(mode), other[i]), Denominator(other[i], width, mode),
             ScaleFactor(dynamic, |other[i]|, mini, micro), Denominator(Flatten(other), width, mode));
  }

  lemma SameDenominators(pieces: seq<seq<Row>>, other: seq<seq<Row>>, i: nat, width: nat, mode: Mode)
    requires SameMasks(pieces, other) && i < |pieces|
    ensures |other| == |pieces| && SameRowMasks(pieces[i], other[i])
    ensures Denominator(other[i], width, mode) == Denominator(pieces[i], width, mode)
    ensures Denominator(Flatten(other), width, mode) == Denominator(Flatten(pieces), width, mode)
  {
    SameFlattened(pieces, other);
    SameDenominator(pieces[i], other[i], width, mode);
    SameDenominator(Flatten(pieces), Flatten(other), width, mode);
  }

  // ----- a loss at a single row -----

  function Zeros(n: nat): seq<real> {
    seq(n, t => 0.0)
  }

  /** The row with the signs of its mask as its loss, or without any loss. */
  function Lit(row: Row, on: bool): Row {
    Row(if on then Signs(row.mask) else Zeros(|row.mask|), row.mask)
  }

  function LitRows(rows: seq<Row>, on: bool, j: nat): (r: seq<Row>)
    ensures |r| == |rows|
  {
    seq(|rows|, l requires 0 <= l < |rows| => Lit(rows[l], on && l == j))
  }

  /** Only row `j` of micro-batch `i` has losses. */
  function LitPieces(pieces: seq<seq<Row>>, i: nat, j: nat): (r: seq<seq<Row>>)
    ensures |r| == |pieces|
  {
    seq(|pieces|, k requires 0 <= k < |pieces| => LitRows(pieces[k], k == i, j))
  }

  lemma LitSameMasks(pieces: seq<seq<Row>>, i: nat, j: nat, width: nat, mode: Mode)
    requires AllDefined(pieces, width, mode)
    ensures SameMasks(pieces, LitPieces(pieces, i, j))
  {
    forall k, l | 0 <= k < |pieces| && 0 <= l < |pieces[k]| ensures |pieces[k][l].loss| == |pieces[k][l].mask| {
      assert Defined(pieces[k], width, mode) && pieces[k][l] in pieces[k];
    }
  }

  lemma LitRowLoss(row: Row, on: bool, mode: Mode)
    requires on ==> HasToken(row) && (mode == SeqMeanTokenMean ==> MaskSum(row) != 0.0)
    ensures RowLoss(mode)(Lit(row, on)) != 0.0 <==> on
  {
    DotWithZero(Zeros(|row.mask|), row.mask);
    DotWithSigns(row.mask);
  }

  lemma LitRowsLoss(rows: seq<Row>, on: bool, j: nat, mode: Mode)
    requires on ==> j < |rows| && HasToken(rows[j]) && (mode == SeqMeanTokenMean ==> MaskSum(rows[j]) != 0.0)
    ensures SumOf(RowLoss(mode), LitRows(rows, on, j)) != 0.0 <==> on
  {
    var r := LitRows(rows, on, j);
    forall l | 0 <= l < |r| ensures RowLoss(mode)(r[l]) != 0.0 <==> on && l == j {
      LitRowLoss(rows[l], on && l == j, mode);
    }
    if on {
      SumOfSingle(RowLoss(mode), r, j);
    } else {
      SumOfZero(RowLoss(mode), r);
    }
  }

  lemma LitPiecesLoss(pieces: seq<seq<Row>>, i: nat, j: nat, width: nat, mode: Mode, k: nat)
    requires AllDefined(pieces, width, mode) && i < |pieces| && j < |pieces[i]| && HasToken(pieces[i][j]) && k < |pieces|
    ensures SumOf(RowLoss(mode), LitPieces(pieces, i, j)[k]) != 0.0 <==> k == i
  {
    assert Defined(pieces[i], width, mode) && pieces[i][j] in pieces[i];
    LitRowsLoss(pieces[k], k == i, j, mode);
  }

  /** With losses at one row of micro-batch `i`, its term is all there is. */
  lemma UnfairDoesNotAddUp(pieces: seq<seq<Row>>, i: nat, j: nat, width: nat, mode: Mode, dynamic: bool, mini: nat, micro: nat)
    requires mini > 0 && (!dynamic ==> 0 < micro <= mini) && width > 0
    requires AllDefined(pieces, width, mode) && Defined(Flatten(pieces), width, mode)
    requires i < |pieces| && j < |pieces[i]| && HasToken(pieces[i][j])
    requires AddsUp(LitPieces(pieces, i, j), width, mode, dynamic, mini, micro)
    ensures FairScale(pieces, i, width, mode, dynamic, mini, micro)
  {
    hide *;
    var other := LitPieces(pieces, i, j);
    LitSameMasks(pieces, i, j, width, mode);
    SameDenominators(pieces, other, i, width, mode);
    SamePiecesDefined(pieces, other, width, mode);
    AddsUpIs(other, width, mode, dynamic, mini, micro);
    AggregatedIsQuotient(Flatten(other), width, mode);
    var f, terms := RowLoss(mode), ScaledLosses(other, width, mode, dynamic, mini, micro);
    forall k | 0 <= k < |other| ensures SumOf(f, other[k]) != 0.0 <==> k == i
    {
      LitPiecesLoss(pieces, i, j, width, mode, k);
    }
    forall k | 0 <= k < |other| && k != i ensures terms[k] == 0.0 {
      TermIs(other, k, width, mode, dynamic, mini, micro);
    }
    SumSingle(terms, i);
    SumOfFlattenSingle(f, other, i);
    TermIs(other, i, width, mode, dynamic, mini, micro);
    SameSizes(pieces[i], other[i]);
    UnfairTerm(SumOf(f, other[i]), Denominator(other[i], width, mode),
               ScaleFactor(dynamic, |other[i]|, mini, micro), Denominator(Flatten(other), width, mode));
    FairScaleIs(pieces, i, width, mode, dynamic, mini, micro);
  }

  lemma SameSizes(rows: seq<Row>, other: seq<Row>)
    requires SameRowMasks(rows, other)
    ensures |other| == |rows|
  {
  }

  lemma FairScaleIs(pieces: seq<seq<Row>>, i: nat, width: nat, mode: Mode, dynamic: bool, mini: nat, micro: nat)
    requires mini > 0 && (!dynamic ==> 0 < micro <= mini) && i < |pieces|
    ensures FairScale(pieces, i, width, mode, dynamic, mini, micro)
      <==> ScaleFactor(dynamic, |pieces[i]|, mini, micro) * Denominator(Flatten(pieces), width, mode) == Denominator(pieces[i], width, mode)
  {
    hide ScaleFactor, Denominator, Flatten;
  }

  /** For every mode and both ways of cutting: whatever the losses are, the
      scaled losses add up to the loss of the mini-batch, exactly when every
      micro-batch with a token is scaled by its share of the divisor. */
  lemma AccumulatesIff(pieces: seq<seq<Row>>, width: nat, mode: Mode, dynamic: bool, mini: nat, micro: nat)
    requires mini > 0 && (!dynamic ==> 0 < micro <= mini) && width > 0
    requires AllDefined(pieces, width, mode) && Defined(Flatten(pieces), width, mode)
    ensures Accumulates(pieces, width, mode, dynamic, mini, micro)
      <==> forall i :: 0 <= i < |pieces| && HasTokens(pieces[i]) ==> FairScale(pieces, i, width, mode, dynamic, mini, micro)
  {
    hide AllDefined, Defined, Flatten, FairScale, AddsUp, SameMasks, LitPieces, HasToken;
    if forall i :: 0 <= i < |pieces| && HasTokens(pieces[i]) ==> FairScale(pieces, i, width, mode, dynamic, mini, micro) {
      forall other | SameMasks(pieces, other) ensures AddsUp(other, width, mode, dynamic, mini, micro) {
        FairAddsUp(pieces, other, width, mode, dynamic, mini, micro);
      }
    }
    if Accumulates(pieces, width, mode, dynamic, mini, micro) {
      forall i | 0 <= i < |pieces| && HasTokens(pieces[i]) ensures FairScale(pieces, i, width, mode, dynamic, mini, micro) {
        var j :| 0 <= j < |pieces[i]| && HasToken(pieces[i][j]);
        LitSameMasks(pieces, i, j, width, mode);
        UnfairDoesNotAddUp(pieces, i, j, width, mode, dynamic, mini, micro);
      }
    }
  }

  lemma SameFactor(s: real, a: real, b: real)
    requires a == b
    ensures s * a == s * b
  {
  }

  lemma TokenDenominator(rows: seq<Row>, width: nat)
    ensures Denominator(rows, width, TokenMean) == SumOf(MaskSum, rows) + EPSILON
  {
    hide SumOf;
  }

  /** Token means add up exactly when every micro-batch with a token has the
      scale `s` with `s * (C + EPSILON) == C_i + EPSILON`, where `C_i` and `C`
      are the mask sums of the micro-batch and of the mini-batch. */
  lemma TokenMeanAccumulates(pieces: seq<seq<Row>>, width: nat, dynamic: bool, mini: nat, micro: nat)
    requires mini > 0 && (!dynamic ==> 0 < micro <= mini) && width > 0
    requires AllDefined(pieces, width, TokenMean) && Defined(Flatten(pieces), width, TokenMean)
    ensures Accumulates(pieces, width, TokenMean, dynamic, mini, micro)
      <==> forall i :: 0 <= i < |pieces| && HasTokens(pieces[i]) ==>
             ScaleFactor(dynamic, |pieces[i]|, mini, micro) * (SumOf(MaskSum, Flatten(pieces)) + EPSILON)
               == SumOf(MaskSum, pieces[i]) + EPSILON
  {
    hide *;
    AccumulatesIff(pieces, width, TokenMean, dynamic, mini, micro);
    forall i | 0 <= i < |pieces|
      ensures FairScale(pieces, i, width, TokenMean, dynamic, mini, micro)
        <==> ScaleFactor(dynamic, |pieces[i]|, mini, micro) * (SumOf(MaskSum, Flatten(pieces)) + EPSILON) == SumOf(MaskSum, pieces[i]) + EPSILON
    {
      FairScaleIs(pieces, i, width, TokenMean, dynamic, mini, micro);
      TokenDenominator(pieces[i], width);
      TokenDenominator(Flatten(pieces), width);
      SameFactor(ScaleFactor(dynamic, |pieces[i]|, mini, micro), Denominator(Flatten(pieces), width, TokenMean),
                 SumOf(MaskSum, Flatten(pieces)) + EPSILON);
    }
  }

  /** With the fixed divisor, exactly when every micro-batch with a token is
      not scaled at all: it has the configured size, or there is one equal
      micro-batch. */
  lemma SumNormAccumulates(pieces: seq<seq<Row>>, width: nat, dynamic: bool, mini: nat, micro: nat)
    requires mini > 0 && (!dynamic ==> 0 < micro <= mini) && width > 0
    requires AllDefined(pieces, width, SeqMeanTokenSumNorm) && Defined(Flatten(pieces), width, SeqMeanTokenSumNorm)
    ensures Accumulates(pieces, width, SeqMeanTokenSumNorm, dynamic, mini, micro)
      <==> forall i :: 0 <= i < |pieces| && HasTokens(pieces[i]) ==> if dynamic then |pieces[i]| == mini else mini / micro == 1
  {
    hide *;
    AccumulatesIff(pieces, width, SeqMeanTokenSumNorm, dynamic, mini, micro);
    forall i | 0 <= i < |pieces|
      ensures FairScale(pieces, i, width, SeqMeanTokenSumNorm, dynamic, mini, micro)
        <==> if dynamic then |pieces[i]| == mini else mini / micro == 1
    {
      UnscaledIsFair(pieces, i, width, dynamic, mini, micro);
    }
  }

  lemma UnscaledIsFair(pieces: seq<seq<Row>>, i: nat, width: nat, dynamic: bool, mini: nat, micro: nat)
    requires mini > 0 && (!dynamic ==> 0 < micro <= mini) && width > 0 && i < |pieces|
    ensures FairScale(pieces, i, width, SeqMeanTokenSumNorm, dynamic, mini, micro)
      <==> if dynamic then |pieces[i]| == mini else mini / micro == 1
  {
    hide *;
    FairScaleIs(pieces, i, width, SeqMeanTokenSumNorm, dynamic, mini, micro);
    FixedDenominator(pieces[i], width);
    FixedDenominator(Flatten(pieces), width);
    ScaleIsOne(Denominator(Flatten(pieces), width, SeqMeanTokenSumNorm), Denominator(pieces[i], width, SeqMeanTokenSumNorm), dynamic, |pieces[i]|, mini, micro);
  }

  lemma FixedDenominator(rows: seq<Row>, width: nat)
    ensures Denominator(rows, width, SeqMeanTokenSumNorm) == width as real
  {
  }

  lemma ScaleIsOne(x: real, d: real, dynamic: bool, rows: nat, mini: nat, micro: nat)
    requires mini > 0 && (!dynamic ==> 0 < micro <= mini) && d == x != 0.0
    ensures ScaleFactor(dynamic, rows, mini, micro) * x == d <==> if dynamic then rows == mini else mini / micro == 1
  {
    if dynamic {
      ShareIsOne(x, rows, mini);
    } else {
      QuotientPositive(mini, micro);
      InverseIsOne(x, mini / micro);
    }
  }

  /** Losses for the masks of equal micro-batches are losses for the masks of
      the rows: what adds up for all of the former does for all of the latter. */
  lemma {:induction false} SplitSameMasks(rows: seq<Row>, micro: nat, other: seq<seq<Row>>)
    requires micro > 0 && SameMasks(Split(rows, micro), other)
    ensures SameRowMasks(rows, Flatten(other)) && Split(Flatten(other), micro) == other
    decreases |rows|
  {
    if rows != [] {
      var c := if |rows| < micro then |rows| else micro;
      var pieces := Split(rows, micro);
      assert pieces[1..] == Split(rows[c..], micro) && SameRowMasks(pieces[0], other[0]);
      SplitSameMasks(rows[c..], micro, other[1..]);
      var flat := Flatten(other);
      assert flat == other[0] + Flatten(other[1..]) && |other[0]| == c;
      assert flat[..c] == other[0] && flat[c..] == Flatten(other[1..]);
      assert rows == rows[..c] + rows[c..];
    }
  }

  lemma {:induction false} SplitKeepsMasks(rows: seq<Row>, other: seq<Row>, micro: nat)
    requires micro > 0 && SameRowMasks(rows, other)
    ensures SameMasks(Split(rows, micro), Split(other, micro))
    decreases |rows|
  {
    if rows != [] {
      var c := if |rows| < micro then |rows| else micro;
      SplitKeepsMasks(rows[c..], other[c..], micro);
      assert SameRowMasks(rows[..c], other[..c]);
      assert Split(rows, micro)[1..] == Split(rows[c..], micro) && Split(other, micro)[1..] == Split(other[c..], micro);
    }
  }

  /** For equal micro-batches, adding up for all losses of the pieces is adding
      up for all losses of the rows that are cut. */
  lemma EqualMicroBatches(rows: seq<Row>, width: nat, mode: Mode, mini: nat, micro: nat)
    requires 0 < micro <= mini && width > 0
    ensures Accumulates(Split(rows, micro), width, mode, false, mini, micro)
      <==> forall other :: SameRowMasks(rows, other) ==> AddsUp(Split(other, micro), width, mode, false, mini, micro)
  {
    hide SameMasks, SameRowMasks, AddsUp, Split;
    if Accumulates(Split(rows, micro), width, mode, false, mini, micro) {
      forall other | SameRowMasks(rows, other) ensures AddsUp(Split(other, micro), width, mode, false, mini, micro) {
        SplitKeepsMasks(rows, other, micro);
      }
    }
    if forall other :: SameRowMasks(rows, other) ==> AddsUp(Split(other, micro), width, mode, false, mini, micro) {
      forall other | SameMasks(Split(rows, micro), other) ensures AddsUp(other, width, mode, false, mini, micro) {
        SplitSameMasks(rows, micro, other);
      }
    }
  }

  const FULL := Row([1.0], [1.0])
  const PAD := Row([0.0], [0.0])

  /** One row with a token and one of padding, a micro-batch each. */
  lemma PaddedPieces()
    ensures Split([FULL, PAD], 1) == [[FULL], [PAD]] && Flatten([[FULL], [PAD]]) == [FULL, PAD]
    ensures SumOf(TokenSum, [FULL]) == SumOf(TokenSum, [FULL, PAD]) == 1.0 && SumOf(TokenSum, [PAD]) == 0.0
    ensures SumOf(MaskSum, [FULL]) == SumOf(MaskSum, [FULL, PAD]) == 1.0 && SumOf(MaskSum, [PAD]) == 0.0
  {
    SplitFlatten([FULL, PAD], 1);
    SplitHead([FULL, PAD], 1);
    SplitHead([PAD], 1);
    assert [FULL, PAD][1..] == [PAD] && [PAD][1..] == [] && [FULL][1..] == [];
    assert [FULL, PAD][..1] == [FULL] && [PAD][..1] == [PAD];
    SingleRow(FULL, 1.0);
    SingleRow(PAD, 0.0);
    SumOfConcat(TokenSum, [FULL], [PAD]);
    SumOfConcat(MaskSum, [FULL], [PAD]);
    assert [FULL] + [PAD] == [FULL, PAD];
  }

  lemma SingleRow(row: Row, x: real)
    requires row == Row([x], [x])
    ensures SumOf(TokenSum, [row]) == x * x && SumOf(MaskSum, [row]) == x
  {
    assert [x][1..] == [] && [row][1..] == [];
    assert Dot([x], [x]) == x * x + Dot([], []);
    assert Sum([x]) == x + Sum([]);
  }

  /** The condition fails when micro-batches of one size hold different numbers
      of tokens: a row of padding halves the loss. */
  lemma TokenMeanDoesNotAccumulate()
    ensures var rows := [FULL, PAD];
            && Split(rows, 1) == [rows[..1], rows[1..]]
            && Defined(rows, 1, TokenMean) && AllDefined(Split(rows, 1), 1, TokenMean)
            && Aggregated(rows, 1, TokenMean) == 2.0 * Sum(ScaledLosses(Split(rows, 1), 1, TokenMean, false, 2, 1))
            && Aggregated(rows, 1, TokenMean) > 0.0
            && !Accumulates(Split(rows, 1), 1, TokenMean, false, 2, 1)
  {
    PaddedPieces();
    var rows, pieces := [FULL, PAD], [[FULL], [PAD]];
    assert rows[..1] == [FULL] && rows[1..] == [PAD];
    hide SumOf, Split, Flatten, Sum, ScaledLosses, Accumulates, AddsUp;
    assert Defined(pieces[0], 1, TokenMean) && Defined(pieces[1], 1, TokenMean) && Defined(rows, 1, TokenMean);
    PaddedTerms();
    assert FULL.mask[0] != 0.0 && HasToken(pieces[0][0]);
    assert HasTokens(pieces[0]);
    TokenMeanAccumulates(pieces, 1, false, 2, 1);
  }

  lemma PaddedTerms()
    requires AllDefined([[FULL], [PAD]], 1, TokenMean)
    ensures Sum(ScaledLosses([[FULL], [PAD]], 1, TokenMean, false, 2, 1)) == 1.0 / (1.0 + EPSILON) * (1.0 / 2.0)
  {
    PaddedPieces();
    TokenDenominator([FULL], 1);
    TokenDenominator([PAD], 1);
    hide SumOf, Denominator, ScaledLosses, Sum, AllDefined;
    assert RowLoss(TokenMean) == TokenSum;
    var terms := ScaledLosses([[FULL], [PAD]], 1, TokenMean, false, 2, 1);
    TermIs([[FULL], [PAD]], 0, 1, TokenMean, false, 2, 1);
    TermIs([[FULL], [PAD]], 1, 1, TokenMean, false, 2, 1);
    assert terms[1] == 0.0;
    assert ScaleFactor(false, 1, 2, 1) == 1.0 / 2.0;
    assert terms[0] == 1.0 / (1.0 + EPSILON) * (1.0 / 2.0);
    SumSingle(terms, 0);
    assert Sum(terms) == terms[0];
  }

  // ----- what the modes compute -----

  lemma {:induction false} KeptSums(loss: seq<real>, mask: seq<real>)
    requires |loss| == |mask| && IsMask(mask)
    ensures Dot(loss, mask) == Sum(Unmasked(loss, mask)) && Sum(mask) == |Unmasked(loss, mask)| as real
  {
    if loss != [] {
      KeptSums(loss[1..], mask[1..]);
      var kept := Unmasked(loss[1..], mask[1..]);
      assert ([loss[0]] + kept)[1..] == kept;
      assert [] + kept == kept;
    }
  }

  /** The row losses: the sum of the entries that the mask keeps, and their
      mean. */
  lemma RowLossIs(row: Row)
    requires |row.loss| == |row.mask| && IsMask(row.mask)
    ensures TokenSum(row) == Sum(Unmasked(row.loss, row.mask)) && MaskSum(row) == |Unmasked(row.loss, row.mask)| as real
    ensures Unmasked(row.loss, row.mask) != [] ==>
              TokenMeanOf(row) == Sum(Unmasked(row.loss, row.mask)) / |Unmasked(row.loss, row.mask)| as real
  {
    KeptSums(row.loss, row.mask);
  }

  /** The number of tokens that the masks keep. */
  ghost function Tokens(rows: seq<Row>): nat {
    if rows == [] then 0
    else (if |rows[0].loss| == |rows[0].mask| then |Unmasked(rows[0].loss, rows[0].mask)| else 0) + Tokens(rows[1..])
  }

  /** Every entry that a mask keeps is `c`. */
  ghost predicate Uniform(rows: seq<Row>, c: real) {
    forall r :: r in rows ==>
      |r.loss| == |r.mask| && IsMask(r.mask) && forall t :: 0 <= t < |r.mask| && r.mask[t] == 1.0 ==> r.loss[t] == c
  }

  lemma {:induction false} UniformKept(loss: seq<real>, mask: seq<real>, c: real)
    requires |loss| == |mask| && forall t :: 0 <= t < |mask| && mask[t] == 1.0 ==> loss[t] == c
    ensures Sum(Unmasked(loss, mask)) == Times(c, |Unmasked(loss, mask)|)
  {
    if loss != [] {
      UniformKept(loss[1..], mask[1..], c);
      var kept := Unmasked(loss[1..], mask[1..]);
      assert ([loss[0]] + kept)[1..] == kept && [] + kept == kept;
      TimesMore(c, |kept|, 1);
    }
  }

  function Times(c: real, k: nat): real {
    c * k as real
  }

  lemma TimesMore(c: real, k: nat, m: nat)
    ensures Times(c, k + m) == Times(c, k) + Times(c, m) && Times(c, 1) == c && Times(c, 0) == 0.0
  {
    assert (k + m) as real == k as real + m as real;
  }

  lemma TimesOver(c: real, k: nat)
    requires k > 0
    ensures Times(c, k) / k as real == c
  {
  }

  lemma {:induction false} UniformSums(rows: seq<Row>, c: real)
    requires Uniform(rows, c)
    ensures SumOf(TokenSum, rows) == Times(c, Tokens(rows)) && SumOf(MaskSum, rows) == Tokens(rows) as real
    ensures (forall r :: r in rows ==> MaskSum(r) != 0.0) ==> SumOf(TokenMeanOf, rows) == Times(c, |rows|)
  {
    hide Times;
    if rows == [] {
      TimesMore(c, 0, 0);
    } else {
      var r := rows[0];
      assert r in rows && Uniform(rows[1..], c);
      RowLossIs(r);
      UniformKept(r.loss, r.mask, c);
      UniformSums(rows[1..], c);
      TimesMore(c, |Unmasked(r.loss, r.mask)|, Tokens(rows[1..]));
      TimesMore(c, 1, |rows| - 1);
      if MaskSum(r) != 0.0 {
        TimesOver(c, |Unmasked(r.loss, r.mask)|);
      }
    }
  }

  /** What each mode makes of a batch whose kept entries all equal `c`: with
      `tokens` of them, `c` itself for the mean of row means, and otherwise `c`
      times the tokens over the tokens, the rows or the width. */
  lemma UniformLoss(rows: seq<Row>, width: nat, mode: Mode, c: real)
    requires Defined(rows, width, mode) && Uniform(rows, c)
    ensures var tokens := Tokens(rows);
            Aggregated(rows, width, mode) ==
              match mode
              case SeqMeanTokenMean => c
              case TokenMean => Times(c, tokens) / (tokens as real + 0.00000001)
              case SeqMeanTokenSum => Times(c, tokens) / |rows| as real
              case SeqMeanTokenSumNorm => Times(c, tokens) / width as real
  {
    UniformSums(rows, c);
    TimesOver(c, |rows|);
    hide SumOf, Tokens, Times;
  }

  /** Two rows with one mask that differ at most where it is 0. */
  ghost predicate SameKept(row: Row, other: Row) {
    && |other.loss| == |row.loss| == |row.mask| && other.mask == row.mask
    && forall t :: 0 <= t < |row.mask| && row.mask[t] != 0.0 ==> other.loss[t] == row.loss[t]
  }

  /** Entries that the mask does not keep do not matter. */
  lemma MaskedEntriesDoNotMatter(rows: seq<Row>, other: seq<Row>, width: nat, mode: Mode)
    requires Defined(rows, width, mode) && |other| == |rows| && forall j :: 0 <= j < |rows| ==> SameKept(rows[j], other[j])
    ensures Defined(other, width, mode) && Aggregated(other, width, mode) == Aggregated(rows, width, mode)
  {
    SameDefined(rows, other, width, mode);
    SameDenominator(rows, other, width, mode);
    forall j | 0 <= j < |rows| ensures RowLoss(mode)(other[j]) == RowLoss(mode)(rows[j]) {
      assert rows[j] in rows;
      MaskedDot(rows[j].loss, other[j].loss, rows[j].mask);
    }
    SameSums(RowLoss(mode), rows, other);
    hide SumOf, Denominator, Aggregated, Defined;
    AggregatedIsQuotient(rows, width, mode);
    AggregatedIsQuotient(other, width, mode);
  }

  lemma {:induction false} MaskedDot(a: seq<real>, b: seq<real>, mask: seq<real>)
    requires |a| == |b| == |mask| && forall t :: 0 <= t < |mask| && mask[t] != 0.0 ==> a[t] == b[t]
    ensures Dot(a, mask) == Dot(b, mask)
  {
    if mask != [] {
      MaskedDot(a[1..], b[1..], mask[1..]);
      if mask[0] != 0.0 {
        assert a[0] == b[0];
      }
    }
  }

  lemma {:induction false} SameSums(f: Row -> real, rows: seq<Row>, other: seq<Row>)
    requires |rows| == |other| && forall j :: 0 <= j < |rows| ==> f(other[j]) == f(rows[j])
    ensures SumOf(f, other) == SumOf(f, rows)
  {
    if rows != [] {
      SameSums(f, rows[1..], other[1..]);
    }
  }

  /** Every row of `wider` has one more entry, which its mask drops. */
  ghost predicate HasMaskedColumn(rows: seq<Row>, wider: seq<Row>) {
    |wider| == |rows| && forall j :: 0 <= j < |rows| ==> OneMasked(rows[j], wider[j])
  }

  ghost predicate OneMasked(row: Row, wider: Row) {
    |wider.loss| == |row.loss| + 1 && wider.loss[..|row.loss|] == row.loss && wider.mask == row.mask + [0.0]
  }

  lemma {:induction false} DotAppend(a: seq<real>, b: seq<real>, x: real)
    requires |a| == |b|
    ensures Dot(a + [x], b + [0.0]) == Dot(a, b) && Sum(b + [0.0]) == Sum(b)
  {
    if a == [] {
      assert a + [x] == [x] && b + [0.0] == [0.0];
      assert Dot([x], [0.0]) == x * 0.0 + Dot([], []) && Sum([0.0]) == 0.0 + Sum([]);
    } else {
      DotAppend(a[1..], b[1..], x);
      assert (a + [x])[1..] == a[1..] + [x] && (b + [0.0])[1..] == b[1..] + [0.0];
    }
  }

  lemma WiderRow(row: Row, wider: Row, mode: Mode)
    requires |row.loss| == |row.mask| && OneMasked(row, wider)
    ensures MaskSum(wider) == MaskSum(row) && RowLoss(mode)(wider) == RowLoss(mode)(row)
  {
    var x := wider.loss[|row.loss|];
    assert wider.loss == row.loss + [x];
    DotAppend(row.loss, row.mask, x);
  }

  /** A column that every mask drops changes only the mode that divides by the
      width. */
  lemma MaskedColumn(rows: seq<Row>, wider: seq<Row>, width: nat, mode: Mode)
    requires Defined(rows, width, mode) && HasMaskedColumn(rows, wider)
    ensures Defined(wider, width + 1, mode)
    ensures mode != SeqMeanTokenSumNorm ==> Aggregated(wider, width + 1, mode) == Aggregated(rows, width, mode)
    ensures mode == SeqMeanTokenSumNorm ==>
              Aggregated(wider, width + 1, mode) * (width + 1) as real == Aggregated(rows, width, mode) * width as real
  {
    forall j | 0 <= j < |rows| ensures MaskSum(wider[j]) == MaskSum(rows[j]) && RowLoss(mode)(wider[j]) == RowLoss(mode)(rows[j]) {
      assert rows[j] in rows;
      WiderRow(rows[j], wider[j], mode);
    }
    SameSums(RowLoss(mode), rows, wider);
    SameSums(MaskSum, rows, wider);
    WiderDefined(rows, wider, width, mode);
    hide SumOf, Aggregated, Defined, HasMaskedColumn;
    AggregatedIsQuotient(rows, width, mode);
    AggregatedIsQuotient(wider, width + 1, mode);
  }

  lemma WiderDefined(rows: seq<Row>, wider: seq<Row>, width: nat, mode: Mode)
    requires Defined(rows, width, mode) && HasMaskedColumn(rows, wider) && SumOf(MaskSum, wider) == SumOf(MaskSum, rows)
    requires forall j :: 0 <= j < |rows| ==> MaskSum(wider[j]) == MaskSum(rows[j])
    ensures Defined(wider, width + 1, mode)
  {
    forall r | r in wider ensures r.Valid(width + 1) && (mode == SeqMeanTokenMean ==> MaskSum(r) != 0.0) {
      var j :| 0 <= j < |wider| && wider[j] == r;
      assert rows[j] in rows && OneMasked(rows[j], wider[j]);
    }
  }
}
