/** Copying experts to expert-parallel ranks, and the parameter count that the
    conversion checks after each layer. */
module ExpertCopy {
  import opened Options
  import opened Results
  import opened Sequences
  import QkvLayout

  /** The weights of one expert, flattened. */
  datatype Expert<+T> = Expert(gate: seq<T>, up: seq<T>, down: seq<T>)

  // ----- ownership -----

  function Start(experts: nat, epSize: nat, rank: nat): nat
    requires epSize > 0
  {
    rank * (experts / epSize)
  }

  predicate Owns(experts: nat, epSize: nat, rank: nat, i: nat)
    requires epSize > 0
  {
    Start(experts, epSize, rank) <= i < Start(experts, epSize, rank + 1)
  }

  lemma StartsAscend(experts: nat, epSize: nat, r: nat, s: nat)
    requires epSize > 0
    ensures r <= s ==> Start(experts, epSize, r) <= Start(experts, epSize, s)
    ensures Start(experts, epSize, r + 1) == Start(experts, epSize, r) + experts / epSize
  {
    var e := experts / epSize;
    if r <= s {
      assert r * e + (s - r) * e == s * e;
    }
    assert (r + 1) * e == r * e + e;
  }

  /** No expert has two owners. */
  lemma OwnerIsUnique(experts: nat, epSize: nat, r: nat, s: nat, i: nat)
    requires epSize > 0 && Owns(experts, epSize, r, i) && Owns(experts, epSize, s, i)
    ensures r == s
  {
    StartsAscend(experts, epSize, r + 1, s);
    StartsAscend(experts, epSize, s + 1, r);
  }

  ghost predicate HasOwner(experts: nat, epSize: nat, i: nat)
    requires epSize > 0
  {
    exists r: nat :: r < epSize && Owns(experts, epSize, r, i)
  }

  ghost predicate AllOwned(experts: nat, epSize: nat)
    requires epSize > 0
  {
    forall i: nat :: i < experts ==> HasOwner(experts, epSize, i)
  }

  /** Each expert has an owner exactly when the ranks divide the experts. */
  lemma AllOwnedIff(experts: nat, epSize: nat)
    requires epSize > 0
    ensures AllOwned(experts, epSize) <==> experts % epSize == 0
  {
    if experts % epSize == 0 {
      OwnersExist(experts, epSize);
    } else {
      LeftOver(experts, epSize);
    }
  }

  lemma OwnersExist(experts: nat, epSize: nat)
    requires epSize > 0 && experts % epSize == 0
    ensures AllOwned(experts, epSize)
  {
    var e := experts / epSize;
    ExactQuotient(experts, epSize);
    forall i: nat | i < experts ensures HasOwner(experts, epSize, i) {
      OwnerExists(experts, epSize, e, i);
    }
  }

  lemma OwnerExists(experts: nat, epSize: nat, e: nat, i: nat)
    requires epSize > 0 && e == experts / epSize && i < e * epSize
    ensures HasOwner(experts, epSize, i)
  {
    var r := OwnerOf(e, epSize, i);
    assert Owns(experts, epSize, r, i);
  }

  /** The first expert behind the last rank's share has no owner. */
  lemma LeftOver(experts: nat, epSize: nat)
    requires epSize > 0 && experts % epSize != 0
    ensures Start(experts, epSize, epSize) < experts && !HasOwner(experts, epSize, Start(experts, epSize, epSize))
  {
    assert experts == (experts / epSize) * epSize + experts % epSize;
    var i := Start(experts, epSize, epSize);
    forall r: nat | r < epSize ensures !Owns(experts, epSize, r, i) {
      StartsAscend(experts, epSize, r + 1, epSize);
    }
  }

  lemma OwnerOf(e: nat, epSize: nat, i: nat) returns (r: nat)
    requires i < e * epSize
    ensures r < epSize && r * e <= i < (r + 1) * e
  {
    assert e == 0 ==> e * epSize == 0;
    r := i / e;
    assert i == r * e + i % e;
    assert (r + 1) * e == r * e + e;
    assert r >= epSize ==> r * e >= epSize * e;
  }

  // ----- the copying loop -----

  function Fc1<T>(x: Expert<T>): seq<T> {
    x.gate + x.up
  }

  /** The shapes that a copy asserts. */
  predicate SameShape<T>(x: Expert<T>, fc1: seq<T>, fc2: seq<T>) {
    |fc1| == |Fc1(x)| && |fc2| == |x.down|
  }

  /** The local weights have the shapes of the experts they receive. */
  ghost predicate Fitting<T>(own: seq<Expert<T>>, fc1: seq<seq<T>>, fc2: seq<seq<T>>) {
    |own| == |fc1| == |fc2| && forall j :: 0 <= j < |own| ==> SameShape(own[j], fc1[j], fc2[j])
  }

  function NumelOf<T>(x: Expert<T>): nat {
    |x.gate| + |x.up| + |x.down|
  }

  function Numel<T>(experts: seq<Expert<T>>): nat {
    if experts == [] then 0 else Numel(experts[..|experts| - 1]) + NumelOf(experts[|experts| - 1])
  }

  lemma NumelStep<T>(own: seq<Expert<T>>, j: nat)
    requires j < |own|
    ensures Numel(own[..j + 1]) == Numel(own[..j]) + NumelOf(own[j])
  {
    assert own[..j + 1][..j] == own[..j];
  }

  /** The first `done` local weights hold the first `done` owned experts, and
      the counters say so. */
  ghost predicate Progress<T>(own: seq<Expert<T>>, done: nat, fc1: seq<seq<T>>, fc2: seq<seq<T>>, numel: nat, w2: Option<nat>) {
    && done <= |own| == |fc1| == |fc2|
    && (forall j :: 0 <= j < done ==> fc1[j] == Fc1(own[j]) && fc2[j] == own[j].down)
    && (forall j :: done <= j < |own| ==> SameShape(own[j], fc1[j], fc2[j]))
    && numel == Numel(own[..done])
    && w2 == if done == 0 then None else Some(|own[done - 1].down|)
  }

  /** The first local weight is the gate's rows above the up projection's, the
      second the down projection's. */
  ghost predicate Holds<T>(x: Expert<T>, fc1: seq<T>, fc2: seq<T>) {
    && |fc1| == |x.gate| + |x.up| && fc1[..|x.gate|] == x.gate && fc1[|x.gate|..] == x.up
    && fc2 == x.down
  }

  lemma ProgressHolds<T>(own: seq<Expert<T>>, fc1: seq<seq<T>>, fc2: seq<seq<T>>, numel: nat, w2: Option<nat>)
    requires Progress(own, |own|, fc1, fc2, numel, w2)
    ensures forall j :: 0 <= j < |own| ==> Holds(own[j], fc1[j], fc2[j])
  {
    forall j | 0 <= j < |own| ensures Holds(own[j], fc1[j], fc2[j]) {
      assert fc1[j] == own[j].gate + own[j].up;
    }
  }

  /** What the merger makes of a copied weight, kept whole: the gate and the up
      projection again. */
  method MergeCopied<T>(fc1: seq<T>, fc2: seq<T>, ghost x: Expert<T>) returns (gate: seq<T>, up: seq<T>)
    requires Holds(x, fc1, fc2) && |x.gate| == |x.up|
    ensures gate == x.gate && up == x.up
  {
    assert fc1 == x.gate + x.up;
    gate, up := QkvLayout.MergeGateUp([fc1], [x.gate], [x.up]);
    OnePart(x.gate);
    OnePart(x.up);
  }

  lemma OnePart<T>(part: seq<T>)
    ensures Flatten([part]) == part
  {
    assert [part][1..] == [];
  }

  lemma NothingCopied<T>(own: seq<Expert<T>>, fc1: seq<seq<T>>, fc2: seq<seq<T>>)
    requires Fitting(own, fc1, fc2)
    ensures Progress(own, 0, fc1, fc2, 0, None)
  {
  }

  lemma ProgressStep<T>(own: seq<Expert<T>>, done: nat, fc1: seq<seq<T>>, fc2: seq<seq<T>>, numel: nat, w2: Option<nat>)
    requires Progress(own, done, fc1, fc2, numel, w2) && done < |own|
    ensures done < |fc1| == |fc2| && SameShape(own[done], fc1[done], fc2[done])
    ensures var x := own[done];
            Progress(own, done + 1, fc1[done := Fc1(x)], fc2[done := x.down], numel + NumelOf(x), Some(|x.down|))
  {
    NumelStep(own, done);
  }

  /** The rank's own experts are written to its local weights in order; the
      counts are that of all of them and that of the last one's second weight. */
  method CopyLocalExperts<T>(experts: seq<Expert<T>>, epSize: nat, rank: nat, fc1: array<seq<T>>, fc2: array<seq<T>>)
    returns (numel: nat, w2: Option<nat>)
    requires rank < epSize && fc1 != fc2
    requires Fitting(Own(experts, epSize, rank), fc1[..], fc2[..])
    modifies fc1, fc2
    ensures Progress(Own(experts, epSize, rank), |experts| / epSize, fc1[..], fc2[..], numel, w2)
    ensures forall j :: 0 <= j < fc1.Length ==> Holds(Own(experts, epSize, rank)[j], fc1[j], fc2[j])
  {
    OwnFits(|experts|, epSize, rank);
    StartsAscend(|experts|, epSize, rank, rank);
    numel, w2 := CopyBetween(experts, Start(|experts|, epSize, rank), Start(|experts|, epSize, rank + 1), fc1, fc2);
    ProgressHolds(Own(experts, epSize, rank), fc1[..], fc2[..], numel, w2);
  }

  method CopyBetween<T>(experts: seq<Expert<T>>, start: nat, end: nat, fc1: array<seq<T>>, fc2: array<seq<T>>)
    returns (numel: nat, w2: Option<nat>)
    requires fc1 != fc2 && start <= end <= |experts|
    requires Fitting(experts[start..end], fc1[..], fc2[..])
    modifies fc1, fc2
    ensures Progress(experts[start..end], end - start, fc1[..], fc2[..], numel, w2)
  {
    hide Progress, SameShape, Fc1, NumelOf, Fitting;
    numel, w2 := 0, None;
    ghost var own := experts[start..end];
    NothingCopied(own, fc1[..], fc2[..]);
    for i := 0 to |experts|
      invariant Progress(own, Done(i, start, end), fc1[..], fc2[..], numel, w2)
    {
      if start <= i < end {
        var local := i - start;
        ProgressStep(own, local, fc1[..], fc2[..], numel, w2);
        var copied, second := CopyExpert(experts[i], fc1, fc2, local);
        numel, w2 := numel + copied, Some(second);
      }
    }
  }

  /** How many owned experts the loop has passed at expert `i`. */
  function Done(i: nat, start: nat, end: nat): nat
    requires start <= end
  {
    if i < start then 0 else if i < end then i - start else end - start
  }

  /** One expert into one local slot; the shapes must agree. */
  method CopyExpert<T>(x: Expert<T>, fc1: array<seq<T>>, fc2: array<seq<T>>, local: nat) returns (copied: nat, second: nat)
    requires fc1 != fc2 && local < fc1.Length == fc2.Length && SameShape(x, fc1[..][local], fc2[..][local])
    modifies fc1, fc2
    ensures fc1[..] == old(fc1[..])[local := Fc1(x)] && fc2[..] == old(fc2[..])[local := x.down]
    ensures copied == NumelOf(x) && second == |x.down|
  {
    fc1[local] := x.gate + x.up;
    fc2[local] := x.down;
    copied, second := |x.gate + x.up| + |x.down|, |x.down|;
  }

  function Own<T>(experts: seq<Expert<T>>, epSize: nat, rank: nat): (own: seq<Expert<T>>)
    requires rank < epSize
    ensures |own| == |experts| / epSize
    ensures forall j :: 0 <= j < |own| ==> own[j] in experts
  {
    StartsAscend(|experts|, epSize, rank, rank);
    OwnFits(|experts|, epSize, rank);
    experts[Start(|experts|, epSize, rank)..Start(|experts|, epSize, rank + 1)]
  }

  lemma OwnFits(experts: nat, epSize: nat, rank: nat)
    requires rank < epSize
    ensures Start(experts, epSize, rank) + experts / epSize <= experts
  {
    StartsAscend(experts, epSize, rank + 1, epSize);
    StartsAscend(experts, epSize, rank, rank);
    assert experts == (experts / epSize) * epSize + experts % epSize;
  }

  // ----- the count check -----

  /** The check after a layer: `rest` counts what is not an expert's. */
  function CheckNumel(copied: nat, layerTotal: int, w2: Option<nat>, experts: nat, epSize: nat): Result<bool>
    requires epSize > 0
  {
    if w2.None? then Err(UnboundLocalError)
    else if copied == layerTotal - w2.value * 3 * experts / epSize * (epSize - 1) then Ok(true)
    else Err(AssertionError)
  }

  /** With experts of one size the check passes on a rank exactly when the ranks
      divide the experts. */
  lemma CheckIff(rest: nat, w: nat, experts: nat, epSize: nat)
    requires epSize > 0 && w > 0 && experts >= epSize
    ensures CheckNumel(rest + 3 * w * (experts / epSize), rest + 3 * w * experts, Some(w), experts, epSize) == Ok(true)
       <==> experts % epSize == 0
  {
    var e, d := experts / epSize, experts % epSize;
    var total := w * 3 * experts;
    var m, rho := total / epSize, total % epSize;
    assert total == m * epSize + rho;
    assert total - m * (epSize - 1) == m + rho;
    Shares(w, e, d, epSize, m, rho);
    assert w * 3 * experts == 3 * w * experts;
  }

  lemma Shares(w: nat, e: nat, d: nat, epSize: nat, m: nat, rho: nat)
    requires epSize > 0 && w > 0 && d < epSize && rho < epSize
    requires w * 3 * (e * epSize + d) == m * epSize + rho
    ensures m + rho == 3 * w * e <==> d == 0
  {
    var a := 3 * w * e;
    assert w * 3 * (e * epSize + d) == a * epSize + 3 * w * d by {
      assert w * 3 * (e * epSize) == a * epSize;
    }
    var x := 3 * w * d;
    var k: int := m - a;
    assert k * epSize + rho == x;
    assert k >= 1 ==> k * epSize >= epSize;
    assert k <= -1 ==> k * epSize + epSize <= 0;
    assert d == 0 ==> x == 0;
    assert d > 0 ==> x > 0;
  }

  lemma {:induction false} NumelUniform<T>(own: seq<Expert<T>>, w: nat)
    requires forall j :: 0 <= j < |own| ==> NumelOf(own[j]) == 3 * w
    ensures Numel(own) == 3 * w * |own|
  {
    if own != [] {
      NumelUniform(own[..|own| - 1], w);
      assert 3 * w * |own| == 3 * w * (|own| - 1) + 3 * w;
    }
  }

  /** A rank's share of a layer and the check behind it: without a local expert
      there is no count to check with, and otherwise the check passes exactly
      when the ranks divide the experts. */
  method ConvertLayer<T>(experts: seq<Expert<T>>, epSize: nat, rank: nat, fc1: array<seq<T>>, fc2: array<seq<T>>, rest: nat, w: nat)
    returns (checked: Result<bool>)
    requires rank < epSize && fc1 != fc2 && w > 0
    requires Fitting(Own(experts, epSize, rank), fc1[..], fc2[..])
    requires forall x :: x in experts ==> |x.gate| + |x.up| == 2 * w && |x.down| == w
    modifies fc1, fc2
    ensures checked == Err(UnboundLocalError) <==> |experts| < epSize
    ensures checked == Ok(true) <==> |experts| >= epSize && |experts| % epSize == 0
  {
    var numel, w2 := CopyLocalExperts(experts, epSize, rank, fc1, fc2);
    ghost var own := Own(experts, epSize, rank);
    assert own[..|own|] == own;
    NumelUniform(own, w);
    LocalCount(|experts|, epSize);
    if |experts| >= epSize {
      CheckIff(rest, w, |experts|, epSize);
    }
    checked := CheckNumel(rest + numel, rest + 3 * w * |experts|, w2, |experts|, epSize);
  }

  lemma LocalCount(experts: nat, epSize: nat)
    requires epSize > 0
    ensures experts / epSize == 0 <==> experts < epSize
  {
    assert experts == (experts / epSize) * epSize + experts % epSize;
  }
}
