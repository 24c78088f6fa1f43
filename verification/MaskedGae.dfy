/** Generalised advantage estimation with observation tokens masked out: one
    backward pass that skips masked positions. Every tensor operation of the
    pass acts on each row of the batch alone, so a row is a sequence here. */
module MaskedGae {
  import opened Sequences

  /** What the backward pass carries from position to position. */
  datatype Carry = Carry(nextValue: real, lastGae: real)

  function Step(c: Carry, reward: real, value: real, m: real, gamma: real, lam: real): Carry {
    var delta := reward + gamma * c.nextValue - value;
    var gae := delta + gamma * lam * c.lastGae;
    Carry(value * m + (1.0 - m) * c.nextValue, gae * m + (1.0 - m) * c.lastGae)
  }

  ghost function Backward(r: seq<real>, v: seq<real>, m: seq<real>, gamma: real, lam: real): Carry
    requires |r| == |v| == |m|
  {
    if r == [] then Carry(0.0, 0.0)
    else Step(Backward(r[1..], v[1..], m[1..], gamma, lam), r[0], v[0], m[0], gamma, lam)
  }

  /** The carry once positions `t..` have been visited. */
  ghost function From(r: seq<real>, v: seq<real>, m: seq<real>, gamma: real, lam: real, t: nat): Carry
    requires |r| == |v| == |m| && t <= |r|
  {
    Backward(r[t..], v[t..], m[t..], gamma, lam)
  }

  lemma FromStep(r: seq<real>, v: seq<real>, m: seq<real>, gamma: real, lam: real, t: nat)
    requires |r| == |v| == |m| && t < |r|
    ensures From(r, v, m, gamma, lam, t) == Step(From(r, v, m, gamma, lam, t + 1), r[t], v[t], m[t], gamma, lam)
  {
    assert r[t..][1..] == r[t + 1..] && v[t..][1..] == v[t + 1..] && m[t..][1..] == m[t + 1..];
  }

  function Reverse<T>(s: seq<T>): (r: seq<T>)
    ensures |r| == |s| && forall i :: 0 <= i < |s| ==> r[i] == s[|s| - 1 - i]
  {
    seq(|s|, i requires 0 <= i < |s| => s[|s| - 1 - i])
  }

  // ----- the definition it refines -----

  /** How many tokens before position `t` are not masked. */
  ghost function Rank(m: seq<real>, t: nat): nat
    requires t <= |m|
  {
    if t == 0 then 0 else (if m[0] == 1.0 then 1 else 0) + Rank(m[1..], t - 1)
  }

  /** Temporal-difference errors; the value after the last token is 0. */
  ghost function Deltas(r: seq<real>, v: seq<real>, gamma: real): (d: seq<real>)
    requires |r| == |v|
    ensures |d| == |r|
  {
    if r == [] then []
    else [TdError(r[0], Head(v[1..]), v[0], gamma)] + Deltas(r[1..], v[1..], gamma)
  }

  ghost function TdError(reward: real, next: real, value: real, gamma: real): real {
    reward + gamma * next - value
  }

  /** A term and the discounted rest. */
  ghost function Discount(d: real, x: real, rest: real): real {
    d + x * rest
  }

  ghost function Head(s: seq<real>): real {
    if s == [] then 0.0 else s[0]
  }

  ghost function Pow(x: real, k: nat): real {
    if k == 0 then 1.0 else x * Pow(x, k - 1)
  }

  /** The sum of `x^(k + j) * s[j]` over all `j`. */
  ghost function PowerSum(s: seq<real>, x: real, k: nat): real {
    if s == [] then 0.0 else Pow(x, k) * s[0] + PowerSum(s[1..], x, k + 1)
  }

  /** The advantage at token `p` of a sequence without masked tokens: the sum
      of `(gamma * lam)^j * delta[p + j]`. */
  ghost function Gae(r: seq<real>, v: seq<real>, gamma: real, lam: real, p: nat): real
    requires |r| == |v| && p <= |r|
  {
    PowerSum(Deltas(r, v, gamma)[p..], gamma * lam, 0)
  }

  lemma {:induction false} PowerSumShift(s: seq<real>, x: real, k: nat)
    ensures PowerSum(s, x, k + 1) == x * PowerSum(s, x, k)
  {
    if s != [] {
      PowerSumShift(s[1..], x, k + 1);
      var a, b := Pow(x, k), PowerSum(s[1..], x, k + 1);
      assert x * (a * s[0] + b) == (x * a) * s[0] + x * b;
    }
  }

  lemma Horner(s: seq<real>, x: real)
    requires s != []
    ensures PowerSum(s, x, 0) == s[0] + x * PowerSum(s[1..], x, 0)
  {
    PowerSumShift(s[1..], x, 0);
  }

  lemma {:induction false} KeptLength(s: seq<real>, m: seq<real>)
    requires |s| == |m|
    ensures |Unmasked(s, m)| == Rank(m, |m|)
  {
    if s != [] {
      KeptLength(s[1..], m[1..]);
    }
  }

  lemma MaskedStep(c: Carry, reward: real, value: real, gamma: real, lam: real)
    ensures Step(c, reward, value, 0.0, gamma, lam) == c
    ensures Step(c, reward, value, 1.0, gamma, lam)
              == Carry(value, Discount(TdError(reward, c.nextValue, value, gamma), gamma * lam, c.lastGae))
  {
  }

  /** The carry is the head value and the advantage of the unmasked rest. */
  lemma {:induction false} BackwardIsKept(r: seq<real>, v: seq<real>, m: seq<real>, gamma: real, lam: real)
    requires |r| == |v| == |m| && IsMask(m)
    ensures |Unmasked(r, m)| == |Unmasked(v, m)|
    ensures Backward(r, v, m, gamma, lam).nextValue == Head(Unmasked(v, m))
    ensures Backward(r, v, m, gamma, lam).lastGae == PowerSum(Deltas(Unmasked(r, m), Unmasked(v, m), gamma), gamma * lam, 0)
  {
    KeptLength(r, m);
    KeptLength(v, m);
    if r != [] {
      hide *;
      BackwardIsKept(r[1..], v[1..], m[1..], gamma, lam);
      MaskIs(m);
      if m[0] == 1.0 {
        UnmaskedHead(r, v, m, gamma, lam);
      } else {
        MaskedHead(r, v, m, gamma, lam);
      }
    }
  }

  lemma MaskIs(m: seq<real>)
    requires m != [] && IsMask(m)
    ensures (m[0] == 0.0 || m[0] == 1.0) && IsMask(m[1..])
  {
  }

  lemma MaskedHead(r: seq<real>, v: seq<real>, m: seq<real>, gamma: real, lam: real)
    requires |r| == |v| == |m| > 0 && m[0] == 0.0
    ensures Unmasked(r, m) == Unmasked(r[1..], m[1..]) && Unmasked(v, m) == Unmasked(v[1..], m[1..])
    ensures Backward(r, v, m, gamma, lam) == Backward(r[1..], v[1..], m[1..], gamma, lam)
  {
    hide Step;
    MaskedStep(Backward(r[1..], v[1..], m[1..], gamma, lam), r[0], v[0], gamma, lam);
  }

  lemma UnmaskedHead(r: seq<real>, v: seq<real>, m: seq<real>, gamma: real, lam: real)
    requires |r| == |v| == |m| > 0 && m[0] == 1.0
    requires |Unmasked(r, m)| == |Unmasked(v, m)| && |Unmasked(r[1..], m[1..])| == |Unmasked(v[1..], m[1..])|
    requires var c := Backward(r[1..], v[1..], m[1..], gamma, lam);
             && c.nextValue == Head(Unmasked(v[1..], m[1..]))
             && c.lastGae == PowerSum(Deltas(Unmasked(r[1..], m[1..]), Unmasked(v[1..], m[1..]), gamma), gamma * lam, 0)
    ensures Backward(r, v, m, gamma, lam).nextValue == Head(Unmasked(v, m))
    ensures Backward(r, v, m, gamma, lam).lastGae == PowerSum(Deltas(Unmasked(r, m), Unmasked(v, m), gamma), gamma * lam, 0)
  {
    hide *;
    BackwardCons(r, v, m, gamma, lam);
    MaskedStep(Backward(r[1..], v[1..], m[1..], gamma, lam), r[0], v[0], gamma, lam);
    KeptCons(r, m);
    KeptCons(v, m);
    DeltasCons(r[0], Unmasked(r[1..], m[1..]), v[0], Unmasked(v[1..], m[1..]), gamma);
    PowerSumCons(TdError(r[0], Head(Unmasked(v[1..], m[1..])), v[0], gamma), Deltas(Unmasked(r[1..], m[1..]), Unmasked(v[1..], m[1..]), gamma), gamma * lam);
  }

  lemma BackwardCons(r: seq<real>, v: seq<real>, m: seq<real>, gamma: real, lam: real)
    requires |r| == |v| == |m| > 0
    ensures Backward(r, v, m, gamma, lam) == Step(Backward(r[1..], v[1..], m[1..], gamma, lam), r[0], v[0], m[0], gamma, lam)
  {
    hide Step;
  }

  lemma KeptCons(s: seq<real>, m: seq<real>)
    requires |s| == |m| > 0 && m[0] == 1.0
    ensures Unmasked(s, m) == [s[0]] + Unmasked(s[1..], m[1..]) && Head(Unmasked(s, m)) == s[0]
  {
  }

  lemma DeltasCons(r0: real, r: seq<real>, v0: real, v: seq<real>, gamma: real)
    requires |r| == |v|
    ensures Deltas([r0] + r, [v0] + v, gamma) == [TdError(r0, Head(v), v0, gamma)] + Deltas(r, v, gamma)
  {
    assert ([r0] + r)[1..] == r && ([v0] + v)[1..] == v;
    hide Head, TdError;
  }

  lemma PowerSumCons(d0: real, d: seq<real>, x: real)
    ensures PowerSum([d0] + d, x, 0) == Discount(d0, x, PowerSum(d, x, 0))
  {
    assert ([d0] + d)[1..] == d;
    PowerSumShift(d, x, 0);
  }

  lemma {:induction false} KeptSuffix(s: seq<real>, m: seq<real>, t: nat)
    requires |s| == |m| && t <= |s|
    ensures Rank(m, t) <= |Unmasked(s, m)|
    ensures Unmasked(s[t..], m[t..]) == Unmasked(s, m)[Rank(m, t)..]
    decreases t
  {
    if t == 0 {
      assert s[0..] == s && m[0..] == m;
    } else {
      KeptSuffix(s[1..], m[1..], t - 1);
      assert s[1..][t - 1..] == s[t..] && m[1..][t - 1..] == m[t..];
    }
  }

  lemma {:induction false} DeltasSuffix(r: seq<real>, v: seq<real>, gamma: real, p: nat)
    requires |r| == |v| && p <= |r|
    ensures Deltas(r[p..], v[p..], gamma) == Deltas(r, v, gamma)[p..]
    decreases p
  {
    if p == 0 {
      assert r[0..] == r && v[0..] == v;
    } else {
      DeltasSuffix(r[1..], v[1..], gamma, p - 1);
      assert r[1..][p - 1..] == r[p..] && v[1..][p - 1..] == v[p..];
    }
  }

  /** Masked estimation is plain estimation on the unmasked tokens: position
      `t` holds the advantage of the first unmasked token at or after `t`, and
      0 when there is none. */
  lemma MaskedGaeIsPlainGae(r: seq<real>, v: seq<real>, m: seq<real>, gamma: real, lam: real, t: nat)
    requires |r| == |v| == |m| && IsMask(m) && t < |r|
    ensures |Unmasked(r, m)| == |Unmasked(v, m)| && Rank(m, t) <= |Unmasked(r, m)|
    ensures From(r, v, m, gamma, lam, t).lastGae == Gae(Unmasked(r, m), Unmasked(v, m), gamma, lam, Rank(m, t))
  {
    BackwardIsKept(r[t..], v[t..], m[t..], gamma, lam);
    KeptSuffix(r, m, t);
    KeptSuffix(v, m, t);
    KeptLength(r, m);
    KeptLength(v, m);
    DeltasSuffix(Unmasked(r, m), Unmasked(v, m), gamma, Rank(m, t));
  }

  /** An unmasked token is the `Rank`-th kept one. */
  lemma {:induction false} KeptAt(s: seq<real>, m: seq<real>, t: nat)
    requires |s| == |m| && t < |s| && m[t] == 1.0
    ensures Rank(m, t) < |Unmasked(s, m)| && Unmasked(s, m)[Rank(m, t)] == s[t]
    decreases t
  {
    if t > 0 {
      KeptAt(s[1..], m[1..], t - 1);
    }
  }

  /** With lambda 1 the temporal-difference errors telescope. */
  lemma {:induction false} Telescope(r: seq<real>, v: seq<real>, gamma: real)
    requires |r| == |v|
    ensures PowerSum(Deltas(r, v, gamma), gamma, 0) + Head(v) == PowerSum(r, gamma, 0)
  {
    if r != [] {
      Telescope(r[1..], v[1..], gamma);
      var d := Deltas(r, v, gamma);
      assert d[1..] == Deltas(r[1..], v[1..], gamma);
      Horner(d, gamma);
      Horner(r, gamma);
      var a, b, h := PowerSum(d[1..], gamma, 0), PowerSum(r[1..], gamma, 0), Head(v[1..]);
      assert a + h == b;
      assert gamma * (a + h) == gamma * a + gamma * h;
    }
  }

  /** With lambda 1 the return at an unmasked token is the discounted sum of
      the unmasked rewards from that token on. */
  lemma ReturnsTelescope(r: seq<real>, v: seq<real>, m: seq<real>, gamma: real, t: nat)
    requires |r| == |v| == |m| && IsMask(m) && t < |r| && m[t] == 1.0
    ensures Rank(m, t) < |Unmasked(r, m)|
    ensures From(r, v, m, gamma, 1.0, t).lastGae + v[t] == PowerSum(Unmasked(r, m)[Rank(m, t)..], gamma, 0)
  {
    var p := Rank(m, t);
    MaskedGaeIsPlainGae(r, v, m, gamma, 1.0, t);
    KeptAt(r, m, t);
    KeptAt(v, m, t);
    DeltasSuffix(Unmasked(r, m), Unmasked(v, m), gamma, p);
    Telescope(Unmasked(r, m)[p..], Unmasked(v, m)[p..], gamma);
    assert gamma * 1.0 == gamma;
  }

  // ----- the pass -----

  /** The pass up to the whitening of the advantages. With a mask of zeros and
      ones, position `t` gets the advantage, in the sequence of the unmasked
      tokens, of the first unmasked token at or after `t`. */
  method ComputeGaeAdvantageReturn(rewards: seq<real>, values: seq<real>, mask: seq<real>, gamma: real, lam: real)
      returns (advantages: seq<real>, rets: seq<real>)
    requires |rewards| == |values| == |mask|
    ensures |advantages| == |rets| == |rewards|
    ensures forall t :: 0 <= t < |rewards| ==>
              && advantages[t] == From(rewards, values, mask, gamma, lam, t).lastGae
              && rets[t] == advantages[t] + values[t]
    ensures IsMask(mask) ==> forall t :: 0 <= t < |rewards| ==>
              && |Unmasked(rewards, mask)| == |Unmasked(values, mask)| && Rank(mask, t) <= |Unmasked(rewards, mask)|
              && advantages[t] == Gae(Unmasked(rewards, mask), Unmasked(values, mask), gamma, lam, Rank(mask, t))
  {
    var n := |rewards|;
    var nextvalues, lastgaelam := 0.0, 0.0;
    var reversed: seq<real> := [];
    for t := n downto 0
      invariant Carry(nextvalues, lastgaelam) == From(rewards, values, mask, gamma, lam, t)
      invariant |reversed| == n - t
      invariant forall s :: t <= s < n ==> reversed[n - 1 - s] == From(rewards, values, mask, gamma, lam, s).lastGae
    {
      FromStep(rewards, values, mask, gamma, lam, t);
      nextvalues, lastgaelam := SkipMasked(nextvalues, lastgaelam, rewards[t], values[t], mask[t], gamma, lam);
      reversed := reversed + [lastgaelam];
    }
    advantages := Reverse(reversed);
    rets := seq(n, t requires 0 <= t < n => advantages[t] + values[t]);
    forall t | 0 <= t < n ensures advantages[t] == From(rewards, values, mask, gamma, lam, t).lastGae {
      assert advantages[t] == reversed[n - 1 - t];
    }
    if IsMask(mask) {
      hide *;
      forall t | 0 <= t < n
        ensures && |Unmasked(rewards, mask)| == |Unmasked(values, mask)| && Rank(mask, t) <= |Unmasked(rewards, mask)|
                && advantages[t] == Gae(Unmasked(rewards, mask), Unmasked(values, mask), gamma, lam, Rank(mask, t))
      {
        MaskedGaeIsPlainGae(rewards, values, mask, gamma, lam, t);
      }
    }
  }

  /** One turn of the loop: a masked position leaves the carried values alone,
      an unmasked one starts from its own value and discounts the advantage
      carried so far. */
  method SkipMasked(nextvalues: real, lastgaelam: real, reward: real, value: real, m: real, gamma: real, lam: real)
      returns (next: real, last: real)
    ensures Carry(next, last) == Step(Carry(nextvalues, lastgaelam), reward, value, m, gamma, lam)
    ensures m == 0.0 ==> next == nextvalues && last == lastgaelam
    ensures m == 1.0 ==> next == value && last == Discount(TdError(reward, nextvalues, value, gamma), gamma * lam, lastgaelam)
  {
    var c := Carry(nextvalues, lastgaelam);
    var delta := reward + gamma * c.nextValue - value;
    var gae := delta + gamma * lam * c.lastGae;
    next := value * m + (1.0 - m) * c.nextValue;
    last := gae * m + (1.0 - m) * c.lastGae;
    assert Carry(next, last) == Step(c, reward, value, m, gamma, lam);
    hide Step, Discount, TdError;
    MaskedStep(c, reward, value, gamma, lam);
    assert m == 1.0 ==> Carry(next, last) == Step(c, reward, value, 1.0, gamma, lam);
  }
}
