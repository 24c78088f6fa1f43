/** The string operations that the parser and the message filter use. */
module PyStrings {
  import opened Sequences

  /** The characters that `strip` removes. */
  predicate IsSpace(c: char) {
    || '\U{0009}' <= c <= '\U{000d}' || '\U{001c}' <= c <= '\U{001f}' || c == ' '
    || c == '\U{0085}' || c == '\U{00a0}' || c == '\U{1680}' || '\U{2000}' <= c <= '\U{200a}'
    || c == '\U{2028}' || c == '\U{2029}' || c == '\U{202f}' || c == '\U{205f}' || c == '\U{3000}'
  }

  function StripLeft(s: string): (r: string)
    ensures r == [] || !IsSpace(r[0])
    ensures |r| <= |s| && r == s[|s| - |r|..]
    ensures forall k :: 0 <= k < |s| - |r| ==> IsSpace(s[k])
  {
    if s != [] && IsSpace(s[0]) then StripLeft(s[1..]) else s
  }

  function StripRight(s: string): (r: string)
    ensures r == [] || !IsSpace(r[|r| - 1])
    ensures |r| <= |s| && r == s[..|r|]
    ensures forall k :: |r| <= k < |s| ==> IsSpace(s[k])
  {
    if s != [] && IsSpace(s[|s| - 1]) then StripRight(s[..|s| - 1]) else s
  }

  function Strip(s: string): (r: string)
  {
    StripRight(StripLeft(s))
  }

  lemma StripIsSlice(s: string) returns (lo: nat, hi: nat)
    ensures lo <= hi <= |s| && Strip(s) == s[lo..hi]
    ensures forall k :: 0 <= k < |s| && !(lo <= k < hi) ==> IsSpace(s[k])
  {
    var l := StripLeft(s);
    var r := StripRight(l);
    lo := |s| - |l|;
    hi := lo + |r|;
    forall k | hi <= k < |s| ensures IsSpace(s[k]) {
      assert s[k] == l[k - lo];
    }
  }

  /** Stripping twice is stripping once. */
  lemma StripTwice(s: string)
    ensures Strip(Strip(s)) == Strip(s)
  {
    var r := Strip(s);
    if r != [] {
      assert r[0] == StripLeft(s)[0];
      assert StripLeft(r) == r;
    }
  }

  function LowerChar(c: char): char {
    if 'A' <= c <= 'Z' then (c as int + 32) as char else c
  }

  function Lower(s: string): (r: string)
    ensures |r| == |s| && forall i :: 0 <= i < |s| ==> r[i] == LowerChar(s[i])
  {
    seq(|s|, i requires 0 <= i < |s| => LowerChar(s[i]))
  }

  /** `s[lo:hi]` with bounds clamped to the string. */
  function Slice(s: string, lo: nat, hi: nat): string {
    var h := if hi < |s| then hi else |s|;
    if lo < h then s[lo..h] else ""
  }

  /** `t` stands at position `pos` of `s`. */
  predicate At(s: string, pos: nat, t: string) {
    pos + |t| <= |s| && s[pos..pos + |t|] == t
  }

  lemma AtConcat(s: string, pos: nat, a: string, b: string)
    requires At(s, pos, a + b)
    ensures At(s, pos, a) && At(s, pos + |a|, b)
  {
    var t := s[pos..pos + |a + b|];
    SliceOfSlice(s, pos, pos + |a + b|, 0, |a|);
    SliceOfSlice(s, pos, pos + |a + b|, |a|, |a + b|);
    assert t[0..|a|] == a && t[|a|..|a + b|] == b;
  }

  lemma AtEntry(s: string, pos: nat, t: string, i: nat)
    requires At(s, pos, t) && i < |t|
    ensures pos + i < |s| && s[pos + i] == t[i]
  {
    assert s[pos..pos + |t|][i] == t[i];
  }

  lemma AtTail(s: string, pos: nat, t: string)
    requires At(s, pos, t) && t != ""
    ensures pos < |s| && s[pos] == t[0] && At(s, pos + 1, t[1..])
  {
    AtEntry(s, pos, t, 0);
    assert t == [t[0]] + t[1..];
    AtConcat(s, pos, [t[0]], t[1..]);
  }

  lemma AtBounds(s: string, pos: nat, t: string)
    requires At(s, pos, t)
    ensures pos + |t| <= |s|
    ensures forall i :: 0 <= i < |t| ==> s[pos + i] == t[i]
  {
    forall i | 0 <= i < |t| ensures s[pos + i] == t[i] {
      AtEntry(s, pos, t, i);
    }
  }
}
