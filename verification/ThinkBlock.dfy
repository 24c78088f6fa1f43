/** Messages with a `<think>` block: the filter that accepts them, and the
    removal of the block. */
module ThinkBlock {
  import opened PyStrings
  import opened Sequences

  const OPEN := "<think>"
  const CLOSE := "</think>"
  const END_MARK := "<|im_end|>"

  /** A message's content: absent, a string, or something else. */
  datatype Content = Missing | Text(s: string) | Other

  // ----- searching -----

  predicate Occurs(s: string, t: string, i: nat) {
    i + |t| <= |s| && s[i..i + |t|] == t
  }

  ghost predicate NoneIn(s: string, t: string, lo: nat, hi: nat) {
    forall i :: lo <= i < hi ==> !Occurs(s, t, i)
  }

  /** The first occurrence at or behind `from`, or -1. */
  function Find(s: string, t: string, from: nat): (r: int)
    ensures r == -1 || from <= r
    ensures r == -1 ==> forall i: nat :: from <= i ==> !Occurs(s, t, i)
    ensures r >= 0 ==> Occurs(s, t, r) && NoneIn(s, t, from, r)
    decreases |s| - from
  {
    if from > |s| then -1 else if Occurs(s, t, from) then from else Find(s, t, from + 1)
  }

  /** The number of occurrences that do not overlap, counted from the left. */
  function Count(s: string, t: string, from: nat): nat
    requires t != ""
    decreases |s| - from
  {
    var i := Find(s, t, from);
    if i < 0 then 0 else 1 + Count(s, t, i + |t|)
  }

  // ----- the pattern -----

  /** An opening tag at `i` and a closing tag at `j` behind it. */
  predicate Block(s: string, i: nat, j: nat) {
    Occurs(s, OPEN, i) && i + |OPEN| <= j && Occurs(s, CLOSE, j)
  }

  datatype Match = NoMatch | Matched(open: nat, close: nat)

  /** The leftmost block at or behind `from`, as short as possible. */
  function Search(s: string, from: nat): (r: Match)
    ensures r.Matched? ==> from <= r.open && Block(s, r.open, r.close)
    ensures r.Matched? ==> forall i: nat, j: nat :: from <= i && Block(s, i, j) ==> r.open <= i && (i == r.open ==> r.close <= j)
    ensures r.NoMatch? ==> forall i: nat, j: nat :: from <= i ==> !Block(s, i, j)
  {
    var i := Find(s, OPEN, from);
    if i < 0 then NoMatch
    else
      var j := Find(s, CLOSE, i + |OPEN|);
      if j < 0 then NoMatch else Matched(i, j)
  }

  /** The text from `from` on with every block that the pattern matches cut out. */
  function Substitute(s: string, from: nat): string
    requires from <= |s|
    decreases |s| - from
  {
    var m := Search(s, from);
    if m.NoMatch? then s[from..] else s[from..m.open] + Substitute(s, m.close + |CLOSE|)
  }

  function Removed(s: string): string {
    Strip(Substitute(s, 0))
  }

  // ----- the filter -----

  predicate EndsWith(s: string, t: string) {
    |t| <= |s| && s[|s| - |t|..] == t
  }

  /** What is left to show once one end mark is taken off. */
  function Shown(text: string): string {
    var visible := Strip(text);
    Strip(if EndsWith(visible, END_MARK) then visible[..|visible| - |END_MARK|] else visible)
  }

  predicate IsValidMessages(content: Content) {
    if !content.Text? then true
    else
      var s := content.s;
      if Strip(s) == "" then false
      else if Count(s, OPEN, 0) != Count(s, CLOSE, 0) then false
      else if Count(s, OPEN, 0) > 1 then false
      else if Count(s, OPEN, 0) == 0 then Shown(s) != ""
      else BlockShown(s)
  }

  // ----- what is shown -----

  ghost predicate AllSpace(w: string) {
    forall i :: 0 <= i < |w| ==> IsSpace(w[i])
  }

  lemma {:induction false} StripLeftKeeps(t: string, v: string)
    requires v != "" && !IsSpace(v[0])
    ensures StripLeft(t + v) == StripLeft(t) + v
  {
    if t == "" {
      assert t + v == v;
    } else {
      assert (t + v)[0] == t[0] && (t + v)[1..] == t[1..] + v;
      if IsSpace(t[0]) {
        StripLeftKeeps(t[1..], v);
      }
    }
  }

  lemma {:induction false} StripRightDrops(x: string, w: string)
    requires x != "" && !IsSpace(x[|x| - 1]) && AllSpace(w)
    ensures StripRight(x + w) == x
    decreases |w|
  {
    if w == "" {
      assert x + w == x;
    } else {
      var m := |w| - 1;
      assert (x + w)[|x + w| - 1] == w[m] && (x + w)[..|x + w| - 1] == x + w[..m];
      StripRightDrops(x, w[..m]);
    }
  }

  lemma StripBehind(t: string, v: string, w: string)
    requires v != "" && !IsSpace(v[0]) && !IsSpace(v[|v| - 1]) && AllSpace(w)
    ensures Strip(t + (v + w)) == StripLeft(t) + v
  {
    hide *;
    StripIs(t + (v + w));
    StripLeftKeeps(t, v + w);
    Reassociate(StripLeft(t), v, w);
    StripRightDrops(StripLeft(t) + v, w);
  }

  lemma StripIs(s: string)
    ensures Strip(s) == StripRight(StripLeft(s))
  {
  }

  lemma Reassociate(a: string, b: string, c: string)
    ensures a + (b + c) == (a + b) + c
  {
  }

  lemma StripLeftTwice(t: string)
    ensures Strip(StripLeft(t)) == Strip(t)
  {
    var r := StripLeft(t);
    assert StripLeft(r) == r;
  }

  lemma MarkEnds()
    ensures END_MARK != "" && !IsSpace(END_MARK[0]) && !IsSpace(END_MARK[|END_MARK| - 1])
  {
  }

  lemma ShownIs(text: string, a: string)
    ensures Strip(text) == a + END_MARK ==> Shown(text) == Strip(a)
    ensures !EndsWith(Strip(text), END_MARK) ==> Shown(text) == Strip(Strip(text))
  {
    hide Strip, END_MARK;
    var visible := Strip(text);
    if visible == a + END_MARK {
      assert visible[|visible| - |END_MARK|..] == END_MARK && visible[..|visible| - |END_MARK|] == a;
    }
  }

  /** One end mark behind a text, with blanks behind it, is taken off: what is
      shown is the text without blanks at its ends. */
  lemma ShownWithMark(t: string, w: string)
    requires AllSpace(w)
    ensures Shown(t + (END_MARK + w)) == Strip(t)
  {
    hide *;
    MarkEnds();
    StripBehind(t, END_MARK, w);
    ShownIs(t + (END_MARK + w), StripLeft(t));
    StripLeftTwice(t);
  }

  /** What a stripped text ends with stands in the text with blanks behind it. */
  lemma EndsBehind(t: string, v: string) returns (u: string, w: string)
    requires EndsWith(Strip(t), v)
    ensures t == u + (v + w) && AllSpace(w)
  {
    hide Strip, IsSpace;
    var lo, hi := StripIsSlice(t);
    var n := |v|;
    u, w := t[..hi - n], t[hi..];
    assert t[lo..hi][|t[lo..hi]| - n..] == t[hi - n..hi];
    assert t == t[..hi - n] + (t[hi - n..hi] + t[hi..]);
  }

  ghost predicate EndsInMark(t: string) {
    exists u, w :: AllSpace(w) && t == u + (END_MARK + w)
  }

  /** Any other text is shown without the blanks at its ends. */
  lemma ShownWithoutMark(t: string)
    requires !EndsInMark(t)
    ensures Shown(t) == Strip(t)
  {
    ShownIs(t, "");
    StripTwice(t);
    hide Strip, Shown, END_MARK, AllSpace;
    if EndsWith(Strip(t), END_MARK) {
      var u, w := EndsBehind(t, END_MARK);
    }
  }

  /** There is something inside the block, and something to show outside. */
  predicate BlockShown(s: string) {
    var m := Search(s, 0);
    m.Matched? && Strip(s[m.open + |OPEN|..m.close]) != "" && Shown(Substitute(s, 0)) != ""
  }

  // ----- occurrences of tags -----

  predicate IsTag(t: string) {
    t == OPEN || t == CLOSE
  }

  /** Occurrences of tags do not overlap: the first character of a tag does
      not appear again in it. */
  lemma TagsApart(s: string, t: string, i: nat, u: string, j: nat)
    requires IsTag(t) && IsTag(u) && Occurs(s, t, i) && Occurs(s, u, j) && i < j
    ensures i + |t| <= j
  {
    assert s[j] == s[j..j + |u|][0] == '<';
    assert forall k :: 0 < k < |t| ==> t[k] != '<';
    assert forall k :: i < k < i + |t| ==> s[k] == t[k - i];
  }

  lemma SameTag(s: string, i: nat)
    requires Occurs(s, OPEN, i)
    ensures !Occurs(s, CLOSE, i)
  {
    assert s[i + 1] == OPEN[1] != CLOSE[1];
  }

  ghost predicate Absent(s: string, t: string) {
    forall i: nat :: !Occurs(s, t, i)
  }

  /** `i` is the only place where `t` occurs. */
  ghost predicate Only(s: string, t: string, i: nat) {
    Occurs(s, t, i) && forall k: nat :: Occurs(s, t, k) ==> k == i
  }

  ghost predicate Once(s: string, t: string) {
    exists i: nat :: Only(s, t, i)
  }

  lemma CountIsZero(s: string, t: string)
    requires IsTag(t)
    ensures Count(s, t, 0) == 0 <==> Absent(s, t)
  {
    var i := Find(s, t, 0);
    if i >= 0 {
      assert Occurs(s, t, i);
    }
  }

  lemma CountIsOne(s: string, t: string)
    requires IsTag(t)
    ensures Count(s, t, 0) == 1 <==> Once(s, t)
  {
    var i := Find(s, t, 0);
    if i >= 0 {
      var k := Find(s, t, i + |t|);
      assert Count(s, t, 0) == 1 + Count(s, t, i + |t|);
      if k < 0 {
        forall j: nat | Occurs(s, t, j) ensures j == i {
          if i < j {
            TagsApart(s, t, i, t, j);
          }
        }
        assert Only(s, t, i);
      } else {
        assert Occurs(s, t, i) && Occurs(s, t, k) && i != k;
      }
    }
  }

  lemma OccursInSlice(s: string, lo: nat, hi: nat, t: string, k: nat)
    requires lo <= hi <= |s|
    ensures Occurs(s[lo..hi], t, k) <==> lo + k + |t| <= hi && Occurs(s, t, lo + k)
  {
    if lo + k + |t| <= hi {
      SliceOfSlice(s, lo, hi, k, k + |t|);
    }
  }

  // ----- messages with one block -----

  ghost predicate TagFree(s: string) {
    Absent(s, OPEN) && Absent(s, CLOSE)
  }

  /** `s` is one block around `b` between `a` and `c`, and has no other tag. */
  ghost predicate Framed(s: string, a: string, b: string, c: string) {
    s == a + (OPEN + (b + (CLOSE + c))) && TagFree(a) && TagFree(b) && TagFree(c)
  }

  lemma FramedTags(s: string, a: string, b: string, c: string)
    requires Framed(s, a, b, c)
    ensures Only(s, OPEN, |a|) && Only(s, CLOSE, |a| + |OPEN| + |b|)
  {
    var i, j := |a|, |a| + |OPEN| + |b|;
    assert s[i..i + |OPEN|] == OPEN && s[j..j + |CLOSE|] == CLOSE;
    forall t, k: nat | IsTag(t) && Occurs(s, t, k) ensures k == i || k == j {
      FramedAt(s, a, b, c, t, k);
    }
    assert IsTag(OPEN) && IsTag(CLOSE);
    SameTag(s, i);
    if Occurs(s, OPEN, j) {
      SameTag(s, j);
    }
  }

  lemma FramedAt(s: string, a: string, b: string, c: string, t: string, k: nat)
    requires Framed(s, a, b, c) && IsTag(t) && Occurs(s, t, k)
    ensures k == |a| || k == |a| + |OPEN| + |b|
  {
    var i, j := |a|, |a| + |OPEN| + |b|;
    FrameParts(s, a, b, c);
    hide Framed, Occurs, TagFree;
    if k < i {
      TagsApart(s, t, k, OPEN, i);
      NotInPart(s, 0, i, t, k);
    } else if i < k < j {
      TagsApart(s, OPEN, i, t, k);
      TagsApart(s, t, k, CLOSE, j);
      NotInPart(s, i + |OPEN|, j, t, k);
    } else if j < k {
      TagsApart(s, CLOSE, j, t, k);
      NotInPart(s, j + |CLOSE|, |s|, t, k);
    }
  }

  lemma FrameParts(s: string, a: string, b: string, c: string)
    requires Framed(s, a, b, c)
    ensures var i, j := |a|, |a| + |OPEN| + |b|;
            && Occurs(s, OPEN, i) && Occurs(s, CLOSE, j) && j + |CLOSE| <= |s|
            && TagFree(s[0..i]) && TagFree(s[i + |OPEN|..j]) && TagFree(s[j + |CLOSE|..|s|])
  {
    var i, j := |a|, |a| + |OPEN| + |b|;
    assert s[i..i + |OPEN|] == OPEN && s[j..j + |CLOSE|] == CLOSE;
    assert s[0..i] == a && s[i + |OPEN|..j] == b && s[j + |CLOSE|..|s|] == c;
  }

  /** A tag does not lie within a part that is free of tags. */
  lemma NotInPart(s: string, lo: nat, hi: nat, t: string, k: nat)
    requires lo <= k && hi <= |s| && IsTag(t) && lo <= hi && TagFree(s[lo..hi]) && Occurs(s, t, k)
    ensures k + |t| > hi
  {
    OccursInSlice(s, lo, hi, t, k - lo);
    assert !Occurs(s[lo..hi], t, k - lo);
  }

  /** The search finds the one block, and cutting it out joins what is around it. */
  lemma FramedMatch(s: string, a: string, b: string, c: string)
    requires Framed(s, a, b, c)
    ensures Search(s, 0) == Matched(|a|, |a| + |OPEN| + |b|)
    ensures s[|a| + |OPEN|..|a| + |OPEN| + |b|] == b
    ensures Substitute(s, 0) == a + c
  {
    var i, j := |a|, |a| + |OPEN| + |b|;
    FramedTags(s, a, b, c);
    assert s[0..i] == a && s[i + |OPEN|..j] == b && j + |CLOSE| <= |s| && s[j + |CLOSE|..] == c;
    OneBlock(s, i, j);
    hide Search, Framed, Only;
  }

  /** The only block of a text is found, and nothing behind it. */
  lemma OneBlock(s: string, i: nat, j: nat)
    requires Only(s, OPEN, i) && Only(s, CLOSE, j) && i + |OPEN| <= j
    ensures Search(s, 0) == Matched(i, j) && Search(s, j + |CLOSE|) == NoMatch
  {
    hide Occurs;
    assert Block(s, i, j);
  }

  lemma NoTagWithin(s: string, lo: nat, hi: nat, i: nat, j: nat)
    requires Only(s, OPEN, i) && Only(s, CLOSE, j) && lo <= hi <= |s|
    requires !(lo <= i && i + |OPEN| <= hi) && !(lo <= j && j + |CLOSE| <= hi)
    ensures TagFree(s[lo..hi])
  {
    hide Occurs;
    forall k: nat ensures !Occurs(s[lo..hi], OPEN, k) && !Occurs(s[lo..hi], CLOSE, k) {
      OccursInSlice(s, lo, hi, OPEN, k);
      OccursInSlice(s, lo, hi, CLOSE, k);
    }
  }

  /** One opening and one closing tag, in this order, frame the message. */
  lemma FrameOf(s: string, i: nat, j: nat)
    requires Only(s, OPEN, i) && Only(s, CLOSE, j) && i + |OPEN| <= j
    ensures Framed(s, s[..i], s[i + |OPEN|..j], s[j + |CLOSE|..])
  {
    var a, b, c := s[..i], s[i + |OPEN|..j], s[j + |CLOSE|..];
    assert a == s[0..i] && c == s[j + |CLOSE|..|s|];
    NoTagWithin(s, 0, i, i, j);
    NoTagWithin(s, i + |OPEN|, j, i, j);
    NoTagWithin(s, j + |CLOSE|, |s|, i, j);
    hide TagFree;
    assert s == s[..i] + (s[i..i + |OPEN|] + (s[i + |OPEN|..j] + (s[j..j + |CLOSE|] + s[j + |CLOSE|..])));
  }

  // ----- what the filter accepts -----

  /** The filter's answer when each tag occurs once. */
  lemma FilterWithTags(s: string)
    requires !TagFree(s)
    ensures IsValidMessages(Text(s)) <==> Once(s, OPEN) && Once(s, CLOSE) && BlockShown(s)
  {
    CountIsZero(s, OPEN);
    CountIsZero(s, CLOSE);
    CountIsOne(s, OPEN);
    CountIsOne(s, CLOSE);
    var t := if Absent(s, OPEN) then CLOSE else OPEN;
    var k: nat :| Occurs(s, t, k);
    assert s[k] == s[k..k + |t|][0];
    NotBlank(s, k);
  }

  /** What the filter promises: no tag at all, or one block with something
      inside; and in both cases something to show. */
  ghost predicate WellFormed(s: string) {
    || (TagFree(s) && Shown(s) != "")
    || exists a, b, c :: Framed(s, a, b, c) && Strip(b) != "" && Shown(a + c) != ""
  }

  lemma FramedIsAccepted(s: string, a: string, b: string, c: string)
    requires Framed(s, a, b, c)
    ensures IsValidMessages(Text(s)) <==> Strip(b) != "" && Shown(a + c) != ""
  {
    assert Once(s, OPEN) && Once(s, CLOSE) && !TagFree(s) by {
      FramedTags(s, a, b, c);
    }
    FramedShown(s, a, b, c);
    FilterWithTags(s);
  }

  lemma FramedShown(s: string, a: string, b: string, c: string)
    requires Framed(s, a, b, c)
    ensures BlockShown(s) <==> Strip(b) != "" && Shown(a + c) != ""
  {
    FramedMatch(s, a, b, c);
    var m := Search(s, 0);
    assert s[m.open + |OPEN|..m.close] == b && Substitute(s, 0) == a + c;
  }

  lemma {:induction false} NotBlank(s: string, i: nat)
    requires i < |s| && !IsSpace(s[i])
    ensures Strip(s) != ""
  {
    if IsSpace(s[0]) {
      NotBlank(s[1..], i - 1);
    } else {
      RightKeeps(s, 0);
    }
  }

  lemma {:induction false} RightKeeps(s: string, i: nat)
    requires i < |s| && !IsSpace(s[i])
    ensures |StripRight(s)| > i
    decreases |s|
  {
    if IsSpace(s[|s| - 1]) {
      RightKeeps(s[..|s| - 1], i);
    }
  }

  lemma AcceptedIsFramed(s: string) returns (a: string, b: string, c: string)
    requires IsValidMessages(Text(s)) && !TagFree(s)
    ensures Framed(s, a, b, c) && Strip(b) != "" && Shown(a + c) != ""
  {
    FilterWithTags(s);
    a, b, c := FrameOfMatch(s);
    FramedShown(s, a, b, c);
  }

  lemma OnlyPlace(s: string, t: string, i: nat)
    requires Once(s, t) && Occurs(s, t, i)
    ensures Only(s, t, i)
  {
  }

  lemma FrameOfMatch(s: string) returns (a: string, b: string, c: string)
    requires Once(s, OPEN) && Once(s, CLOSE) && Search(s, 0).Matched?
    ensures Framed(s, a, b, c)
  {
    hide *;
    var m := Search(s, 0);
    BlockParts(s, m.open, m.close);
    OnlyPlace(s, OPEN, m.open);
    OnlyPlace(s, CLOSE, m.close);
    FrameOf(s, m.open, m.close);
    a, b, c := s[..m.open], s[m.open + |OPEN|..m.close], s[m.close + |CLOSE|..];
  }

  /** The filter accepts exactly the well-formed messages. */
  lemma AcceptedIffWellFormed(s: string)
    ensures IsValidMessages(Text(s)) <==> WellFormed(s)
  {
    if TagFree(s) {
      CountIsZero(s, OPEN);
      CountIsZero(s, CLOSE);
      if a, b, c :| Framed(s, a, b, c) {
        FramedTags(s, a, b, c);
      }
    } else {
      if IsValidMessages(Text(s)) {
        var a, b, c := AcceptedIsFramed(s);
      }
      if a, b, c :| Framed(s, a, b, c) && Strip(b) != "" && Shown(a + c) != "" {
        FramedIsAccepted(s, a, b, c);
      }
    }
  }

  // ----- removal -----

  ghost predicate NoBlock(s: string) {
    forall i: nat, j: nat :: !Block(s, i, j)
  }

  lemma NothingToRemove(s: string)
    requires NoBlock(s)
    ensures Substitute(s, 0) == s
  {
  }

  /** Joining the texts around a block can spell a tag across the seam, but
      never a whole block. */
  lemma SeamHasNoBlock(a: string, c: string)
    requires TagFree(a) && TagFree(c)
    ensures NoBlock(a + c)
  {
    var s := a + c;
    forall i: nat, j: nat ensures !Block(s, i, j) {
      AcrossSeam(a, c, OPEN, i);
      AcrossSeam(a, c, CLOSE, j);
    }
  }

  lemma AcrossSeam(a: string, c: string, t: string, i: nat)
    requires Absent(a, t) && Absent(c, t)
    ensures Occurs(a + c, t, i) ==> i < |a| < i + |t|
  {
    var s := a + c;
    assert s[..|a|] == a && s[|a|..] == c;
    OccursInSlice(s, 0, |a|, t, i);
    if i >= |a| {
      assert s[|a|..|s|] == c;
      OccursInSlice(s, |a|, |s|, t, i - |a|);
    }
  }

  lemma SliceHasNoBlock(s: string, lo: nat, hi: nat)
    requires lo <= hi <= |s| && NoBlock(s)
    ensures NoBlock(s[lo..hi])
  {
    forall i: nat, j: nat ensures !Block(s[lo..hi], i, j) {
      OccursInSlice(s, lo, hi, OPEN, i);
      OccursInSlice(s, lo, hi, CLOSE, j);
      assert !Block(s, lo + i, lo + j);
    }
  }

  lemma AcceptedRemoval(s: string)
    requires IsValidMessages(Text(s))
    ensures NoBlock(Substitute(s, 0)) && Shown(Substitute(s, 0)) != ""
  {
    if TagFree(s) {
      CountIsZero(s, OPEN);
      NothingToRemove(s);
    } else {
      var a, b, c := AcceptedIsFramed(s);
      FramedMatch(s, a, b, c);
      SeamHasNoBlock(a, c);
    }
  }

  /** An accepted message keeps some content when its block is removed, and
      removing again changes nothing. */
  lemma RemovalOfAccepted(s: string)
    requires IsValidMessages(Text(s))
    ensures Removed(s) != ""
    ensures Removed(Removed(s)) == Removed(s)
  {
    AcceptedRemoval(s);
    var t := Substitute(s, 0);
    var lo, hi := StripIsSlice(t);
    SliceHasNoBlock(t, lo, hi);
    NothingToRemove(Removed(s));
    StripTwice(t);
  }

  // ----- when removal is idempotent -----

  /** The texts between the blocks that the pattern matches. */
  ghost function Gaps(s: string, from: nat): (r: seq<string>)
    requires from <= |s|
    ensures r != []
    decreases |s| - from
  {
    var m := Search(s, from);
    if m.NoMatch? then [s[from..]] else [s[from..m.open]] + Gaps(s, m.close + |CLOSE|)
  }

  /** Joining `a` and `c` spells an opening tag across the seam, and there is a
      closing tag behind it. */
  ghost predicate Spells(a: string, c: string) {
    exists n: nat :: SpellsAt(a, c, n)
  }

  ghost predicate SpellsAt(a: string, c: string, n: nat) {
    && 0 < n < |OPEN| && n <= |a| && |OPEN| - n <= |c|
    && a[|a| - n..] == OPEN[..n] && c[..|OPEN| - n] == OPEN[n..]
    && !Absent(c[|OPEN| - n..], CLOSE)
  }

  /** No gap in front of a match holds an opening tag, and the last gap holds
      no block. */
  ghost predicate AreGaps(g: seq<string>) {
    && g != []
    && (forall k :: 0 <= k < |g| - 1 ==> Absent(g[k], OPEN))
    && NoBlock(g[|g| - 1])
  }

  /** What the removal keeps is the gaps, joined. */
  lemma {:induction false} GapsAre(s: string, from: nat)
    requires from <= |s|
    ensures AreGaps(Gaps(s, from)) && Flatten(Gaps(s, from)) == Substitute(s, from)
    decreases |s| - from
  {
    var m := Search(s, from);
    var g := Gaps(s, from);
    if m.NoMatch? {
      TailHasNoBlock(s, from);
      assert g[1..] == [];
    } else {
      GapsAre(s, m.close + |CLOSE|);
      GapHasNoOpening(s, from, m.open);
      assert g[1..] == Gaps(s, m.close + |CLOSE|);
      assert g[0] == s[from..m.open];
    }
  }

  lemma TailHasNoBlock(s: string, from: nat)
    requires from <= |s| && Search(s, from).NoMatch?
    ensures NoBlock(s[from..])
  {
    assert s[from..] == s[from..|s|];
    forall i: nat, j: nat ensures !Block(s[from..], i, j) {
      OccursInSlice(s, from, |s|, OPEN, i);
      OccursInSlice(s, from, |s|, CLOSE, j);
      assert !Block(s, from + i, from + j);
    }
  }

  lemma GapHasNoOpening(s: string, from: nat, i: nat)
    requires from <= i <= |s| && Find(s, OPEN, from) == i
    ensures Absent(s[from..i], OPEN)
  {
    forall k: nat ensures !Occurs(s[from..i], OPEN, k) {
      OccursInSlice(s, from, i, OPEN, k);
    }
  }

  /** A tag spelled across the seam with a closing tag behind it is a block. */
  lemma SpelledBlock(a: string, c: string, n: nat)
    requires SpellsAt(a, c, n)
    ensures !NoBlock(a + c)
  {
    var s, m := a + c, |OPEN| - n;
    var k: nat :| Occurs(c[m..], CLOSE, k);
    assert c[m..] == c[m..|c|];
    OccursInSlice(c, m, |c|, CLOSE, k);
    assert s[|a|..|s|] == c;
    OccursInSlice(s, |a|, |s|, CLOSE, m + k);
    assert s[|a| - n..|a| - n + |OPEN|] == a[|a| - n..] + c[..m] == OPEN[..n] + OPEN[n..] == OPEN;
    assert Block(s, |a| - n, |a| + m + k);
  }

  /** The other way round, for a block whose opening tag crosses the seam. */
  lemma BlockSpells(a: string, c: string, i: nat, j: nat)
    requires Block(a + c, i, j) && i < |a| < i + |OPEN|
    ensures Spells(a, c)
  {
    var s, n := a + c, |a| - i;
    var m := |OPEN| - n;
    assert i + |OPEN| <= |s|;
    SliceOfSlice(s, i, i + |OPEN|, 0, n);
    SliceOfSlice(s, i, i + |OPEN|, n, |OPEN|);
    assert s[i..|a|] == a[i..] && s[|a|..|a| + m] == c[..m];
    assert OPEN[0..n] == OPEN[..n] && OPEN[n..|OPEN|] == OPEN[n..];
    assert s[|a| + m..|s|] == c[m..];
    OccursInSlice(s, |a| + m, |s|, CLOSE, j - (|a| + m));
    assert Occurs(c[m..], CLOSE, j - (|a| + m));
    assert SpellsAt(a, c, n);
  }

  lemma SpellsMore(x: string, a: string, c: string)
    requires Spells(a, c)
    ensures Spells(x + a, c)
  {
    var n: nat :| SpellsAt(a, c, n);
    assert (x + a)[|x + a| - n..] == a[|a| - n..];
    assert SpellsAt(x + a, c, n);
  }

  /** A block in the joined gaps has its opening tag across some seam. */
  lemma {:induction false} BlockCrossesSeam(g: seq<string>, i: nat, j: nat) returns (k: nat)
    requires AreGaps(g) && Block(Flatten(g), i, j)
    ensures 0 < k < |g| && Spells(Flatten(g[..k]), Flatten(g[k..]))
    decreases |g|
  {
    hide Absent, NoBlock, Block, Spells, Flatten, Occurs;
    var a, c := g[0], Flatten(g[1..]);
    FlattenHead(g);
    FirstGap(g, i, j);
    if i < |a| {
      k := 1;
      BlockSpells(a, c, i, j);
    } else {
      BlockInRest(a, c, i, j);
      RestAreGaps(g);
      var l := BlockCrossesSeam(g[1..], i - |a|, j - |a|);
      k := l + 1;
      SpellsMore(a, Flatten(g[1..][..l]), Flatten(g[1..][l..]));
      FlattenHead(g[..k]);
      assert g[..k][1..] == g[1..][..l] && g[k..] == g[1..][l..];
    }
  }

  lemma FlattenHead(g: seq<string>)
    requires g != []
    ensures Flatten(g) == g[0] + Flatten(g[1..])
    ensures Flatten(g[..1]) == g[0]
  {
    assert g[..1] == [g[0]] && [g[0]][1..] == [];
  }

  /** An opening tag does not lie within the first gap, and that is not the last. */
  lemma FirstGap(g: seq<string>, i: nat, j: nat)
    requires AreGaps(g) && Flatten(g) == g[0] + Flatten(g[1..]) && Block(Flatten(g), i, j)
    ensures |g| > 1 && i + |OPEN| > |g[0]|
  {
    var s := Flatten(g);
    assert s[0..|g[0]|] == g[0];
    OccursInSlice(s, 0, |g[0]|, OPEN, i);
    if |g| == 1 {
      FlattenOne(g);
    }
  }

  lemma FlattenOne(g: seq<string>)
    requires |g| == 1
    ensures Flatten(g) == g[0]
  {
    assert g[1..] == [];
  }

  lemma BlockInRest(a: string, c: string, i: nat, j: nat)
    requires Block(a + c, i, j) && i >= |a|
    ensures Block(c, i - |a|, j - |a|)
  {
    var s := a + c;
    assert s[|a|..|s|] == c;
    OccursInSlice(s, |a|, |s|, OPEN, i - |a|);
    OccursInSlice(s, |a|, |s|, CLOSE, j - |a|);
  }

  lemma RestAreGaps(g: seq<string>)
    requires AreGaps(g) && |g| > 1
    ensures AreGaps(g[1..])
  {
    hide Absent, NoBlock;
  }

  /** No opening tag is spelled across a cut with a closing tag behind it. */
  ghost predicate NothingSpelled(g: seq<string>) {
    forall k :: 0 < k < |g| ==> !Spells(Flatten(g[..k]), Flatten(g[k..]))
  }

  lemma JoinedGaps(g: seq<string>)
    requires AreGaps(g)
    ensures NoBlock(Flatten(g)) <==> NothingSpelled(g)
  {
    if NoBlock(Flatten(g)) {
      forall k | 0 < k < |g| ensures !Spells(Flatten(g[..k]), Flatten(g[k..])) {
        assert g == g[..k] + g[k..];
        FlattenConcat(g[..k], g[k..]);
        if n: nat :| SpellsAt(Flatten(g[..k]), Flatten(g[k..]), n) {
          SpelledBlock(Flatten(g[..k]), Flatten(g[k..]), n);
        }
      }
    } else {
      var i: nat, j: nat :| Block(Flatten(g), i, j);
      var k := BlockCrossesSeam(g, i, j);
    }
  }

  lemma BlockParts(s: string, i: nat, j: nat)
    requires Block(s, i, j)
    ensures Occurs(s, OPEN, i) && Occurs(s, CLOSE, j) && i + |OPEN| <= j && j + |CLOSE| <= |s|
  {
  }

  lemma {:induction false} SubstituteShortens(s: string, from: nat)
    requires from <= |s|
    ensures |Substitute(s, from)| <= |s| - from
    ensures Search(s, from).Matched? ==> |Substitute(s, from)| < |s| - from
    decreases |s| - from
  {
    hide Search, Occurs;
    var m := Search(s, from);
    if m.Matched? {
      assert m.open + |OPEN| + |CLOSE| <= m.close + |CLOSE| <= |s| by {
        BlockParts(s, m.open, m.close);
      }
      SubstituteShortens(s, m.close + |CLOSE|);
    }
  }

  lemma TagEnds(s: string, t: string, i: nat)
    requires IsTag(t) && Occurs(s, t, i)
    ensures i + |t| <= |s| && !IsSpace(s[i]) && !IsSpace(s[i + |t| - 1])
  {
    assert s[i] == s[i..i + |t|][0] == t[0] && s[i + |t| - 1] == s[i..i + |t|][|t| - 1] == t[|t| - 1];
  }

  lemma BlockInSlice(t: string, lo: nat, hi: nat, i: nat, j: nat)
    requires Block(t, i, j) && lo <= i && j + |CLOSE| <= hi <= |t|
    ensures Block(t[lo..hi], i - lo, j - lo)
  {
    OccursInSlice(t, lo, hi, OPEN, i - lo);
    OccursInSlice(t, lo, hi, CLOSE, j - lo);
  }

  /** Stripping does not cut into a block. */
  lemma StripKeepsBlocks(t: string)
    ensures NoBlock(Strip(t)) <==> NoBlock(t)
  {
    hide Strip, IsSpace, Occurs;
    var lo, hi := StripIsSlice(t);
    if NoBlock(t) {
      SliceHasNoBlock(t, lo, hi);
    } else {
      var i: nat, j: nat :| Block(t, i, j);
      TagEnds(t, OPEN, i);
      TagEnds(t, CLOSE, j);
      BlockInSlice(t, lo, hi, i, j);
      assert Block(Strip(t), i - lo, j - lo);
    }
  }

  lemma RemovedIsFixed(t: string)
    ensures Removed(Strip(t)) == Strip(t) <==> NoBlock(t)
  {
    var u := Strip(t);
    StripKeepsBlocks(t);
    if NoBlock(u) {
      NothingToRemove(u);
      StripTwice(t);
    } else {
      SubstituteShortens(u, 0);
      var lo, hi := StripIsSlice(Substitute(u, 0));
      assert Search(u, 0).Matched?;
    }
  }

  /** For every text: removing blocks a second time changes nothing exactly when
      no cut of the first removal joins an opening tag that a closing tag
      follows. */
  lemma RemovalIsIdempotentIff(s: string)
    ensures Removed(Removed(s)) == Removed(s) <==> NothingSpelled(Gaps(s, 0))
  {
    GapsAre(s, 0);
    JoinedGaps(Gaps(s, 0));
    RemovedIsFixed(Substitute(s, 0));
  }

  // ----- one block -----

  /** The search finds the block that no opening tag precedes, up to its first
      closing tag. */
  lemma SingleMatch(a: string, b: string, c: string)
    requires Absent(a, OPEN) && Absent(b, CLOSE) && NoBlock(c)
    ensures var s, j := a + (OPEN + (b + (CLOSE + c))), |a| + |OPEN| + |b|;
            && Search(s, 0) == Matched(|a|, j) && Search(s, j + |CLOSE|) == NoMatch
            && s[0..|a|] == a && j + |CLOSE| <= |s| && s[j + |CLOSE|..] == c
  {
    var s, i, j := a + (OPEN + (b + (CLOSE + c))), |a|, |a| + |OPEN| + |b|;
    assert Occurs(s, OPEN, i) && Occurs(s, CLOSE, j) by {
      assert s[i..i + |OPEN|] == OPEN && s[j..j + |CLOSE|] == CLOSE;
    }
    assert s[0..i] == a && s[i + |OPEN|..j] == b && s[j + |CLOSE|..|s|] == c == s[j + |CLOSE|..];
    hide Occurs, Absent, NoBlock, NoneIn, Block, Find;
    NoneBefore(s, 0, i, OPEN, OPEN);
    NoneBefore(s, i + |OPEN|, j, CLOSE, CLOSE);
    NoBlockBehind(s, j + |CLOSE|);
    FirstIs(s, OPEN, 0, i);
    FirstIs(s, CLOSE, i + |OPEN|, j);
  }

  lemma FirstIs(s: string, t: string, from: nat, i: nat)
    requires from <= i && Occurs(s, t, i) && NoneIn(s, t, from, i)
    ensures Find(s, t, from) == i
  {
    var r := Find(s, t, from);
  }

  /** A tag that a part does not hold does not begin in it, when another tag
      begins behind the part. */
  lemma NoneBefore(s: string, lo: nat, hi: nat, t: string, u: string)
    requires lo <= hi <= |s| && IsTag(t) && IsTag(u) && Absent(s[lo..hi], t) && Occurs(s, u, hi)
    ensures NoneIn(s, t, lo, hi)
  {
    forall k: nat | lo <= k < hi ensures !Occurs(s, t, k) {
      if Occurs(s, t, k) {
        TagsApart(s, t, k, u, hi);
        OccursInSlice(s, lo, hi, t, k - lo);
      }
    }
  }

  lemma NoBlockBehind(s: string, from: nat)
    requires from <= |s| && NoBlock(s[from..])
    ensures Search(s, from) == NoMatch
  {
    assert s[from..] == s[from..|s|];
    var m := Search(s, from);
    if m.Matched? {
      OccursInSlice(s, from, |s|, OPEN, m.open - from);
      OccursInSlice(s, from, |s|, CLOSE, m.close - from);
      assert Block(s[from..], m.open - from, m.close - from);
    }
  }

  /** For a text with one match, `a` in front of it and `c` behind it, removal
      is idempotent exactly when joining `a` and `c` spells no opening tag that
      a closing tag follows. */
  lemma SingleRemovalIsIdempotentIff(a: string, b: string, c: string)
    requires Absent(a, OPEN) && Absent(b, CLOSE) && NoBlock(c)
    ensures var s := a + (OPEN + (b + (CLOSE + c)));
            && Substitute(s, 0) == a + c
            && (Removed(Removed(s)) == Removed(s) <==> !Spells(a, c))
  {
    hide *;
    var s := a + (OPEN + (b + (CLOSE + c)));
    TwoGaps(a, b, c);
    GapsAre(s, 0);
    RemovalIsIdempotentIff(s);
    TwoSeams(a, c);
  }

  lemma TwoGaps(a: string, b: string, c: string)
    requires Absent(a, OPEN) && Absent(b, CLOSE) && NoBlock(c)
    ensures Gaps(a + (OPEN + (b + (CLOSE + c))), 0) == [a, c]
  {
    SingleMatch(a, b, c);
    hide Search, Absent, NoBlock;
  }

  lemma TwoSeams(a: string, c: string)
    ensures Flatten([a, c]) == a + c
    ensures NothingSpelled([a, c]) <==> !Spells(a, c)
  {
    var g := [a, c];
    assert g[..1] == [a] && g[1..] == [c];
    FlattenOne(g[..1]);
    FlattenOne(g[1..]);
    hide Spells;
  }

  const JOINED := OPEN + ("y" + CLOSE)
  const SPLIT := "<thi" + (OPEN + ("x" + (CLOSE + ("nk>y" + CLOSE))))

  /** The condition is real: the text around a block can join to a block, and
      removing that may leave nothing. */
  lemma RemovalOfRejected()
    ensures Substitute(SPLIT, 0) == JOINED && Substitute(JOINED, 0) == ""
    ensures Removed(Removed(SPLIT)) != Removed(SPLIT)
  {
    hide Substitute, Gaps, Spells, Removed;
    JoinSpells();
    assert NoBlock("nk>y" + CLOSE) by {
      NoOpening("nk>y" + CLOSE);
    }
    assert Absent("<thi", OPEN) && Absent("", OPEN) && Absent("x", CLOSE) && Absent("y", CLOSE) && NoBlock("");
    SingleRemovalIsIdempotentIff("<thi", "x", "nk>y" + CLOSE);
    assert "<thi" + ("nk>y" + CLOSE) == JOINED;
    SingleRemovalIsIdempotentIff("", "y", "");
    assert "" + (OPEN + ("y" + (CLOSE + ""))) == JOINED;
  }

  lemma JoinSpells()
    ensures Spells("<thi", "nk>y" + CLOSE)
  {
    var c := "nk>y" + CLOSE;
    assert c[3..] == "y" + CLOSE;
    assert c[3..][1..1 + |CLOSE|] == CLOSE;
    assert Occurs(c[3..], CLOSE, 1);
    assert c[..3] == "nk>" == OPEN[4..] && "<thi"[0..] == "<thi" == OPEN[..4];
    assert SpellsAt("<thi", c, 4);
  }

  lemma StartsWithBracket(s: string, t: string, k: nat)
    requires IsTag(t)
    ensures Occurs(s, t, k) ==> s[k] == '<' && s[k + 1] == t[1]
  {
    if Occurs(s, t, k) {
      assert s[k..k + |t|][0] == t[0] && s[k..k + |t|][1] == t[1];
    }
  }

  lemma NoOpening(c: string)
    requires c == "nk>y" + CLOSE
    ensures Absent(c, OPEN)
  {
    forall k: nat ensures !Occurs(c, OPEN, k) {
      StartsWithBracket(c, OPEN, k);
    }
  }

  // ----- the message -----

  class Message {
    var content: Content

    /** Cuts every block out of a string; what the filter accepts keeps some
        content and is left alone by a second call. */
    method RemoveThinkBlock()
      modifies this
      ensures content == if old(content).Text? then Text(Removed(old(content).s)) else old(content)
      ensures content.Text? && IsValidMessages(old(content)) ==> content.s != "" && Removed(content.s) == content.s
      ensures content.Text? ==> (Removed(content.s) == content.s <==> NothingSpelled(Gaps(old(content).s, 0)))
    {
      if content.Text? {
        RemovalIsIdempotentIff(content.s);
        if IsValidMessages(content) {
          RemovalOfAccepted(content.s);
        }
        content := Text(Strip(Substitute(content.s, 0)));
      }
    }
  }
}
