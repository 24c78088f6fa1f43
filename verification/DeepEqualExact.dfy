/** What the comparison means: it never rejects objects without a finite
    difference, and it accepts nothing else exactly when the first object
    holds no cycle. */
module DeepEqualExact {
  import opened DeepEqual

  // ----- structural equality -----

  /** The same number, where NaN is one. */
  ghost predicate SameNumber(x: Num, y: Num) {
    (x.NaN? && y.NaN?) || (x.Real? && y.Real? && x.x == y.x)
  }

  /** No difference between two objects that is seen without dereferencing. */
  ghost predicate SameSurface(m: Node, n: Node) {
    match m
    case Float(x) => n.Float? && SameNumber(x, n.v)
    case Opaque(tag, value) => n.Opaque? && n.tag == tag && n.value == value
    case Values(dtype, shape, vals) =>
      && n.Values? && n.dtype == dtype && n.shape == shape && |n.vals| == |vals|
      && forall i :: 0 <= i < |vals| ==> SameNumber(vals[i], n.vals[i])
    case Objects(shape, _) => n.Objects? && n.shape == shape
  }

  /** The comparison's leaf test sees just that. */
  lemma MatchesIffSameSurface(m: Node, n: Node)
    ensures Matches(m, n) <==> SameSurface(m, n)
  {
    if m.Values? && n.Values? && |m.vals| == |n.vals| {
      forall i | 0 <= i < |m.vals| ensures FloatEqual(m.vals[i], n.vals[i]) <==> SameNumber(m.vals[i], n.vals[i]) {
      }
    }
  }

  /** No difference within `k` steps of dereferencing. */
  ghost predicate Alike(g: Graph, a: Id, b: Id, k: nat)
    requires Closed(g) && a in g && b in g
    decreases k, 0
  {
    k > 0 ==> SameSurface(g[a], g[b]) && (g[a].Objects? ==> AlikeBelow(g, g[a], g[b], k - 1))
  }

  ghost predicate AlikeBelow(g: Graph, m: Node, n: Node, k: nat)
    requires Closed(g) && NodeClosed(g, m) && NodeClosed(g, n)
    requires m.Objects? && n.Objects? && m.shape == n.shape
    decreases k, 1
  {
    forall i :: 0 <= i < |m.elems| ==> Alike(g, m.elems[i], n.elems[i], k)
  }

  /** No finite difference at all: structural equality, for cyclic objects too. */
  ghost predicate Same(g: Graph, a: Id, b: Id)
    requires Closed(g) && a in g && b in g
  {
    forall k: nat :: Alike(g, a, b, k)
  }

  // ----- nothing alike is rejected -----

  lemma {:induction false} AlikeIsAccepted(g: Graph, a: Id, b: Id, visited: set<Id>, k: nat)
    requires Closed(g) && a in g && b in g && k == |g.Keys - visited| + 1 && Alike(g, a, b, k)
    ensures Equal(g, a, b, visited)
    decreases k, 0
  {
    MatchesIffSameSurface(g[a], g[b]);
    if a !in visited && g[a].Objects? {
      var more := visited + {a};
      assert g.Keys - visited == (g.Keys - more) + {a};
      assert |g.Keys - more| + 1 == k - 1;
      assert AlikeBelow(g, g[a], g[b], k - 1);
      AllAlikeAccepted(g, g[a].elems, g[b].elems, more, k - 1);
    }
  }

  lemma {:induction false} AllAlikeAccepted(g: Graph, xs: seq<Id>, ys: seq<Id>, visited: set<Id>, k: nat)
    requires Closed(g) && |xs| == |ys| && k == |g.Keys - visited| + 1
    requires forall i :: 0 <= i < |xs| ==> xs[i] in g && ys[i] in g && Alike(g, xs[i], ys[i], k)
    ensures AllEqual(g, xs, ys, visited)
    decreases k, |xs| + 1
  {
    if xs != [] {
      AlikeIsAccepted(g, xs[0], ys[0], visited, k);
      AllAlikeAccepted(g, xs[1..], ys[1..], visited, k);
    }
  }

  /** Objects without a finite difference are never rejected, cyclic or not. */
  lemma NeverRejects(g: Graph, a: Id, b: Id)
    requires Closed(g) && a in g && b in g && Same(g, a, b)
    ensures Equal(g, a, b, {})
  {
    AlikeIsAccepted(g, a, b, {}, |g.Keys - {}| + 1);
  }

  // ----- cycles -----

  function Children(g: Graph, a: Id): seq<Id>
    requires a in g
  {
    if g[a].Objects? then g[a].elems else []
  }

  ghost predicate IsPath(g: Graph, p: seq<Id>) {
    && p != [] && (forall i :: 0 <= i < |p| ==> p[i] in g)
    && forall i :: 0 <= i < |p| - 1 ==> Steps(g, p, i)
  }

  ghost predicate Steps(g: Graph, p: seq<Id>, i: nat)
    requires i + 1 < |p| && p[i] in g
  {
    p[i + 1] in Children(g, p[i])
  }

  ghost predicate Repeats(p: seq<Id>) {
    exists i, j :: 0 <= i < j < |p| && p[i] == p[j]
  }

  /** Some path from `a` comes back to an object it has passed. */
  ghost predicate HasCycle(g: Graph, a: Id) {
    exists p :: IsPath(g, p) && p[0] == a && Repeats(p)
  }

  function Members(p: seq<Id>): set<Id> {
    set x | x in p
  }

  lemma PathExtends(g: Graph, p: seq<Id>, child: Id)
    requires Closed(g) && IsPath(g, p) && child in Children(g, p[|p| - 1])
    ensures IsPath(g, p + [child])
  {
    var q := p + [child];
    assert NodeClosed(g, g[p[|p| - 1]]);
    forall i | 0 <= i < |q| - 1 ensures q[i] in g && Steps(g, q, i) {
      if i < |p| - 1 {
        assert Steps(g, p, i);
      }
    }
  }

  // ----- without a cycle nothing different is accepted -----

  lemma {:induction false} AcceptedIsAlike(g: Graph, p: seq<Id>, a: Id, b: Id, k: nat)
    requires Closed(g) && b in g && IsPath(g, p) && p[|p| - 1] == a && !HasCycle(g, p[0])
    requires Equal(g, a, b, Members(p[..|p| - 1]))
    ensures Alike(g, a, b, k)
    decreases k
  {
    if k > 0 {
      NotOnPath(g, p);
      MatchesIffSameSurface(g[a], g[b]);
      if g[a].Objects? {
        var visited := Members(p[..|p| - 1]) + {a};
        assert p == p[..|p| - 1] + [a];
        assert visited == Members(p);
        var less: nat := k - 1;
        forall i | 0 <= i < |g[a].elems| ensures Alike(g, g[a].elems[i], g[b].elems[i], less) {
          var x, y := g[a].elems[i], g[b].elems[i];
          AllEqualAt(g, g[a].elems, g[b].elems, visited, i);
          PathExtends(g, p, x);
          assert (p + [x])[..|p + [x]| - 1] == p;
          AcceptedIsAlike(g, p + [x], x, y, less);
        }
      }
    }
  }

  lemma NotOnPath(g: Graph, p: seq<Id>)
    requires IsPath(g, p) && !HasCycle(g, p[0])
    ensures p[|p| - 1] !in Members(p[..|p| - 1])
  {
    assert !Repeats(p);
    assert forall i :: 0 <= i < |p| - 1 ==> p[i] != p[|p| - 1];
  }

  lemma {:induction false} AllEqualAt(g: Graph, xs: seq<Id>, ys: seq<Id>, visited: set<Id>, i: nat)
    requires Closed(g) && |xs| == |ys| && i < |xs|
    requires forall j :: 0 <= j < |xs| ==> xs[j] in g && ys[j] in g
    requires AllEqual(g, xs, ys, visited)
    ensures Equal(g, xs[i], ys[i], visited)
    decreases |xs|
  {
    if i > 0 {
      AllEqualAt(g, xs[1..], ys[1..], visited, i - 1);
    }
  }

  /** For a first argument without a cycle the comparison is structural equality. */
  lemma ExactWithoutCycle(g: Graph, a: Id, b: Id)
    requires Closed(g) && a in g && b in g && !HasCycle(g, a)
    ensures Equal(g, a, b, {}) <==> Same(g, a, b)
  {
    if Same(g, a, b) {
      NeverRejects(g, a, b);
    }
    if Equal(g, a, b, {}) {
      assert Members([a][..0]) == {};
      forall k: nat ensures Alike(g, a, b, k) {
        AcceptedIsAlike(g, [a], a, b, k);
      }
    }
  }

  /** Two floats compare equal exactly when both are NaN or they are one number. */
  lemma FloatsCompare(g: Graph, a: Id, b: Id)
    requires Closed(g) && a in g && b in g && g[a].Float? && g[b].Float?
    ensures Equal(g, a, b, {}) <==> (g[a].v.NaN? && g[b].v.NaN?) || exists x: real :: g[a].v == Real(x) && g[b].v == Real(x)
  {
    MatchesIffSameSurface(g[a], g[b]);
    hide Matches;
    if g[a].v.Real? && g[b].v.Real? && g[a].v.x == g[b].v.x {
      assert g[a].v == Real(g[a].v.x) && g[b].v == Real(g[a].v.x);
    }
  }

  // ----- with a cycle something different is accepted -----

  /** A path that comes back with its last step and not before. */
  ghost predicate IsLoop(g: Graph, p: seq<Id>) {
    && IsPath(g, p) && |p| >= 2 && !Repeats(p[..|p| - 1]) && p[|p| - 1] in p[..|p| - 1]
  }

  lemma {:induction false} FirstReturn(g: Graph, p: seq<Id>) returns (q: seq<Id>)
    requires IsPath(g, p) && Repeats(p)
    ensures IsLoop(g, q) && q[0] == p[0]
    decreases |p|
  {
    var front := p[..|p| - 1];
    if Repeats(front) {
      assert forall i :: 0 <= i < |front| - 1 ==> (Steps(g, p, i) ==> Steps(g, front, i));
      q := FirstReturn(g, front);
    } else {
      var i, j :| 0 <= i < j < |p| && p[i] == p[j];
      assert front[i] == p[|p| - 1];
      q := p;
    }
  }

  /** The entry through which the path leaves its object `i`. */
  ghost function Slot(g: Graph, p: seq<Id>, i: nat): (c: nat)
    requires IsPath(g, p) && i < |p| - 1
    ensures g[p[i]].Objects? && c < |g[p[i]].elems| && g[p[i]].elems[c] == p[i + 1]
  {
    assert Steps(g, p, i);
    var c :| 0 <= c < |Children(g, p[i])| && Children(g, p[i])[c] == p[i + 1];
    c
  }

  /** A copy of the path's object `i` that leads to copy `i + 1`; the last one
      is an empty array instead. */
  ghost function Decoy(g: Graph, p: seq<Id>, base: Id, i: nat): Node
    requires IsPath(g, p) && i < |p|
  {
    if i == |p| - 1 then Objects([0], [])
    else
      var c := Slot(g, p, i);
      Objects(g[p[i]].shape, g[p[i]].elems[c := base + i + 1])
  }

  ghost function WithDecoys(g: Graph, p: seq<Id>, base: Id): (h: Graph)
    requires IsPath(g, p) && forall a :: a in g ==> a < base
    ensures forall a :: a in h <==> a in g || base <= a < base + |p|
    ensures Extends(g, h)
  {
    map a: Id | 0 <= a < base + |p| && (a in g || a >= base) :: if a >= base then Decoy(g, p, base, a - base) else g[a]
  }

  /** The same objects, and perhaps more. */
  ghost predicate Extends(g: Graph, h: Graph) {
    forall a :: a in g ==> a in h && h[a] == g[a]
  }

  lemma {:induction false} FreshId(keys: set<Id>) returns (base: Id)
    ensures forall a :: a in keys ==> a < base
    decreases keys
  {
    if keys == {} {
      base := 0;
    } else {
      var a :| a in keys;
      var below := FreshId(keys - {a});
      base := if a < below then below else a + 1;
      assert forall x :: x in keys ==> x == a || x in keys - {a};
    }
  }

  lemma DecoysClosed(g: Graph, p: seq<Id>, base: Id)
    requires Closed(g) && IsPath(g, p) && forall a :: a in g ==> a < base
    ensures Closed(WithDecoys(g, p, base))
  {
    var h := WithDecoys(g, p, base);
    forall a | a in h ensures NodeClosed(h, h[a]) {
      if a >= base {
        DecoyClosed(g, p, base, a - base);
      } else {
        assert NodeClosed(g, g[a]);
      }
    }
  }

  lemma DecoyClosed(g: Graph, p: seq<Id>, base: Id, i: nat)
    requires Closed(g) && IsPath(g, p) && i < |p| && forall a :: a in g ==> a < base
    ensures NodeClosed(WithDecoys(g, p, base), Decoy(g, p, base, i))
  {
    if i < |p| - 1 {
      assert NodeClosed(g, g[p[i]]);
    } else {
      assert Size([0]) == 0 * Size([0][1..]);
    }
  }

  lemma {:induction false} Reflexive(g: Graph, a: Id, visited: set<Id>)
    requires Closed(g) && a in g
    ensures Equal(g, a, a, visited)
    decreases g.Keys - visited, 0
  {
    if a !in visited && g[a].Objects? {
      assert a in g.Keys - visited;
      AllReflexive(g, g[a].elems, visited + {a});
    }
  }

  lemma {:induction false} AllReflexive(g: Graph, xs: seq<Id>, visited: set<Id>)
    requires Closed(g) && forall i :: 0 <= i < |xs| ==> xs[i] in g
    ensures AllEqual(g, xs, xs, visited)
    decreases g.Keys - visited, |xs| + 1
  {
    if xs != [] {
      Reflexive(g, xs[0], visited);
      AllReflexive(g, xs[1..], visited);
    }
  }

  /** Equal entries and one entry that is accepted are accepted together. */
  lemma {:induction false} AllEqualBut(g: Graph, xs: seq<Id>, c: nat, y: Id, visited: set<Id>)
    requires Closed(g) && c < |xs| && y in g && forall i :: 0 <= i < |xs| ==> xs[i] in g
    requires Equal(g, xs[c], y, visited)
    ensures AllEqual(g, xs, xs[c := y], visited)
    decreases |xs|
  {
    if c == 0 {
      AllReflexive(g, xs[1..], visited);
      assert xs[c := y][1..] == xs[1..];
    } else {
      Reflexive(g, xs[0], visited);
      AllEqualBut(g, xs[1..], c - 1, y, visited);
      assert xs[c := y][1..] == xs[1..][c - 1 := y];
    }
  }

  /** The comparison follows the path alongside the copies and stops, satisfied,
      where the path comes back. */
  lemma {:induction false} DecoyAccepted(g: Graph, p: seq<Id>, base: Id, i: nat)
    requires Closed(g) && IsLoop(g, p) && i < |p| && forall a :: a in g ==> a < base
    ensures Closed(WithDecoys(g, p, base))
    ensures Equal(WithDecoys(g, p, base), p[i], base + i, Members(p[..i]))
    decreases |p| - i
  {
    DecoysClosed(g, p, base);
    if i == |p| - 1 {
      LoopNode(g, p);
      assert p[i] in Members(p[..i]);
    } else {
      DecoyAccepted(g, p, base, i + 1);
      DecoyStep(g, p, base, i);
    }
  }

  lemma DecoyStep(g: Graph, p: seq<Id>, base: Id, i: nat)
    requires Closed(g) && IsLoop(g, p) && i < |p| - 1 && forall a :: a in g ==> a < base
    requires Closed(WithDecoys(g, p, base))
    requires Equal(WithDecoys(g, p, base), p[i + 1], base + i + 1, Members(p[..i + 1]))
    ensures Equal(WithDecoys(g, p, base), p[i], base + i, Members(p[..i]))
  {
    hide IsPath, Repeats, WithDecoys, Decoy, Slot, Members, Equal, AllEqual, Closed, NodeClosed;
    var h := WithDecoys(g, p, base);
    var visited := Members(p[..i]);
    MembersAppend(p, i);
    var c := DecoyNodes(g, p, base, i);
    AllEqualBut(h, h[p[i]].elems, c, base + i + 1, visited + {p[i]});
    EqualStep(h, p[i], base + i, visited);
  }

  lemma MembersAppend(p: seq<Id>, i: nat)
    requires i < |p|
    ensures Members(p[..i + 1]) == Members(p[..i]) + {p[i]}
  {
    assert p[..i + 1] == p[..i] + [p[i]];
  }

  /** The copy of object `i` differs from it in the entry that leads on. */
  lemma DecoyNodes(g: Graph, p: seq<Id>, base: Id, i: nat) returns (c: nat)
    requires Closed(g) && IsLoop(g, p) && i < |p| - 1 && forall a :: a in g ==> a < base
    requires Closed(WithDecoys(g, p, base))
    ensures var h := WithDecoys(g, p, base);
            && p[i] in h && base + i in h && base + i + 1 in h && p[i + 1] in h
            && h[p[i]].Objects? && h[base + i].Objects? && h[p[i]].shape == h[base + i].shape
            && NodeClosed(h, h[p[i]]) && NodeClosed(h, h[base + i])
            && c < |h[p[i]].elems| && h[p[i]].elems[c] == p[i + 1]
            && h[base + i].elems == h[p[i]].elems[c := base + i + 1]
            && forall k :: 0 <= k < |h[p[i]].elems| ==> h[p[i]].elems[k] in h
  {
    c := Slot(g, p, i);
    var h := WithDecoys(g, p, base);
    hide Slot, Equal, AllEqual, IsLoop;
    assert p[i] in g && p[i + 1] in g;
    assert h[base + i] == Decoy(g, p, base, i);
    assert NodeClosed(h, h[p[i]]) && NodeClosed(h, h[base + i]);
  }

  lemma EqualStep(g: Graph, a: Id, b: Id, visited: set<Id>)
    requires Closed(g) && a in g && b in g
    requires g[a].Objects? && g[b].Objects? && g[a].shape == g[b].shape && NodeClosed(g, g[a]) && NodeClosed(g, g[b])
    requires AllEqual(g, g[a].elems, g[b].elems, visited + {a})
    ensures Equal(g, a, b, visited)
  {
    hide AllEqual;
  }

  /** The object the loop comes back to is a non-empty array. */
  lemma LoopNode(g: Graph, p: seq<Id>)
    requires Closed(g) && IsLoop(g, p)
    ensures var n := g[p[|p| - 1]]; n.Objects? && n.shape != [0]
  {
    var j :| 0 <= j < |p| - 1 && p[..|p| - 1][j] == p[|p| - 1];
    var c := Slot(g, p, j);
    assert NodeClosed(g, g[p[j]]);
    assert Size([0]) == 0 * Size([0][1..]);
  }

  /** But the copies end in a different array. */
  lemma {:induction false} DecoyDiffers(g: Graph, p: seq<Id>, base: Id, i: nat)
    requires Closed(g) && IsLoop(g, p) && i < |p| && forall a :: a in g ==> a < base
    ensures Closed(WithDecoys(g, p, base))
    ensures !Alike(WithDecoys(g, p, base), p[i], base + i, |p| - i)
    decreases |p| - i
  {
    DecoysClosed(g, p, base);
    if i == |p| - 1 {
      LoopNode(g, p);
      EndDiffers(g, p, base);
    } else {
      hide *;
      DecoyDiffers(g, p, base, i + 1);
      StepDiffers(g, p, base, i);
    }
  }

  lemma EndDiffers(g: Graph, p: seq<Id>, base: Id)
    requires Closed(g) && IsLoop(g, p) && (forall a :: a in g ==> a < base) && Closed(WithDecoys(g, p, base))
    requires g[p[|p| - 1]].Objects? && g[p[|p| - 1]].shape != [0]
    ensures !Alike(WithDecoys(g, p, base), p[|p| - 1], base + (|p| - 1), 1)
  {
    var h := WithDecoys(g, p, base);
    assert !SameSurface(h[p[|p| - 1]], h[base + (|p| - 1)]);
  }

  lemma StepDiffers(g: Graph, p: seq<Id>, base: Id, i: nat)
    requires Closed(g) && IsLoop(g, p) && i < |p| - 1 && (forall a :: a in g ==> a < base) && Closed(WithDecoys(g, p, base))
    requires !Alike(WithDecoys(g, p, base), p[i + 1], base + (i + 1), |p| - (i + 1))
    ensures !Alike(WithDecoys(g, p, base), p[i], base + i, |p| - i)
  {
    var h := WithDecoys(g, p, base);
    var c := Slot(g, p, i);
    var k: nat := |p| - (i + 1);
    assert h[base + i] == Decoy(g, p, base, i);
    assert !Alike(h, h[p[i]].elems[c], h[base + i].elems[c], k);
    assert SameSurface(h[p[i]], h[base + i]) ==> !AlikeBelow(h, h[p[i]], h[base + i], k);
  }

  /** For every object that holds a cycle there is a different one that the
      comparison takes for equal. */
  lemma CycleAcceptsDifferent(g: Graph, a: Id) returns (h: Graph, b: Id)
    requires Closed(g) && a in g && HasCycle(g, a)
    ensures Extends(g, h) && Closed(h) && b in h && Equal(h, a, b, {}) && !Same(h, a, b)
  {
    var p :| IsPath(g, p) && p[0] == a && Repeats(p);
    var q := FirstReturn(g, p);
    b := FreshId(g.Keys);
    h := WithDecoys(g, q, b);
    DecoyAccepted(g, q, b, 0);
    DecoyDiffers(g, q, b, 0);
    assert Members(q[..0]) == {};
  }

  // ----- the exact condition -----

  /** In larger graphs `a` reaches the same objects. */
  lemma CyclePersists(g: Graph, h: Graph, a: Id)
    requires Closed(g) && Extends(g, h) && a in g
    ensures HasCycle(h, a) ==> HasCycle(g, a)
  {
    if p :| IsPath(h, p) && p[0] == a && Repeats(p) {
      PathStays(g, h, p, |p|);
      assert p[..|p|] == p;
    }
  }

  lemma {:induction false} PathStays(g: Graph, h: Graph, p: seq<Id>, n: nat)
    requires Closed(g) && Extends(g, h) && IsPath(h, p) && p[0] in g && 0 < n <= |p|
    ensures IsPath(g, p[..n])
    decreases n
  {
    if n > 1 {
      PathStays(g, h, p, n - 1);
      assert Steps(h, p, n - 2);
      PathExtends(g, p[..n - 1], p[n - 1]);
      assert p[..n] == p[..n - 1] + [p[n - 1]];
    }
  }

  /** Against whatever objects there may be, the comparison decides structural
      equality. */
  ghost predicate Decides(g: Graph, a: Id)
    requires Closed(g) && a in g
  {
    forall h: Graph, b: Id :: Extends(g, h) && Closed(h) && b in h ==> (Equal(h, a, b, {}) <==> Same(h, a, b))
  }

  /** It does so exactly for the objects without a cycle. */
  lemma DecidesIffAcyclic(g: Graph, a: Id)
    requires Closed(g) && a in g
    ensures Decides(g, a) <==> !HasCycle(g, a)
  {
    if HasCycle(g, a) {
      var h, b := CycleAcceptsDifferent(g, a);
    } else {
      forall h: Graph, b: Id | Extends(g, h) && Closed(h) && b in h ensures Equal(h, a, b, {}) <==> Same(h, a, b) {
        CyclePersists(g, h, a);
        ExactWithoutCycle(h, a, b);
      }
    }
  }
}
