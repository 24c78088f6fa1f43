/** Comparing object graphs that may hold NaNs and may be cyclic. */
module DeepEqual {

  type Id = nat

  /** A float: a number or not one. */
  datatype Num = NaN | Real(x: real)

  /** An object: a float, an opaque value of some type with its own equality,
      an array of plain values, or an array of object references. */
  datatype Node =
    | Float(v: Num)
    | Opaque(tag: nat, value: nat)
    | Values(dtype: nat, shape: seq<nat>, vals: seq<Num>)
    | Objects(shape: seq<nat>, elems: seq<Id>)

  type Graph = map<Id, Node>

  function Size(shape: seq<nat>): nat {
    if shape == [] then 1 else shape[0] * Size(shape[1..])
  }

  /** References lead to objects, and arrays have as many entries as their shape says. */
  ghost predicate Closed(g: Graph) {
    forall a :: a in g ==> NodeClosed(g, g[a])
  }

  ghost predicate NodeClosed(g: Graph, n: Node) {
    match n
    case Values(_, shape, vals) => |vals| == Size(shape)
    case Objects(shape, elems) => |elems| == Size(shape) && forall i :: 0 <= i < |elems| ==> elems[i] in g
    case _ => true
  }

  // ----- the comparison -----

  predicate SameType(m: Node, n: Node) {
    match m
    case Float(_) => n.Float?
    case Opaque(tag, _) => n.Opaque? && n.tag == tag
    case _ => n.Values? || n.Objects?
  }

  /** The host language's equality, in which NaN equals nothing. */
  predicate NumEqual(x: Num, y: Num) {
    x.Real? && y.Real? && x.x == y.x
  }

  predicate FloatEqual(x: Num, y: Num) {
    if x.NaN? && y.NaN? then true else NumEqual(x, y)
  }

  /** What can be compared without following references. */
  predicate Matches(m: Node, n: Node)
  {
    match m
    case Float(v) => n.Float? && FloatEqual(v, n.v)
    case Opaque(tag, value) => n.Opaque? && tag == n.tag && value == n.value
    case Values(dtype, shape, vals) =>
      && n.Values? && dtype == n.dtype && shape == n.shape && |vals| == |n.vals|
      && forall i :: 0 <= i < |vals| ==> FloatEqual(vals[i], n.vals[i])
    case Objects(shape, _) => n.Objects? && shape == n.shape
  }

  /** The comparison's answer below the objects in `visited`. */
  predicate Equal(g: Graph, a: Id, b: Id, visited: set<Id>)
    requires Closed(g) && a in g && b in g
    decreases g.Keys - visited, 0
  {
    if !SameType(g[a], g[b]) then false
    else if a in visited then true
    else if !Matches(g[a], g[b]) then false
    else if g[a].Objects? then
      assert a in g.Keys - visited;
      AllEqual(g, g[a].elems, g[b].elems, visited + {a})
    else true
  }

  predicate AllEqual(g: Graph, xs: seq<Id>, ys: seq<Id>, visited: set<Id>)
    requires Closed(g) && |xs| == |ys|
    requires forall i :: 0 <= i < |xs| ==> xs[i] in g && ys[i] in g
    decreases g.Keys - visited, |xs|
  {
    xs == [] || (Equal(g, xs[0], ys[0], visited) && AllEqual(g, xs[1..], ys[1..], visited))
  }

  /** The set of object ids on the current path, shared by all calls. */
  class Visited {
    var ids: set<Id>

    constructor ()
      ensures ids == {}
    {
      ids := {};
    }
  }

  /** The comparison: it ends on every graph and leaves the path as it found it. */
  method DeepEqual(g: Graph, a: Id, b: Id, visited: Visited) returns (result: bool)
    requires Closed(g) && a in g && b in g
    modifies visited
    ensures result == Equal(g, a, b, old(visited.ids)) && visited.ids == old(visited.ids)
    decreases g.Keys - visited.ids, 0
  {
    if !SameType(g[a], g[b]) {
      return false;
    }
    if a in visited.ids {
      return true;
    }
    ghost var before := visited.ids;
    assert a in g.Keys - before;
    visited.ids := visited.ids + {a};
    if g[a].Values? || g[a].Objects? {
      result := ArrayEqual(g, g[a], g[b], visited);
    } else {
      result := Matches(g[a], g[b]);
    }
    visited.ids := visited.ids - {a};
    assert visited.ids == before;
  }

  method ArrayEqual(g: Graph, m: Node, n: Node, visited: Visited) returns (result: bool)
    requires Closed(g) && NodeClosed(g, m) && NodeClosed(g, n)
    requires (m.Values? || m.Objects?) && (n.Values? || n.Objects?)
    modifies visited
    ensures visited.ids == old(visited.ids)
    ensures result == (Matches(m, n) && (m.Objects? ==> AllEqual(g, m.elems, n.elems, old(visited.ids))))
    decreases g.Keys - visited.ids, 1
  {
    if m.Values? != n.Values? || (m.Values? && m.dtype != n.dtype) || m.shape != n.shape {
      return false;
    }
    if m.Values? {
      return Matches(m, n);
    }
    for i := 0 to |m.elems|
      invariant visited.ids == old(visited.ids)
      invariant AllEqual(g, m.elems, n.elems, old(visited.ids)) == AllEqual(g, m.elems[i..], n.elems[i..], old(visited.ids))
    {
      var same := DeepEqual(g, m.elems[i], n.elems[i], visited);
      assert m.elems[i..][1..] == m.elems[i + 1..] && n.elems[i..][1..] == n.elems[i + 1..];
      if !same {
        return false;
      }
    }
    return true;
  }
}
