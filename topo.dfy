/** The stable topological sort the engine delegates to (gonum's `topo.SortStabilized` with the
    default by-id order), modelled by its contract: every edge (a, b) puts a before b, ties are broken
    by ascending id, and a graph that has no such order is reported as unorderable. The model computes
    it with Kahn's algorithm that always places the smallest ready id. */
module Topo {
  import opened Wrappers

  /** A directed edge (a, b): a must be placed before b. */
  type Edge = (int, int)

  /** Every edge joins two nodes of the graph. */
  ghost predicate WellFormed(nodes: set<int>, edges: set<Edge>) {
    forall e | e in edges :: e.0 in nodes && e.1 in nodes
  }

  /** n may be placed once every one of its predecessors has been placed. */
  predicate IsReady(edges: set<Edge>, placed: seq<int>, n: int) {
    forall e | e in edges && e.1 == n :: e.0 in placed
  }

  /** The nodes not yet placed whose predecessors all have been. */
  function Ready(nodes: set<int>, edges: set<Edge>, placed: seq<int>): set<int> {
    set n | n in nodes && n !in placed && IsReady(edges, placed, n)
  }

  function Unplaced(nodes: set<int>, placed: seq<int>): set<int> {
    set n | n in nodes && n !in placed
  }

  lemma NonEmptyHasElement(s: set<int>)
    requires s != {}
    ensures exists y :: y in s
  {
    assert (forall y :: y !in s) ==> s == {};
  }

  lemma MinExists(s: set<int>)
    requires s != {}
    ensures exists m :: m in s && forall x | x in s :: m <= x
  {
    NonEmptyHasElement(s);
    var y :| y in s;
    if s != {y} {
      NonEmptyHasElement(s - {y});
      MinExists(s - {y});
      var m :| m in s - {y} && forall x | x in s - {y} :: m <= x;
      var least := if y < m then y else m;
      forall x | x in s ensures least <= x {
        if x != y {
          assert x in s - {y};
        }
      }
      assert least in s;
    } else {
      assert forall x | x in s :: y <= x;
    }
  }

  /** The smallest id of a non-empty set. */
  function Min(s: set<int>): (m: int)
    requires s != {}
    ensures m in s && forall x | x in s :: m <= x
  {
    MinExists(s);
    var m :| m in s && forall x | x in s :: m <= x;
    m
  }

  /** Kahn's algorithm from a partial placement: place the smallest ready id until every node is
      placed, or report the nodes that can never be placed. */
  function Kahn(nodes: set<int>, edges: set<Edge>, placed: seq<int>): Result<seq<int>, set<int>>
    decreases Unplaced(nodes, placed)
  {
    var rest := Unplaced(nodes, placed);
    if rest == {} then Ok(placed)
    else
      var ready := Ready(nodes, edges, placed);
      if ready == {} then Err(rest)
      else
        var m := Min(ready);
        assert Unplaced(nodes, placed + [m]) == rest - {m};
        Kahn(nodes, edges, placed + [m])
  }

  /** The sort over the whole graph: the order, or the set of nodes that cannot be ordered. */
  function SortStabilized(nodes: set<int>, edges: set<Edge>): Result<seq<int>, set<int>> {
    Kahn(nodes, edges, [])
  }

  // ----- what a stable topological order is, independently of how it is computed -----

  ghost predicate Distinct(s: seq<int>) {
    forall i, j | 0 <= i < j < |s| :: s[i] != s[j]
  }

  /** s holds exactly the nodes. */
  ghost predicate Covers(nodes: set<int>, s: seq<int>) {
    forall n :: n in s <==> n in nodes
  }

  /** For every edge between two elements of s, the source comes first. */
  ghost predicate RespectsEdges(edges: set<Edge>, s: seq<int>) {
    forall i, j | 0 <= i < |s| && 0 <= j < |s| && (s[i], s[j]) in edges :: i < j
  }

  /** Every node exactly once, and every edge (a, b) puts a before b. */
  ghost predicate IsTopologicalOrder(nodes: set<int>, edges: set<Edge>, s: seq<int>) {
    Distinct(s) && Covers(nodes, s) && RespectsEdges(edges, s)
  }

  ghost predicate Orderable(nodes: set<int>, edges: set<Edge>) {
    exists s :: IsTopologicalOrder(nodes, edges, s)
  }

  /** The tie-break: each element is the smallest id that is ready when it is placed. */
  ghost predicate SmallestReadyFirst(nodes: set<int>, edges: set<Edge>, s: seq<int>) {
    forall i | 0 <= i < |s| ::
      s[i] in Ready(nodes, edges, s[..i]) && forall n | n in Ready(nodes, edges, s[..i]) :: s[i] <= n
  }

  /** Every node of r has a predecessor in r: no node of r can ever be placed first. */
  ghost predicate NoEntry(edges: set<Edge>, r: set<int>) {
    forall n | n in r :: exists e | e in edges :: e.1 == n && e.0 in r
  }

  /** c is a cycle: consecutive elements are joined by edges, and so are the last and the first. */
  ghost predicate IsCycle(edges: set<Edge>, c: seq<int>) {
    |c| > 0 && (c[|c| - 1], c[0]) in edges &&
    forall i | 0 < i < |c| :: (c[i - 1], c[i]) in edges
  }

  // ----- lemmas -----

  /** A smallest-ready-first sequence is a duplicate-free sequence of nodes that respects every edge. */
  lemma SmallestReadyFirstIsOrdered(nodes: set<int>, edges: set<Edge>, s: seq<int>)
    requires SmallestReadyFirst(nodes, edges, s)
    ensures Distinct(s) && RespectsEdges(edges, s)
    ensures forall n | n in s :: n in nodes
  {
    forall i, j | 0 <= i < j < |s| ensures s[i] != s[j] {
      assert s[j] in Ready(nodes, edges, s[..j]);
      assert s[i] in s[..j];
    }
    forall i, j | 0 <= i < |s| && 0 <= j < |s| && (s[i], s[j]) in edges ensures i < j {
      assert s[j] in Ready(nodes, edges, s[..j]);
      var e := (s[i], s[j]);
      assert e in edges && e.1 == s[j];
      assert s[i] in s[..j];
      var k :| 0 <= k < j && s[k] == s[i];
    }
    forall n | n in s ensures n in nodes {
      var i :| 0 <= i < |s| && s[i] == n;
      assert s[i] in Ready(nodes, edges, s[..i]);
    }
  }

  lemma {:induction false} KahnOk(nodes: set<int>, edges: set<Edge>, placed: seq<int>)
    requires SmallestReadyFirst(nodes, edges, placed)
    requires Kahn(nodes, edges, placed).Ok?
    ensures SmallestReadyFirst(nodes, edges, Kahn(nodes, edges, placed).value)
    ensures Unplaced(nodes, Kahn(nodes, edges, placed).value) == {}
    decreases Unplaced(nodes, placed)
  {
    var rest := Unplaced(nodes, placed);
    if rest != {} {
      var ready := Ready(nodes, edges, placed);
      var m := Min(ready);
      var next := placed + [m];
      assert Unplaced(nodes, next) == rest - {m};
      forall i | 0 <= i < |next|
        ensures next[i] in Ready(nodes, edges, next[..i])
        ensures forall n | n in Ready(nodes, edges, next[..i]) :: next[i] <= n
      {
        if i < |placed| {
          assert next[..i] == placed[..i];
        } else {
          assert next[..i] == placed;
        }
      }
      KahnOk(nodes, edges, next);
    }
  }

  lemma {:induction false} KahnErr(nodes: set<int>, edges: set<Edge>, placed: seq<int>)
    requires WellFormed(nodes, edges)
    requires Kahn(nodes, edges, placed).Err?
    ensures var r := Kahn(nodes, edges, placed).error; r != {} && r <= nodes && NoEntry(edges, r)
    decreases Unplaced(nodes, placed)
  {
    var rest := Unplaced(nodes, placed);
    var ready := Ready(nodes, edges, placed);
    if ready == {} {
      forall n | n in rest ensures exists e | e in edges :: e.1 == n && e.0 in rest {
        assert n !in ready;
        assert !IsReady(edges, placed, n);
        var e :| e in edges && e.1 == n && e.0 !in placed;
        assert e.0 in rest;
      }
    } else {
      var m := Min(ready);
      assert Unplaced(nodes, placed + [m]) == rest - {m};
      KahnErr(nodes, edges, placed + [m]);
    }
  }

  lemma {:induction false} NotInNoEntrySet(nodes: set<int>, edges: set<Edge>, s: seq<int>, r: set<int>, j: int)
    requires IsTopologicalOrder(nodes, edges, s)
    requires r <= nodes && NoEntry(edges, r)
    requires 0 <= j < |s|
    ensures s[j] !in r
    decreases j
  {
    if s[j] in r {
      var e :| e in edges && e.1 == s[j] && e.0 in r;
      var p: int := e.0;
      assert p in nodes;
      assert p in s;
      var i :| 0 <= i < |s| && s[i] == p;
      assert (s[i], s[j]) == e;
      NotInNoEntrySet(nodes, edges, s, r, i);
    }
  }

  /** A non-empty set of nodes each of which has a predecessor inside the set admits no topological order. */
  lemma NoEntryUnorderable(nodes: set<int>, edges: set<Edge>, r: set<int>)
    requires r != {} && r <= nodes && NoEntry(edges, r)
    ensures !Orderable(nodes, edges)
  {
    if Orderable(nodes, edges) {
      var s :| IsTopologicalOrder(nodes, edges, s);
      NonEmptyHasElement(r);
      var n :| n in r;
      assert n in s;
      var j :| 0 <= j < |s| && s[j] == n;
      NotInNoEntrySet(nodes, edges, s, r, j);
    }
  }

  /** On success the sort returns every node exactly once, edges respected, smallest ready id first. */
  lemma SortStabilizedOk(nodes: set<int>, edges: set<Edge>)
    requires SortStabilized(nodes, edges).Ok?
    ensures IsTopologicalOrder(nodes, edges, SortStabilized(nodes, edges).value)
    ensures SmallestReadyFirst(nodes, edges, SortStabilized(nodes, edges).value)
  {
    KahnOk(nodes, edges, []);
    var s := SortStabilized(nodes, edges).value;
    SmallestReadyFirstIsOrdered(nodes, edges, s);
    forall n ensures n in s <==> n in nodes {
      if n in nodes {
        assert n !in Unplaced(nodes, s);
      }
    }
  }

  /** On failure the sort names a non-empty set of nodes that can never be placed, and indeed the
      graph has no topological order. */
  lemma SortStabilizedErr(nodes: set<int>, edges: set<Edge>)
    requires WellFormed(nodes, edges)
    requires SortStabilized(nodes, edges).Err?
    ensures var r := SortStabilized(nodes, edges).error; r != {} && r <= nodes && NoEntry(edges, r)
    ensures !Orderable(nodes, edges)
  {
    KahnErr(nodes, edges, []);
    NoEntryUnorderable(nodes, edges, SortStabilized(nodes, edges).error);
  }

  /** The sort fails exactly when the graph has no topological order. */
  lemma SortStabilizedFailsIffUnorderable(nodes: set<int>, edges: set<Edge>)
    requires WellFormed(nodes, edges)
    ensures SortStabilized(nodes, edges).Err? <==> !Orderable(nodes, edges)
  {
    if SortStabilized(nodes, edges).Err? {
      SortStabilizedErr(nodes, edges);
    } else {
      SortStabilizedOk(nodes, edges);
    }
  }

  lemma {:induction false} CommonPrefix(nodes: set<int>, edges: set<Edge>, s: seq<int>, t: seq<int>, k: nat)
    requires SmallestReadyFirst(nodes, edges, s) && SmallestReadyFirst(nodes, edges, t)
    requires k <= |s| && k <= |t|
    ensures s[..k] == t[..k]
  {
    if k > 0 {
      CommonPrefix(nodes, edges, s, t, k - 1);
      assert s[..k - 1] == t[..k - 1];
      var ready := Ready(nodes, edges, s[..k - 1]);
      assert s[k - 1] in ready && t[k - 1] in ready;
      assert s[k - 1] == t[k - 1];
      assert s[..k] == s[..k - 1] + [s[k - 1]];
      assert t[..k] == t[..k - 1] + [t[k - 1]];
    }
  }

  lemma CoveringIsMaximal(nodes: set<int>, edges: set<Edge>, s: seq<int>, t: seq<int>)
    requires SmallestReadyFirst(nodes, edges, s) && SmallestReadyFirst(nodes, edges, t)
    requires Covers(nodes, s)
    ensures |t| <= |s|
  {
    if |s| < |t| {
      CommonPrefix(nodes, edges, s, t, |s|);
    }
  }

  /** The tie-break fixes the order: two covering smallest-ready-first sequences are equal. */
  lemma SmallestReadyFirstUnique(nodes: set<int>, edges: set<Edge>, s: seq<int>, t: seq<int>)
    requires SmallestReadyFirst(nodes, edges, s) && Covers(nodes, s)
    requires SmallestReadyFirst(nodes, edges, t) && Covers(nodes, t)
    ensures s == t
  {
    CoveringIsMaximal(nodes, edges, s, t);
    CoveringIsMaximal(nodes, edges, t, s);
    CommonPrefix(nodes, edges, s, t, |s|);
    assert s == s[..|s|] && t == t[..|t|];
  }

  /** The independent characterisation: the sort returns s exactly when s lists every node, each
      one the smallest id ready at its turn. */
  lemma SortStabilizedCharacterised(nodes: set<int>, edges: set<Edge>, s: seq<int>)
    requires WellFormed(nodes, edges)
    ensures SortStabilized(nodes, edges) == Ok(s) <==> SmallestReadyFirst(nodes, edges, s) && Covers(nodes, s)
  {
    if SmallestReadyFirst(nodes, edges, s) && Covers(nodes, s) {
      SmallestReadyFirstIsOrdered(nodes, edges, s);
      assert IsTopologicalOrder(nodes, edges, s);
      SortStabilizedFailsIffUnorderable(nodes, edges);
      SortStabilizedOk(nodes, edges);
      SmallestReadyFirstUnique(nodes, edges, s, SortStabilized(nodes, edges).value);
    }
    if SortStabilized(nodes, edges) == Ok(s) {
      SortStabilizedOk(nodes, edges);
    }
  }

  /** A cycle among the nodes makes the sort fail. */
  lemma CycleUnorderable(nodes: set<int>, edges: set<Edge>, c: seq<int>)
    requires WellFormed(nodes, edges)
    requires IsCycle(edges, c)
    ensures SortStabilized(nodes, edges).Err?
    ensures !Orderable(nodes, edges)
  {
    var r := set x | x in c;
    forall n | n in r ensures exists e | e in edges :: e.1 == n && e.0 in r {
      var i :| 0 <= i < |c| && c[i] == n;
      if i == 0 {
        assert (c[|c| - 1], c[0]) in edges;
      } else {
        assert (c[i - 1], c[i]) in edges;
      }
    }
    assert c[0] in r;
    NoEntryUnorderable(nodes, edges, r);
    SortStabilizedFailsIffUnorderable(nodes, edges);
  }
}
