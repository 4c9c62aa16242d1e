/** Walks through the graph and their costs, and the list reversal that
    `reconstruct_path` ends with. */
module Paths {
  import opened Problem

  /** A non-empty sequence of cities, each consecutive pair an edge. */
  predicate IsWalk(conn: map<string, Edges>, w: seq<string>) {
    |w| > 0 && forall k :: 0 <= k < |w| - 1 ==> Edge(conn, w[k], w[k + 1])
  }

  /** Sum of the move costs along a walk. */
  function PathCost(conn: map<string, Edges>, w: seq<string>): real
    requires IsWalk(conn, w)
  {
    if |w| == 1 then 0.0
    else PathCost(conn, w[..|w| - 1]) + Cost(conn, w[|w| - 2], w[|w| - 1])
  }

  /** Extending a walk by one edge adds that edge's cost. */
  lemma WalkExtend(conn: map<string, Edges>, w: seq<string>, v: string)
    requires IsWalk(conn, w) && Edge(conn, w[|w| - 1], v)
    ensures IsWalk(conn, w + [v])
    ensures PathCost(conn, w + [v]) == PathCost(conn, w) + Cost(conn, w[|w| - 1], v)
  {
    assert (w + [v])[..|w|] == w;
  }

  /** `list.reverse()` as a value. */
  function Reversed(s: seq<string>): (r: seq<string>)
    ensures |r| == |s|
    ensures forall k :: 0 <= k < |s| ==> r[k] == s[|s| - 1 - k]
  {
    if s == [] then [] else Reversed(s[1..]) + [s[0]]
  }
}
