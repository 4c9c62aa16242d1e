/** `AStarSearch.a_star` and `AStarSearch.reconstruct_path`. */
module Search {
  import opened Outcomes
  import opened Strings
  import opened Problem
  import opened Heuristics
  import opened Frontier
  import opened Paths
  import opened Invariants

  /** One pass of the inner loop of `a_star`: relax edge `i` of `u`. When the
      neighbour improves and has no heuristic value, its lookup raises
      KeyError after `came_from` and `g_costs` were already written. */
  method RelaxEdge(conn: map<string, Edges>, u: string, h: map<string, real>,
                   ghost g: map<string, real>, ghost cf: map<string, string>, ghost frontier: multiset<Entry>,
                   ghost start: string, i: nat,
                   g': map<string, real>, cf': map<string, string>, frontier': multiset<Entry>,
                   ghost stamp': map<string, nat>, ghost clock': nat, ghost walks': map<string, seq<string>>)
    returns (missing: Option<string>, g'': map<string, real>, cf'': map<string, string>,
             frontier'': multiset<Entry>, ghost stamp'': map<string, nat>, ghost clock'': nat,
             ghost walks'': map<string, seq<string>>)
    requires u in conn && u in g && i < |conn[u]| && IsDict(conn[u]) && NonNegativeCosts(conn)
    requires RelaxInv(conn, u, h, g, cf, frontier, start, i, g', cf', frontier', stamp', clock', walks')
    ensures missing.Some? ==> missing.value == conn[u][i].0 && missing.value !in h
    ensures missing.None? ==>
              RelaxInv(conn, u, h, g, cf, frontier, start, i + 1, g'', cf'', frontier'', stamp'', clock'', walks'')
  {
    var (neighbor, moveCost) := conn[u][i];
    var tentative := g'[u] + moveCost;
    g'', cf'', frontier'' := g', cf', frontier';
    stamp'', clock'', walks'' := stamp', clock', walks';
    missing := None;
    if neighbor !in g' || tentative < g'[neighbor] {
      cf'' := cf'[neighbor := u];
      g'' := g'[neighbor := tentative];
      if neighbor !in h {
        return Some(neighbor), g'', cf'', frontier'', stamp'', clock'', walks'';
      }
      var priority := tentative + h[neighbor];
      RelaxStepImproved(conn, u, h, g, cf, frontier, start, i, g', cf', frontier',
                        stamp', clock', walks', tentative, priority);
      frontier'' := frontier' + multiset{(priority, neighbor)};
      stamp'', clock'' := stamp'[neighbor := clock'], clock' + 1;
      walks'' := walks'[neighbor := walks'[u] + [neighbor]];
    } else {
      RelaxStepKept(conn, u, h, g, cf, frontier, start, i, g', cf', frontier', stamp', clock', walks');
    }
  }

  /** The inner loop of `a_star`: relax every edge of the expanded city `u`, in the order of
      its `connects_to` dict. `missing` is the first neighbour that has no
      heuristic value, whose lookup raises KeyError. */
  method Relax(conn: map<string, Edges>, u: string, h: map<string, real>,
               g: map<string, real>, cf: map<string, string>, frontier: multiset<Entry>,
               ghost start: string, ghost stamp: map<string, nat>, ghost clock: nat,
               ghost walks: map<string, seq<string>>)
    returns (missing: Option<string>, g': map<string, real>, cf': map<string, string>,
             frontier': multiset<Entry>, ghost stamp': map<string, nat>, ghost clock': nat,
             ghost walks': map<string, seq<string>>)
    requires u in conn && u in g && IsDict(conn[u]) && NonNegativeCosts(conn)
    requires Sound(conn, start, h, g, cf, stamp, clock, walks)
    ensures missing.None? <==> Neighbors(conn[u]) <= h.Keys
    ensures missing.Some? ==> MissingFirst(conn[u], h, missing.value)
    ensures missing.None? ==> Sound(conn, start, h, g', cf', stamp', clock', walks')
    ensures missing.None? ==> g'.Keys == g.Keys + Neighbors(conn[u])
    ensures missing.None? ==> RelaxedAmong(conn, u, g, cf, Neighbors(conn[u]), g', cf')
    ensures missing.None? ==> forall x :: x in g ==> g'[x] <= g[x]
    ensures missing.None? ==> frontier' == frontier + PushesOf(conn, u, g, h, conn[u])
  {
    var edges := conn[u];
    g', cf', frontier' := g, cf, frontier;
    stamp', clock', walks' := stamp, clock, walks;
    missing := None;
    RelaxStart(conn, u, h, g, cf, frontier, start, stamp, clock, walks);
    for i := 0 to |edges|
      invariant RelaxInv(conn, u, h, g, cf, frontier, start, i, g', cf', frontier', stamp', clock', walks')
    {
      var m;
      m, g', cf', frontier', stamp', clock', walks' :=
        RelaxEdge(conn, u, h, g, cf, frontier, start, i, g', cf', frontier', stamp', clock', walks');
      if m.Some? {
        FirstMissing(conn[u], h, i, m.value);
        return m, g', cf', frontier', stamp', clock', walks';
      }
    }
    RelaxDone(conn, u, h, g, cf, frontier, start, g', cf', frontier', stamp', clock', walks');
    RelaxNeverRaises(conn, u, g, cf, Neighbors(conn[u]), g', cf');
  }

  // ---------------------------------------------------------------------
  // reconstruct_path

  /** `reconstruct_path`: follow `came_from` back from the goal until a city
      without predecessor, then reverse. The ghost `key` witnesses that the
      pointers never return to a city, so the loop ends. */
  method ReconstructPath(cityStart: string, cityEnd: string, cameFrom: map<string, string>,
                         ghost key: map<string, (real, nat)>)
    returns (path: seq<string>)
    requires cityStart !in cameFrom
    requires forall v :: v in cameFrom ==> cameFrom[v] in cameFrom || cameFrom[v] == cityStart
    requires forall v :: v in cameFrom ==> v in key && cameFrom[v] in key && Below(key[cameFrom[v]], key[v])
    ensures |path| >= 1 && path[0] == cityStart
    ensures cityEnd !in cameFrom ==> path == [cityStart]
    ensures cityEnd in cameFrom ==> path[|path| - 1] == cityEnd
    ensures forall k :: 1 <= k < |path| ==> path[k] in cameFrom && cameFrom[path[k]] == path[k - 1]
    ensures forall i, j :: 0 <= i < j < |path| ==> path[i] != path[j]
  {
    var rev: seq<string> := [];
    var current := cityEnd;
    while current in cameFrom
      invariant Chain(cityEnd, cameFrom, key, rev, current)
      decreases if current in key then Lower(key, current) else {}
    {
      ChainStep(cityEnd, cameFrom, key, rev, current);
      rev := rev + [current];
      current := cameFrom[current];
    }
    ChainPath(cityStart, cityEnd, cameFrom, key, rev, current);
    path := Reversed(rev + [cityStart]);
  }

  // ---------------------------------------------------------------------
  // a_star

  /** The goal branch of `a_star`: the goal has been popped, so the path is
      rebuilt from `came_from`. */
  method FinalPath(conn: map<string, Edges>, start: string, goal: string, h: map<string, real>,
                   cities: seq<string>, explored: set<string>, g: map<string, real>, cameFrom: map<string, string>,
                   ghost stamp: map<string, nat>, ghost clock: nat, ghost walks: map<string, seq<string>>)
    returns (path: seq<string>)
    requires NonNegativeCosts(conn) && AllDicts(conn)
    requires Sound(conn, start, h, g, cameFrom, stamp, clock, walks) && h.Keys == set c | c in cities
    requires goal in g && explored <= g.Keys && goal !in explored
    ensures Delivers(conn, start, goal, cities, Solution(g[goal], path, |explored|, Prefixed(h)))
    ensures start == goal && cameFrom == map[] ==> path == [start]
  {
    TreeKeyed(conn, start, g, cameFrom, stamp);
    path := ReconstructPath(start, goal, cameFrom, StampKey(g, stamp));
    GoalReached(conn, start, goal, h, cities, explored, g, cameFrom, stamp, clock, walks, path);
  }

  /** `a_star(heuristic_mode)`: precompute the heuristic of every city,
      then search from the start city. */
  method AStar(problem: SearchProblem, mode: string, hypot: (real, real) -> real, fuel: nat)
    returns (r: Result<Solution>)
    requires NonNegativeCosts(problem.connections) && AllDicts(problem.connections)
    ensures var hv := HeuristicValues(problem.heuristicInfo, problem.cities, mode, hypot);
            && (hv.Err? ==> r == Err(hv.error))
            && (hv.Ok? && problem.cityStart !in hv.value ==> r == Err(KeyError(problem.cityStart)))
            && (r.Ok? ==> hv.Ok? && r.value.heuristic == Prefixed(hv.value))
            && (problem.cityStart == problem.cityEnd && hv.Ok? && problem.cityStart in hv.value && fuel > 0 ==>
                  r == Ok(Solution(0.0, [problem.cityStart], 0, Prefixed(hv.value))))
    ensures r.Ok? ==> Delivers(problem.connections, problem.cityStart, problem.cityEnd, problem.cities, r.value)
    ensures r == Err(NoPath) ==> Unreachable(problem.connections, problem.cityStart, problem.cityEnd)
    ensures var hv := HeuristicValues(problem.heuristicInfo, problem.cities, mode, hypot);
            hv.Ok? && r.Err? && r.error.KeyError? ==>
              ReachedUnknown(problem.connections, problem.cityStart, hv.value, r.error.key)
  {
    var hv := HeuristicValues(problem.heuristicInfo, problem.cities, mode, hypot);
    if hv.Err? {
      return Err(hv.error);
    }
    r := Search(problem.connections, problem.cityStart, problem.cityEnd, hv.value, problem.cities, fuel);
  }

  /** The search loop of `a_star`, given the precomputed heuristic values `h`
      of the listed cities. */
  method Search(conn: map<string, Edges>, start: string, goal: string, h: map<string, real>,
                cities: seq<string>, fuel: nat)
    returns (r: Result<Solution>)
    requires NonNegativeCosts(conn) && AllDicts(conn) && h.Keys == set c | c in cities
    ensures start !in h ==> r == Err(KeyError(start))
    ensures r.Ok? ==> r.value.heuristic == Prefixed(h)
    ensures start == goal && start in h && fuel > 0 ==> r == Ok(Solution(0.0, [start], 0, Prefixed(h)))
    ensures r.Ok? ==> Delivers(conn, start, goal, cities, r.value)
    ensures r == Err(NoPath) ==> Unreachable(conn, start, goal)
    ensures r.Err? && r.error.KeyError? ==> ReachedUnknown(conn, start, h, r.error.key)
  {
    if start !in h {
      assert WalkTo(conn, start, start, [start]);
      return Err(KeyError(start));
    }
    var frontier := multiset{(h[start], start)};
    var explored: set<string> := {};
    var cameFrom: map<string, string> := map[];
    var g := map[start := 0.0];
    ghost var stamp: map<string, nat> := map[start := 0];
    ghost var clock: nat := 1;
    ghost var walks := map[start := [start]];
    assert PathCost(conn, [start]) == 0.0;
    assert Pending(frontier) == {start};
    var fuelLeft: nat := fuel;
    while frontier != multiset{}
      invariant Sound(conn, start, h, g, cameFrom, stamp, clock, walks)
      invariant Coverage(conn, goal, frontier, explored, g)
      invariant start == goal ==> && fuelLeft == fuel && frontier == multiset{(h[start], start)}
                                  && explored == {} && cameFrom == map[] && g == map[start := 0.0]
      decreases fuelLeft
    {
      if fuelLeft == 0 {
        return Err(OutOfFuel);
      }
      fuelLeft := fuelLeft - 1;
      var least, rest := PopMin(frontier);
      var current := least.1;
      if current == goal {
        var path := FinalPath(conn, start, goal, h, cities, explored, g, cameFrom, stamp, clock, walks);
        return Ok(Solution(g[goal], path, |explored|, Prefixed(h)));
      }
      ghost var before := explored;
      explored := explored + {current};
      if current !in conn {
        UnknownReached(conn, start, g, walks, h, current);
        return Err(KeyError(current));
      }
      var missing, g', cf', frontier';
      ghost var stamp', clock', walks';
      missing, g', cf', frontier', stamp', clock', walks' :=
        Relax(conn, current, h, g, cameFrom, rest, start, stamp, clock, walks);
      if missing.Some? {
        UnknownNeighbour(conn, start, g, walks, h, current, missing.value);
        return Err(KeyError(missing.value));
      }
      ExpandStep(conn, goal, h, frontier, before, g, least, rest, g', frontier');
      g, cameFrom, frontier := g', cf', frontier';
      stamp, clock, walks := stamp', clock', walks';
    }
    Exhausted(conn, start, goal, explored, g);
    return Err(NoPath);
  }
}
