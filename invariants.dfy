/** The correctness argument for `a_star` and `reconstruct_path`: the
    invariants the search state keeps and the lemmas that carry them from
    one step to the next. */
module Invariants {
  import opened Outcomes
  import opened Strings
  import opened Problem
  import opened Heuristics
  import opened Frontier
  import opened Paths

  /** The solution dict `a_star` returns. */
  datatype Solution = Solution(cost: real, path: seq<string>, expandedNodes: nat, heuristic: map<string, real>)

  /** Move costs are non-negative (the search is not meant for negative weights). */
  predicate NonNegativeCosts(conn: map<string, Edges>) {
    forall u, i :: u in conn && 0 <= i < |conn[u]| ==> conn[u][i].1 >= 0.0
  }

  predicate AllDicts(conn: map<string, Edges>) {
    forall u :: u in conn ==> IsDict(conn[u])
  }

  /** The heuristic map `a_star` returns: each city's value under the key
      `city_` followed by the city's name. */
  function Prefixed(h: map<string, real>): (r: map<string, real>)
    ensures forall c {:trigger r[CityPrefix + c]} :: c in h ==> CityPrefix + c in r && r[CityPrefix + c] == h[c]
  {
    PrefixRemovedEverywhere();
    map c | c in h :: CityPrefix + c := h[c]
  }

  /** Every key of the output is a prefixed city name, holding that city's
      value. */
  lemma PrefixedKeys(h: map<string, real>)
    ensures forall k :: k in Prefixed(h) ==>
              StartsWith(k, CityPrefix) && RemovePrefix(k) in h && Prefixed(h)[k] == h[RemovePrefix(k)]
  {
    PrefixRemovedEverywhere();
  }

  lemma PrefixRemovedEverywhere()
    ensures forall c :: StartsWith(CityPrefix + c, CityPrefix) && RemovePrefix(CityPrefix + c) == c
  {
    forall c ensures StartsWith(CityPrefix + c, CityPrefix) && RemovePrefix(CityPrefix + c) == c {
      RemovePrefixOfPrefixed(c);
    }
  }

  /** Stripping the prefix from the keys of the returned heuristic map gives
      back the precomputed heuristic values. */
  lemma PrefixedRoundTrip(h: map<string, real>)
    ensures (map k | k in Prefixed(h) :: RemovePrefix(k) := Prefixed(h)[k]) == h
  {
    var out := Prefixed(h);
    PrefixedKeys(h);
    PrefixRestoredEverywhere();
    var back := map k | k in out :: RemovePrefix(k) := out[k];
    forall c | c in h ensures c in back && back[c] == h[c] {
      RemovePrefixOfPrefixed(c);
      assert CityPrefix + c in out;
    }
    assert back.Keys == h.Keys;
  }

  // ---------------------------------------------------------------------
  // Search state invariants

  /** The ordering key of a discovered city: its g-cost, then the time its
      g-cost was last written. Every `came_from` pointer goes to a city with
      a strictly smaller key, so the pointers never form a cycle. */
  ghost predicate Below(a: (real, nat), b: (real, nat)) {
    a.0 < b.0 || (a.0 == b.0 && a.1 < b.1)
  }

  lemma BelowTransitive(a: (real, nat), b: (real, nat), c: (real, nat))
    requires Below(a, b) && Below(b, c)
    ensures Below(a, c)
  {
  }

  /** `came_from[v] == u` points along an edge `u -> v` with
      `g_costs[v] >= g_costs[u] + cost(u, v)`. */
  ghost predicate Pointer(conn: map<string, Edges>, g: map<string, real>, cf: map<string, string>,
                          stamp: map<string, nat>, v: string)
    requires v in cf
  {
    && v in g && cf[v] in g && v in stamp && cf[v] in stamp
    && Edge(conn, cf[v], v)
    && g[v] >= g[cf[v]] + Cost(conn, cf[v], v)
    && Below((g[cf[v]], stamp[cf[v]]), (g[v], stamp[v]))
  }

  /** `g_costs` and `came_from` form a tree rooted at the start city, which
      keeps g-cost 0 and never gains a predecessor. */
  ghost predicate Tree(conn: map<string, Edges>, start: string, g: map<string, real>,
                       cf: map<string, string>, stamp: map<string, nat>)
  {
    && start in g && g[start] == 0.0
    && (forall x :: x in g ==> g[x] >= 0.0)
    && cf.Keys == g.Keys - {start}
    && stamp.Keys == g.Keys
    && (forall v :: v in cf ==> Pointer(conn, g, cf, stamp, v))
  }

  ghost predicate WalkTo(conn: map<string, Edges>, start: string, x: string, w: seq<string>) {
    IsWalk(conn, w) && w[0] == start && w[|w| - 1] == x
  }

  /** What a returned solution guarantees: its path is a walk from the start
      city to the goal that repeats no city and costs at most the reported
      cost, some walk costs exactly that much, and fewer cities were expanded
      than there are cities. */
  ghost predicate Delivers(conn: map<string, Edges>, start: string, goal: string, cities: seq<string>,
                           s: Solution)
  {
    && WalkTo(conn, start, goal, s.path)
    && 0.0 <= PathCost(conn, s.path) <= s.cost
    && (forall i, j :: 0 <= i < j < |s.path| ==> s.path[i] != s.path[j])
    && (exists w :: WalkTo(conn, start, goal, w) && PathCost(conn, w) == s.cost)
    && s.expandedNodes < |set c | c in cities|
  }

  /** No walk from the start city ends at the goal. */
  ghost predicate Unreachable(conn: map<string, Edges>, start: string, goal: string) {
    forall w :: IsWalk(conn, w) && w[0] == start ==> w[|w| - 1] != goal
  }

  /** The only cities a KeyError of the search can name: reached along a
      walk from the start city, and without a connection block or without a
      heuristic value. */
  ghost predicate ReachedUnknown(conn: map<string, Edges>, start: string, h: map<string, real>, k: string) {
    exists w :: WalkTo(conn, start, k, w) && (k !in conn || k !in h)
  }

  /** Every g-cost is the cost of some walk from the start city. */
  ghost predicate Witnessed(conn: map<string, Edges>, start: string, g: map<string, real>,
                            walks: map<string, seq<string>>)
  {
    forall x :: x in g ==> x in walks && WalkTo(conn, start, x, walks[x]) && PathCost(conn, walks[x]) == g[x]
  }

  /** Relaxing `u -> x` changes `x`: it is new, or the tentative cost is
      strictly smaller than its recorded one. */
  ghost predicate Improves(conn: map<string, Edges>, u: string, g: map<string, real>, x: string)
    requires u in g
  {
    Edge(conn, u, x) && (x !in g || g[u] + Cost(conn, u, x) < g[x])
  }

  /** What the search state keeps while edges are relaxed: the pointer tree,
      the walk witnesses, the write clock, and heuristic values for every
      discovered city. */
  ghost predicate Sound(conn: map<string, Edges>, start: string, h: map<string, real>,
                        g: map<string, real>, cf: map<string, string>, stamp: map<string, nat>, clock: nat,
                        walks: map<string, seq<string>>)
  {
    && Tree(conn, start, g, cf, stamp) && Witnessed(conn, start, g, walks)
    && (forall x :: x in stamp ==> stamp[x] < clock)
    && g.Keys <= h.Keys
  }

  /** The effect on `g_costs` and `came_from` of relaxing the edges of `u` to
      the cities of `among`: an improved city gets the tentative cost and
      predecessor `u`, every other city keeps its entries. */
  ghost predicate RelaxedAmong(conn: map<string, Edges>, u: string, g: map<string, real>, cf: map<string, string>,
                               among: set<string>, g': map<string, real>, cf': map<string, string>)
    requires u in g
  {
    forall x :: x in g' ==>
      if x in among && Improves(conn, u, g, x)
      then g'[x] == g[u] + Cost(conn, u, x) && x in cf' && cf'[x] == u
      else x in g && g'[x] == g[x] && (x in cf ==> x in cf' && cf'[x] == cf[x])
  }

  /** The entries pushed onto the frontier while the edges of `u` are relaxed in
      order: one for every edge that improves its target over `g`. */
  ghost function PushesOf(conn: map<string, Edges>, u: string, g: map<string, real>, h: map<string, real>,
                          edges: Edges): multiset<Entry>
    requires u in g
  {
    if edges == [] then multiset{}
    else
      var n := edges[|edges| - 1].0;
      PushesOf(conn, u, g, h, edges[..|edges| - 1])
        + if n in h && Improves(conn, u, g, n) then multiset{(g[u] + Cost(conn, u, n) + h[n], n)} else multiset{}
  }

  /** Every pushed entry names a neighbour whose cost improved, with priority
      its new g-cost plus its heuristic value. */
  lemma {:induction false} PushedPriority(conn: map<string, Edges>, u: string, g: map<string, real>,
                                          h: map<string, real>, edges: Edges)
    requires u in g
    ensures forall e :: e in PushesOf(conn, u, g, h, edges) ==>
              && e.1 in h && Improves(conn, u, g, e.1)
              && e.0 == g[u] + Cost(conn, u, e.1) + h[e.1]
  {
    if edges != [] {
      PushedPriority(conn, u, g, h, edges[..|edges| - 1]);
    }
  }

  /** One write of `came_from` and `g_costs` keeps the tree, the walk witnesses, the
      clock and the heuristic coverage. */
  lemma SoundAfterWrite(conn: map<string, Edges>, start: string, h: map<string, real>, g: map<string, real>,
                        cf: map<string, string>, stamp: map<string, nat>, clock: nat,
                        walks: map<string, seq<string>>, u: string, n: string, t: real)
    requires Sound(conn, start, h, g, cf, stamp, clock, walks)
    requires u in g && Edge(conn, u, n) && Cost(conn, u, n) >= 0.0 && n in h
    requires t == g[u] + Cost(conn, u, n) && (n !in g || t < g[n])
    ensures n != u && n != start
    ensures Sound(conn, start, h, g[n := t], cf[n := u], stamp[n := clock], clock + 1, walks[n := walks[u] + [n]])
  {
    TreeAfterWrite(conn, start, g, cf, stamp, clock, u, n, t);
    WitnessAfterWrite(conn, start, g, walks, u, n, t);
  }

  lemma TreeAfterWrite(conn: map<string, Edges>, start: string, g: map<string, real>, cf: map<string, string>,
                       stamp: map<string, nat>, clock: nat, u: string, n: string, t: real)
    requires Tree(conn, start, g, cf, stamp)
    requires forall x :: x in stamp ==> stamp[x] < clock
    requires u in g && Edge(conn, u, n) && Cost(conn, u, n) >= 0.0
    requires t == g[u] + Cost(conn, u, n) && (n !in g || t < g[n])
    ensures n != u && n != start
    ensures Tree(conn, start, g[n := t], cf[n := u], stamp[n := clock])
  {
    var g', cf', stamp' := g[n := t], cf[n := u], stamp[n := clock];
    assert cf'.Keys == g'.Keys - {start};
    forall v | v in cf' ensures Pointer(conn, g', cf', stamp', v) {
      if v == n {
        assert cf'[v] == u && g'[u] == g[u] && stamp'[u] == stamp[u];
      } else {
        assert Pointer(conn, g, cf, stamp, v);
        if cf[v] == n {
          assert g[v] >= g[n];
        }
      }
    }
  }

  lemma WitnessAfterWrite(conn: map<string, Edges>, start: string, g: map<string, real>,
                          walks: map<string, seq<string>>, u: string, n: string, t: real)
    requires Witnessed(conn, start, g, walks)
    requires u in g && Edge(conn, u, n) && t == g[u] + Cost(conn, u, n)
    ensures Witnessed(conn, start, g[n := t], walks[n := walks[u] + [n]])
  {
    var w := walks[u];
    assert WalkTo(conn, start, u, w);
    WalkExtend(conn, w, n);
    assert WalkTo(conn, start, n, w + [n]);
  }

  lemma PushesOfSnoc(conn: map<string, Edges>, u: string, g: map<string, real>, h: map<string, real>,
                     edges: Edges, i: nat)
    requires u in g && i < |edges|
    ensures var n := edges[i].0;
            PushesOf(conn, u, g, h, edges[..i + 1]) == PushesOf(conn, u, g, h, edges[..i])
              + if n in h && Improves(conn, u, g, n) then multiset{(g[u] + Cost(conn, u, n) + h[n], n)} else multiset{}
  {
    assert edges[..i + 1][..i] == edges[..i];
  }

  lemma NeighborsPrefix(edges: Edges, i: nat)
    requires i < |edges|
    ensures Neighbors(edges[..i + 1]) == Neighbors(edges[..i]) + {edges[i].0}
  {
    var a, b := edges[..i + 1], edges[..i];
    forall x | x in Neighbors(a) ensures x in Neighbors(b) + {edges[i].0} {
      var k :| 0 <= k < |a| && a[k].0 == x;
      if k < i { assert b[k] == a[k]; }
    }
    forall x | x in Neighbors(b) ensures x in Neighbors(a) {
      var k :| 0 <= k < |b| && b[k].0 == x;
      assert a[k] == b[k];
    }
  }

  /** The state after relaxing the first `i` edges of `u`. */
  ghost predicate RelaxInv(conn: map<string, Edges>, u: string, h: map<string, real>,
                           g: map<string, real>, cf: map<string, string>, frontier: multiset<Entry>,
                           start: string, i: nat,
                           g': map<string, real>, cf': map<string, string>, frontier': multiset<Entry>,
                           stamp': map<string, nat>, clock': nat, walks': map<string, seq<string>>)
    requires u in conn && u in g && i <= |conn[u]|
  {
    && u in g' && g'[u] == g[u]
    && Sound(conn, start, h, g', cf', stamp', clock', walks')
    && (forall k :: 0 <= k < i ==> conn[u][k].0 in h)
    && g'.Keys == g.Keys + Neighbors(conn[u][..i])
    && RelaxedAmong(conn, u, g, cf, Neighbors(conn[u][..i]), g', cf')
    && frontier' == frontier + PushesOf(conn, u, g, h, conn[u][..i])
  }

  lemma RelaxedAmongImproved(conn: map<string, Edges>, u: string, g: map<string, real>, cf: map<string, string>,
                             among: set<string>, g': map<string, real>, cf': map<string, string>, n: string, t: real)
    requires u in g && RelaxedAmong(conn, u, g, cf, among, g', cf')
    requires n !in among && Improves(conn, u, g, n) && t == g[u] + Cost(conn, u, n)
    ensures RelaxedAmong(conn, u, g, cf, among + {n}, g'[n := t], cf'[n := u])
  {
  }

  lemma RelaxedAmongKept(conn: map<string, Edges>, u: string, g: map<string, real>, cf: map<string, string>,
                         among: set<string>, g': map<string, real>, cf': map<string, string>, n: string)
    requires u in g && RelaxedAmong(conn, u, g, cf, among, g', cf') && !Improves(conn, u, g, n)
    ensures RelaxedAmong(conn, u, g, cf, among + {n}, g', cf')
  {
  }

  /** Relaxing never raises a g-cost (a cost is overwritten only by a
      strictly smaller one), and every newly discovered city points back to `u`. */
  lemma RelaxNeverRaises(conn: map<string, Edges>, u: string, g: map<string, real>, cf: map<string, string>,
                         among: set<string>, g': map<string, real>, cf': map<string, string>)
    requires u in g && RelaxedAmong(conn, u, g, cf, among, g', cf') && g.Keys <= g'.Keys
    ensures forall x :: x in g ==> g'[x] <= g[x]
    ensures forall x :: x in g' && x !in g ==> x in among && x in cf' && cf'[x] == u
  {
  }

  /** Relaxing edge `i` when it improves its target: record the cost and
      predecessor, then push the target. */
  lemma RelaxStepImproved(conn: map<string, Edges>, u: string, h: map<string, real>,
                          g: map<string, real>, cf: map<string, string>, frontier: multiset<Entry>,
                          start: string, i: nat,
                          g': map<string, real>, cf': map<string, string>, frontier': multiset<Entry>,
                          stamp': map<string, nat>, clock': nat, walks': map<string, seq<string>>,
                          t: real, priority: real)
    requires u in conn && u in g && i < |conn[u]| && IsDict(conn[u]) && NonNegativeCosts(conn)
    requires RelaxInv(conn, u, h, g, cf, frontier, start, i, g', cf', frontier', stamp', clock', walks')
    requires var n := conn[u][i].0;
             && n in h && t == g'[u] + conn[u][i].1 && (n !in g' || t < g'[n])
             && priority == t + h[n]
    ensures var n := conn[u][i].0;
            RelaxInv(conn, u, h, g, cf, frontier, start, i + 1,
                     g'[n := t], cf'[n := u], frontier' + multiset{(priority, n)},
                     stamp'[n := clock'], clock' + 1, walks'[n := walks'[u] + [n]])
  {
    var edges := conn[u];
    var n := edges[i].0;
    NeighborsPrefix(edges, i);
    assert n !in Neighbors(edges[..i]);
    assert Edge(conn, u, n) && Cost(conn, u, n) == edges[i].1;
    assert Improves(conn, u, g, n);
    SoundAfterWrite(conn, start, h, g', cf', stamp', clock', walks', u, n, t);
    RelaxedAmongImproved(conn, u, g, cf, Neighbors(edges[..i]), g', cf', n, t);
    FrontierStep(conn, u, h, g, frontier, i, frontier', priority);
  }

  /** Pushing the entry of an improved edge `i` extends the pushes by that edge. */
  lemma FrontierStep(conn: map<string, Edges>, u: string, h: map<string, real>, g: map<string, real>,
                     frontier: multiset<Entry>, i: nat, frontier': multiset<Entry>, priority: real)
    requires u in conn && u in g && i < |conn[u]|
    requires frontier' == frontier + PushesOf(conn, u, g, h, conn[u][..i])
    requires var n := conn[u][i].0;
             n in h && Improves(conn, u, g, n) && priority == g[u] + Cost(conn, u, n) + h[n]
    ensures frontier' + multiset{(priority, conn[u][i].0)} == frontier + PushesOf(conn, u, g, h, conn[u][..i + 1])
  {
    PushesOfSnoc(conn, u, g, h, conn[u], i);
  }

  /** Relaxing edge `i` when it does not improve its target. */
  lemma RelaxStepKept(conn: map<string, Edges>, u: string, h: map<string, real>,
                      g: map<string, real>, cf: map<string, string>, frontier: multiset<Entry>,
                      start: string, i: nat,
                      g': map<string, real>, cf': map<string, string>, frontier': multiset<Entry>,
                      stamp': map<string, nat>, clock': nat, walks': map<string, seq<string>>)
    requires u in conn && u in g && i < |conn[u]| && IsDict(conn[u])
    requires RelaxInv(conn, u, h, g, cf, frontier, start, i, g', cf', frontier', stamp', clock', walks')
    requires var n := conn[u][i].0;
             n in g' && g'[n] <= g'[u] + conn[u][i].1
    ensures conn[u][i].0 in h
    ensures RelaxInv(conn, u, h, g, cf, frontier, start, i + 1, g', cf', frontier', stamp', clock', walks')
  {
    var edges := conn[u];
    var n := edges[i].0;
    NeighborsPrefix(edges, i);
    assert n !in Neighbors(edges[..i]);
    assert Edge(conn, u, n) && Cost(conn, u, n) == edges[i].1;
    assert !Improves(conn, u, g, n);
    RelaxedAmongKept(conn, u, g, cf, Neighbors(edges[..i]), g', cf', n);
    PushesOfSnoc(conn, u, g, h, edges, i);
  }

  /** Before the first edge nothing has changed. */
  lemma RelaxStart(conn: map<string, Edges>, u: string, h: map<string, real>,
                   g: map<string, real>, cf: map<string, string>, frontier: multiset<Entry>, start: string,
                   stamp: map<string, nat>, clock: nat, walks: map<string, seq<string>>)
    requires u in conn && u in g && Sound(conn, start, h, g, cf, stamp, clock, walks)
    ensures RelaxInv(conn, u, h, g, cf, frontier, start, 0, g, cf, frontier, stamp, clock, walks)
  {
    assert conn[u][..0] == [];
  }

  /** `n` is the first neighbour in `edges` without a heuristic value. */
  ghost predicate MissingFirst(edges: Edges, h: map<string, real>, n: string) {
    exists k :: 0 <= k < |edges| && edges[k].0 == n && n !in h && forall j :: 0 <= j < k ==> edges[j].0 in h
  }

  /** When the heuristic lookup of edge `i` fails after all earlier ones
      succeeded, its target is the first missing neighbour, so the
      neighbours are not all covered by the heuristic. */
  lemma FirstMissing(edges: Edges, h: map<string, real>, i: nat, n: string)
    requires i < |edges| && edges[i].0 == n && n !in h
    requires forall k :: 0 <= k < i ==> edges[k].0 in h
    ensures !(Neighbors(edges) <= h.Keys)
    ensures MissingFirst(edges, h, n)
  {
    assert n in Neighbors(edges);
  }

  /** After the last edge the loop's invariant gives `Relax`'s promises. */
  lemma RelaxDone(conn: map<string, Edges>, u: string, h: map<string, real>,
                  g: map<string, real>, cf: map<string, string>, frontier: multiset<Entry>, start: string,
                  g': map<string, real>, cf': map<string, string>, frontier': multiset<Entry>,
                  stamp': map<string, nat>, clock': nat, walks': map<string, seq<string>>)
    requires u in conn && u in g
    requires RelaxInv(conn, u, h, g, cf, frontier, start, |conn[u]|, g', cf', frontier', stamp', clock', walks')
    ensures Neighbors(conn[u]) <= h.Keys
    ensures Sound(conn, start, h, g', cf', stamp', clock', walks')
    ensures g'.Keys == g.Keys + Neighbors(conn[u])
    ensures RelaxedAmong(conn, u, g, cf, Neighbors(conn[u]), g', cf')
    ensures frontier' == frontier + PushesOf(conn, u, g, h, conn[u])
  {
    assert conn[u][..|conn[u]|] == conn[u];
  }

  // ---------------------------------------------------------------------
  // reconstruct_path

  /** The ordering key of every discovered city. */
  ghost function StampKey(g: map<string, real>, stamp: map<string, nat>): (key: map<string, (real, nat)>)
    requires stamp.Keys == g.Keys
    ensures key.Keys == g.Keys
    ensures forall v :: v in key ==> key[v] == (g[v], stamp[v])
  {
    map v | v in g :: (g[v], stamp[v])
  }

  /** The cities whose key lies below that of `v`. */
  ghost function Lower(key: map<string, (real, nat)>, v: string): set<string>
    requires v in key
  {
    set y | y in key && Below(key[y], key[v])
  }

  /** What `reconstruct_path` knows after collecting `rev` and standing at
      `current`: `rev` starts at the goal, follows the pointers, and its keys
      fall strictly, with `current` below all of them. */
  ghost predicate Chain(cityEnd: string, cameFrom: map<string, string>, key: map<string, (real, nat)>,
                        rev: seq<string>, current: string)
  {
    && (forall k :: 0 <= k < |rev| ==> rev[k] in cameFrom && rev[k] in key)
    && (rev == [] ==> current == cityEnd)
    && (rev != [] ==> rev[0] == cityEnd && current == cameFrom[rev[|rev| - 1]])
    && (forall k :: 1 <= k < |rev| ==> cameFrom[rev[k - 1]] == rev[k])
    && (forall i, j :: 0 <= i < j < |rev| ==> Below(key[rev[j]], key[rev[i]]))
    && (rev != [] ==> current in key && forall k :: 0 <= k < |rev| ==> Below(key[current], key[rev[k]]))
  }

  /** Following one more pointer keeps `Chain` and moves to a city with a
      smaller key, so fewer cities lie below it. */
  lemma ChainStep(cityEnd: string, cameFrom: map<string, string>, key: map<string, (real, nat)>,
                  rev: seq<string>, current: string)
    requires forall v :: v in cameFrom ==> v in key && cameFrom[v] in key && Below(key[cameFrom[v]], key[v])
    requires Chain(cityEnd, cameFrom, key, rev, current) && current in cameFrom
    ensures Chain(cityEnd, cameFrom, key, rev + [current], cameFrom[current])
    ensures Lower(key, cameFrom[current]) < Lower(key, current)
  {
    var rev', next := rev + [current], cameFrom[current];
    forall i, j | 0 <= i < j < |rev'| ensures Below(key[rev'[j]], key[rev'[i]]) {
      if j < |rev| {
        assert rev'[i] == rev[i] && rev'[j] == rev[j];
      } else {
        assert rev'[i] == rev[i] && rev'[j] == current;
      }
    }
    forall k | 0 <= k < |rev'| ensures Below(key[next], key[rev'[k]]) {
      if k < |rev| {
        assert rev'[k] == rev[k];
        BelowTransitive(key[next], key[current], key[rev[k]]);
      }
    }
    forall k | 1 <= k < |rev'| ensures cameFrom[rev'[k - 1]] == rev'[k] {
      if k < |rev| {
        assert rev'[k - 1] == rev[k - 1] && rev'[k] == rev[k];
      }
    }
    forall y | y in Lower(key, next) ensures y in Lower(key, current) {
      BelowTransitive(key[y], key[next], key[current]);
    }
    assert next in Lower(key, current) - Lower(key, next);
  }

  /** Once the pointers run out, the collected chain with the start appended
      follows the pointers from the goal back to the start and repeats no
      city. */
  lemma ChainComplete(cityStart: string, cityEnd: string, cameFrom: map<string, string>,
                      key: map<string, (real, nat)>, rev: seq<string>, current: string, full: seq<string>)
    requires cityStart !in cameFrom
    requires forall v :: v in cameFrom ==> cameFrom[v] in cameFrom || cameFrom[v] == cityStart
    requires Chain(cityEnd, cameFrom, key, rev, current) && current !in cameFrom
    requires full == rev + [cityStart]
    ensures forall k :: 0 <= k < |full| - 1 ==> full[k] in cameFrom
    ensures forall k :: 1 <= k < |full| ==> cameFrom[full[k - 1]] == full[k]
    ensures forall i, j :: 0 <= i < j < |full| ==> full[i] != full[j]
  {
    if rev != [] {
      assert current == cityStart;
    }
    forall k | 0 <= k < |full| - 1 ensures full[k] in cameFrom {
      assert full[k] == rev[k];
    }
    forall k | 1 <= k < |full| ensures cameFrom[full[k - 1]] == full[k] {
      assert full[k - 1] == rev[k - 1];
      if k < |rev| {
        assert full[k] == rev[k];
      }
    }
    forall i, j | 0 <= i < j < |full| ensures full[i] != full[j] {
      if j < |rev| {
        assert full[i] == rev[i] && full[j] == rev[j];
        assert Below(key[rev[j]], key[rev[i]]);
      } else {
        assert full[i] == rev[i] && full[j] == cityStart;
      }
    }
  }

  /** Reversing the collected chain with the start appended gives a path
      from the start to the goal along the pointers, without repetitions. */
  lemma ChainPath(cityStart: string, cityEnd: string, cameFrom: map<string, string>,
                  key: map<string, (real, nat)>, rev: seq<string>, current: string)
    requires cityStart !in cameFrom
    requires forall v :: v in cameFrom ==> cameFrom[v] in cameFrom || cameFrom[v] == cityStart
    requires Chain(cityEnd, cameFrom, key, rev, current) && current !in cameFrom
    ensures var path := Reversed(rev + [cityStart]);
      && |path| >= 1 && path[0] == cityStart
      && (cityEnd !in cameFrom ==> path == [cityStart])
      && (cityEnd in cameFrom ==> path[|path| - 1] == cityEnd)
      && (forall k :: 1 <= k < |path| ==> path[k] in cameFrom && cameFrom[path[k]] == path[k - 1])
      && (forall i, j :: 0 <= i < j < |path| ==> path[i] != path[j])
  {
    var full := rev + [cityStart];
    ChainComplete(cityStart, cityEnd, cameFrom, key, rev, current, full);
    var path := Reversed(full);
    var n := |full|;
    forall k | 1 <= k < n ensures path[k] in cameFrom && cameFrom[path[k]] == path[k - 1] {
      assert path[k] == full[n - 1 - k] && path[k - 1] == full[n - 1 - k + 1];
    }
    forall i, j | 0 <= i < j < n ensures path[i] != path[j] {
      assert path[i] == full[n - 1 - i] && path[j] == full[n - 1 - j];
    }
  }


  // ---------------------------------------------------------------------
  // a_star

  /** The cities that have an entry in the frontier. */
  ghost function Pending(frontier: multiset<Entry>): set<string> {
    set e | e in frontier :: e.1
  }

  /** What the main loop keeps besides `Sound`: every frontier entry names a
      discovered city, every expanded city is discovered and is not the goal,
      the neighbours of an expanded city are all discovered, and a discovered
      city is expanded or still pending. */
  ghost predicate Coverage(conn: map<string, Edges>, goal: string, frontier: multiset<Entry>,
                           explored: set<string>, g: map<string, real>)
  {
    && (forall e :: e in frontier ==> e.1 in g)
    && explored <= g.Keys
    && goal !in explored
    && (forall x :: x in explored ==> x in conn && Neighbors(conn[x]) <= g.Keys)
    && g.Keys <= explored + Pending(frontier)
  }

  /** The entries pushed while relaxing the first `i` edges of `u` name
      neighbours among those edges. */
  lemma {:induction false} PushedWithin(conn: map<string, Edges>, u: string, g: map<string, real>,
                                        h: map<string, real>, i: nat)
    requires u in conn && u in g && i <= |conn[u]|
    ensures Pending(PushesOf(conn, u, g, h, conn[u][..i])) <= Neighbors(conn[u][..i])
  {
    if i > 0 {
      var edges := conn[u];
      var n := edges[i - 1].0;
      PushedWithin(conn, u, g, h, i - 1);
      PushesOfSnoc(conn, u, g, h, edges, i - 1);
      NeighborsPrefix(edges, i - 1);
      var before, after := PushesOf(conn, u, g, h, edges[..i - 1]), PushesOf(conn, u, g, h, edges[..i]);
      forall x | x in Pending(after) ensures x in Neighbors(edges[..i]) {
        var e :| e in after && e.1 == x;
        if e in before {
          assert x in Pending(before);
        } else {
          assert x == n;
        }
      }
    }
  }

  /** Every neighbour among the first `i` edges of `u` that was not yet
      discovered has an entry pushed for it. */
  lemma {:induction false} PushedCover(conn: map<string, Edges>, u: string, g: map<string, real>,
                                       h: map<string, real>, i: nat)
    requires u in conn && u in g && i <= |conn[u]| && Neighbors(conn[u]) <= h.Keys
    ensures Neighbors(conn[u][..i]) - g.Keys <= Pending(PushesOf(conn, u, g, h, conn[u][..i]))
  {
    if i > 0 {
      var j := i - 1;
      var before := Pending(PushesOf(conn, u, g, h, conn[u][..j]));
      var after := Pending(PushesOf(conn, u, g, h, conn[u][..j + 1]));
      PushedCover(conn, u, g, h, j);
      PushedStep(conn, u, g, h, j);
      NeighborsPrefix(conn[u], j);
      CoverGrows(Neighbors(conn[u][..j]), conn[u][j].0, g.Keys, before, after);
    }
  }

  lemma CoverGrows(among: set<string>, n: string, known: set<string>, pending: set<string>, pending': set<string>)
    requires among - known <= pending && pending <= pending' && (n !in known ==> n in pending')
    ensures (among + {n}) - known <= pending'
  {
  }

  /** Relaxing edge `i` keeps the earlier entries and adds one for a target
      that was not yet discovered. */
  lemma PushedStep(conn: map<string, Edges>, u: string, g: map<string, real>, h: map<string, real>, i: nat)
    requires u in conn && u in g && i < |conn[u]| && Neighbors(conn[u]) <= h.Keys
    ensures Pending(PushesOf(conn, u, g, h, conn[u][..i])) <= Pending(PushesOf(conn, u, g, h, conn[u][..i + 1]))
    ensures conn[u][i].0 !in g ==> conn[u][i].0 in Pending(PushesOf(conn, u, g, h, conn[u][..i + 1]))
  {
    var edges := conn[u];
    var n := edges[i].0;
    PushesOfSnoc(conn, u, g, h, edges, i);
    var before, after := PushesOf(conn, u, g, h, edges[..i]), PushesOf(conn, u, g, h, edges[..i + 1]);
    assert before <= after;
    forall x | x in Pending(before) ensures x in Pending(after) {
      var e :| e in before && e.1 == x;
      assert e in after;
    }
    if n !in g {
      assert n in Neighbors(edges);
      assert Edge(conn, u, n) && Improves(conn, u, g, n);
      assert (g[u] + Cost(conn, u, n) + h[n], n) in after;
    }
  }

  /** One expansion of `current` (pop it, mark it explored, relax its
      edges) keeps the coverage. */
  lemma ExpandKeepsCoverage(conn: map<string, Edges>, goal: string, frontier: multiset<Entry>,
                            explored: set<string>, g: map<string, real>, least: Entry, rest: multiset<Entry>,
                            pushes: multiset<Entry>, g': map<string, real>, frontier': multiset<Entry>)
    requires Coverage(conn, goal, frontier, explored, g)
    requires least in frontier && rest == frontier - multiset{least} && least.1 != goal && least.1 in conn
    requires g'.Keys == g.Keys + Neighbors(conn[least.1])
    requires Pending(pushes) <= Neighbors(conn[least.1]) && Neighbors(conn[least.1]) - g.Keys <= Pending(pushes)
    requires frontier' == rest + pushes
    ensures Coverage(conn, goal, frontier', explored + {least.1}, g')
  {
    var u := least.1;
    forall e | e in frontier' ensures e.1 in g' {
      if e !in rest {
        assert e in pushes;
      }
    }
    forall x | x in g' ensures x in explored + {u} + Pending(frontier') {
      if x in g {
        if x !in explored && x != u {
          var e :| e in frontier && e.1 == x;
          assert e != least;
          assert e in rest;
          assert e in frontier';
        }
      } else {
        assert x in Neighbors(conn[u]) - g.Keys;
        assert x in Pending(pushes);
        var e :| e in pushes && e.1 == x;
        assert e in frontier';
      }
    }
  }

  /** Expanding `least.1` and relaxing all its edges keeps the coverage. */
  lemma ExpandStep(conn: map<string, Edges>, goal: string, h: map<string, real>, frontier: multiset<Entry>,
                   explored: set<string>, g: map<string, real>, least: Entry, rest: multiset<Entry>,
                   g': map<string, real>, frontier': multiset<Entry>)
    requires Coverage(conn, goal, frontier, explored, g)
    requires least in frontier && rest == frontier - multiset{least} && least.1 != goal && least.1 in conn
    requires least.1 in g && Neighbors(conn[least.1]) <= h.Keys
    requires g'.Keys == g.Keys + Neighbors(conn[least.1])
    requires frontier' == rest + PushesOf(conn, least.1, g, h, conn[least.1])
    ensures Coverage(conn, goal, frontier', explored + {least.1}, g')
  {
    var u := least.1;
    PushedWithin(conn, u, g, h, |conn[u]|);
    PushedCover(conn, u, g, h, |conn[u]|);
    assert conn[u][..|conn[u]|] == conn[u];
    ExpandKeepsCoverage(conn, goal, frontier, explored, g, least, rest, PushesOf(conn, u, g, h, conn[u]), g', frontier');
  }

  /** A walk that starts inside a set of cities closed under edges stays inside. */
  lemma {:induction false} WalkStaysInside(conn: map<string, Edges>, inside: set<string>, w: seq<string>)
    requires IsWalk(conn, w) && w[0] in inside
    requires forall x :: x in inside ==> x in conn && Neighbors(conn[x]) <= inside
    ensures w[|w| - 1] in inside
    decreases |w|
  {
    if |w| > 1 {
      var init := w[..|w| - 1];
      assert IsWalk(conn, init) by {
        forall k | 0 <= k < |init| - 1 ensures Edge(conn, init[k], init[k + 1]) {
          assert init[k] == w[k] && init[k + 1] == w[k + 1];
        }
      }
      WalkStaysInside(conn, inside, init);
      assert Edge(conn, w[|w| - 2], w[|w| - 1]);
    }
  }

  /** Following `came_from` pointers from the start city gives a walk whose
      cost is at most the g-cost of its last city. */
  lemma {:induction false} ChainCost(conn: map<string, Edges>, start: string, g: map<string, real>,
                                     cf: map<string, string>, stamp: map<string, nat>, path: seq<string>)
    requires Tree(conn, start, g, cf, stamp)
    requires |path| >= 1 && path[0] == start
    requires forall k :: 1 <= k < |path| ==> path[k] in cf && cf[path[k]] == path[k - 1]
    ensures IsWalk(conn, path) && path[|path| - 1] in g
    ensures PathCost(conn, path) <= g[path[|path| - 1]]
    decreases |path|
  {
    if |path| > 1 {
      var init := path[..|path| - 1];
      var v := path[|path| - 1];
      ChainCost(conn, start, g, cf, stamp, init);
      assert Pointer(conn, g, cf, stamp, v);
      assert init[|init| - 1] == cf[v];
      WalkExtend(conn, init, v);
      assert init + [v] == path;
    }
  }

  /** With non-negative move costs every walk has a non-negative cost. */
  lemma {:induction false} PathCostNonNegative(conn: map<string, Edges>, w: seq<string>)
    requires NonNegativeCosts(conn) && AllDicts(conn) && IsWalk(conn, w)
    ensures PathCost(conn, w) >= 0.0
    decreases |w|
  {
    if |w| > 1 {
      var init := w[..|w| - 1];
      assert IsWalk(conn, init) by {
        forall k | 0 <= k < |init| - 1 ensures Edge(conn, init[k], init[k + 1]) {
          assert init[k] == w[k] && init[k + 1] == w[k + 1];
        }
      }
      PathCostNonNegative(conn, init);
      CostNonNegative(conn, w[|w| - 2], w[|w| - 1]);
    }
  }

  lemma CostNonNegative(conn: map<string, Edges>, u: string, v: string)
    requires NonNegativeCosts(conn) && AllDicts(conn) && Edge(conn, u, v)
    ensures Cost(conn, u, v) >= 0.0
  {
    var i :| 0 <= i < |conn[u]| && conn[u][i].0 == v;
    assert Cost(conn, u, v) == conn[u][i].1;
  }

  lemma ProperSubsetSmaller(a: set<string>, b: set<string>, x: string)
    requires a <= b && x in b && x !in a
    ensures |a| < |b|
  {
    SubsetNoLarger(a, b - {x});
  }

  lemma {:induction false} SubsetNoLarger(a: set<string>, b: set<string>)
    requires a <= b
    ensures |a| <= |b|
    decreases a
  {
    if a != {} {
      var y :| y in a;
      SubsetNoLarger(a - {y}, b - {y});
    }
  }

  /** The `came_from` pointers of a tree meet what `reconstruct_path` needs. */
  lemma TreeKeyed(conn: map<string, Edges>, start: string, g: map<string, real>,
                  cf: map<string, string>, stamp: map<string, nat>)
    requires Tree(conn, start, g, cf, stamp)
    ensures start !in cf
    ensures forall v :: v in cf ==> cf[v] in cf || cf[v] == start
    ensures forall v :: v in cf ==>
              v in StampKey(g, stamp) && cf[v] in StampKey(g, stamp) && Below(StampKey(g, stamp)[cf[v]], StampKey(g, stamp)[v])
  {
    forall v | v in cf ensures cf[v] in cf || cf[v] == start {
      assert Pointer(conn, g, cf, stamp, v);
    }
  }

  /** What `a_star` returns when it pops the goal: the rebuilt path, its
      g-cost and the number of explored cities. */
  lemma GoalReached(conn: map<string, Edges>, start: string, goal: string, h: map<string, real>,
                    cities: seq<string>, explored: set<string>,
                    g: map<string, real>, cf: map<string, string>, stamp: map<string, nat>, clock: nat,
                    walks: map<string, seq<string>>, path: seq<string>)
    requires NonNegativeCosts(conn) && AllDicts(conn)
    requires Sound(conn, start, h, g, cf, stamp, clock, walks) && h.Keys == set c | c in cities
    requires goal in g && explored <= g.Keys && goal !in explored
    requires |path| >= 1 && path[0] == start
    requires goal !in cf ==> path == [start]
    requires goal in cf ==> path[|path| - 1] == goal
    requires forall k :: 1 <= k < |path| ==> path[k] in cf && cf[path[k]] == path[k - 1]
    ensures WalkTo(conn, start, goal, path) && 0.0 <= PathCost(conn, path) <= g[goal]
    ensures exists w :: WalkTo(conn, start, goal, w) && PathCost(conn, w) == g[goal]
    ensures |explored| < |set c | c in cities|
  {
    ChainCost(conn, start, g, cf, stamp, path);
    PathCostNonNegative(conn, path);
    assert WalkTo(conn, start, goal, walks[goal]);
    ProperSubsetSmaller(explored, h.Keys, goal);
  }

  /** The end of `a_star` without a path: once the frontier is empty, every city
      reachable from the start has been expanded, and the goal never was. */
  lemma Exhausted(conn: map<string, Edges>, start: string, goal: string, explored: set<string>,
                  g: map<string, real>)
    requires start in g && Coverage(conn, goal, multiset{}, explored, g)
    ensures Unreachable(conn, start, goal)
  {
    assert Pending(multiset{}) == {};
    forall w | IsWalk(conn, w) && w[0] == start ensures w[|w| - 1] != goal {
      WalkStaysInside(conn, explored, w);
    }
  }

  /** A city with a g-cost but no data is a reached unknown city. */
  lemma UnknownReached(conn: map<string, Edges>, start: string, g: map<string, real>,
                       walks: map<string, seq<string>>, h: map<string, real>, x: string)
    requires Witnessed(conn, start, g, walks) && x in g && (x !in conn || x !in h)
    ensures ReachedUnknown(conn, start, h, x)
  {
    assert WalkTo(conn, start, x, walks[x]);
  }

  /** The first neighbour of an expanded city without a heuristic value is
      reached one edge beyond that city. */
  lemma UnknownNeighbour(conn: map<string, Edges>, start: string, g: map<string, real>,
                         walks: map<string, seq<string>>, h: map<string, real>, u: string, n: string)
    requires Witnessed(conn, start, g, walks) && u in g && u in conn && MissingFirst(conn[u], h, n)
    ensures ReachedUnknown(conn, start, h, n)
  {
    var k :| 0 <= k < |conn[u]| && conn[u][k].0 == n && n !in h;
    assert n in Neighbors(conn[u]);
    WalkExtend(conn, walks[u], n);
    assert WalkTo(conn, start, n, walks[u] + [n]);
  }

}
