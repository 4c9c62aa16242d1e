# A* route search between cities: a Dafny model

`aufgabe1.py` reads a route-finding problem: a list of cities, a start and a
goal city, and for every city a `connects_to` dict that gives the move cost to
each neighbour. It also reads per-city heuristic data. `AStarSearch` then
runs A* three times, once per heuristic mode (`'no'`, `'simple'`,
`'advanced'`). It returns the cost, the path, the number of expanded cities
and the heuristic table it used.

The model covers the four members of `AStarSearch`:

- The constructor is modelled in `Problem.Init`. It strips the `city_` key
  prefix and collects the `connects_to` blocks.
- `heuristic` is modelled in `Heuristics.Heuristic`.
- `a_star` is modelled as the methods `Search.AStar`, `Search.Search`,
  `Search.Relax` and `Search.RelaxEdge`. They keep the frontier, `explored`,
  `came_from` and `g_costs` state of the source and update it in its loops.
- `reconstruct_path` is modelled as the method `Search.ReconstructPath`, with
  its `while` loop.

Python exceptions are values of `Outcomes.Error`:

- a failed dict lookup is `KeyError(key)`;
- the two explicit `ValueError`s are `InvalidMode` and `NoPath`.

The frontier heap is a multiset of `(priority, city)` entries. `Frontier.PopMin`
returns the least entry in Python's tuple order. Python's string order is
written out as `Strings.StrLess`, because Dafny's `<` on sequences means
"proper prefix". A `connects_to` dict is a sequence of pairs with distinct
keys, so the order in which edges are relaxed is the dict's order.

The correctness argument lives in module `Invariants`:

- `g_costs` and `came_from` always form a tree rooted at the start city, with
  cost 0 at the root (`Tree`).
- Along every pointer, the key (g-cost, time of last write) strictly
  increases, so `reconstruct_path` terminates.
- Every g-cost is the cost of an actual walk from the start (`Witnessed`).
- Every discovered city has been expanded or is still in the frontier, and
  the neighbours of expanded cities are discovered (`Coverage`).

Together these give what a returned solution promises (`Delivers`):

- its path is a walk from the start to the goal along the connections;
- the path repeats no city;
- the path costs at most the reported cost, and some walk costs exactly that;
- fewer cities were expanded than there are cities.

They also show that `NoPath` is only raised when no walk reaches the goal
(`Unreachable`).

## Model

| member | source | states |
|---|---|---|
| Problem.Init | aufgabe1.py:25-35 | The lookups of `cities`, `city_start`, `city_end` and `connects_to` fail with KeyError in that order, and success holds exactly when all are present. On success the fields hold the listed values, the stripped heuristic table and the stripped connection blocks. |
| Problem.StripKeys | aufgabe1.py:26-28 | The keys are the `city_`-stripped input keys. When two keys collapse to one, the value of the later pair is kept. |
| Problem.Connections | aufgabe1.py:32-35 | Every `city_X` key except `city_start` and `city_end` gives entry `X` with its `connects_to` edges. Every entry comes from such a key. |
| Problem.AsMap | aufgabe1.py:88 | The dict an edge list denotes has exactly the listed neighbours as keys. With distinct keys, each neighbour maps to its own move cost. |
| Strings.StartsWith | aufgabe1.py:34 | `startswith` holds exactly when the string is the prefix followed by the rest of the string. |
| Strings.RemovePrefix | aufgabe1.py:33 | `removeprefix('city_')` drops exactly the five prefix characters of a prefixed key and keeps the rest in order. It returns any other string unchanged. |
| Strings.RemovePrefixOfPrefixed | aufgabe1.py:77 | Stripping the prefix from `city_` + name gives the name back. |
| Strings.StrLess | aufgabe1.py:71 | Python's string order, used to break priority ties in the heap: a proper prefix comes before every string that extends it. |
| Strings.StrLessTransitive | aufgabe1.py:71 | Python's string order is transitive. |
| Strings.StrLessTotal | aufgabe1.py:71 | Any two distinct strings are ordered one way or the other. |
| Strings.StrLessIrreflexive | aufgabe1.py:71 | No string is less than itself. |
| Heuristics.Heuristic | aufgabe1.py:37-57 | The result is defined exactly when the mode is `'no'`, or the mode is known and the city's required data is present. Mode `'no'` gives 0. `'simple'` gives the line-of-sight distance. `'advanced'` gives `hypot` of distance and altitude difference. An unknown mode raises ValueError (`InvalidMode`), and a missing key raises KeyError naming that key. |
| Heuristics.HeuristicValues | aufgabe1.py:61 | The table succeeds exactly when every listed city's heuristic does. Its keys are the listed cities and its values their heuristics. An error is the one of the first failing city in list order. |
| Heuristics.AdvancedDominatesSimple | aufgabe1.py:44-55 | For data with a non-negative distance, where `hypot` is a Euclidean norm: `'no'` gives 0, and 0 <= `'simple'` <= `'advanced'`. |
| Frontier.EntryLess | aufgabe1.py:71 | Python's tuple order on `(priority, city)`: a smaller priority always comes first, and equal priorities are ordered by city name. |
| Frontier.EntryLessTransitive | aufgabe1.py:71 | The order on `(priority, city)` tuples is transitive. |
| Frontier.EntryLessTotal | aufgabe1.py:71 | Of two distinct entries exactly one is less than the other. |
| Frontier.PopMin | aufgabe1.py:71 | `heappop` returns an entry of the frontier that is at most every other entry, and removes one copy of it. |
| Paths.WalkExtend | aufgabe1.py:89 | Appending an edge to a walk gives a walk whose cost grows by that edge's cost. |
| Paths.Reversed | aufgabe1.py:110 | `reverse()` keeps the length and puts element `k` at position `len - 1 - k`. |
| Invariants.Prefixed | aufgabe1.py:77 | The output heuristic map holds each city's heuristic value under the key `city_` + city. |
| Invariants.PrefixedKeys | aufgabe1.py:77 | Every key of the output heuristic map is `city_` + some city, and holds that city's value. |
| Invariants.PrefixedRoundTrip | aufgabe1.py:77 | Stripping the prefix from the output map's keys recovers the precomputed `heuristic_values`. |
| Invariants.TreeAfterWrite | aufgabe1.py:91-93 | Writing a strictly smaller g-cost with predecessor `u` keeps the pointer tree. The start never gains a predecessor, and every pointer still satisfies `g[v] >= g[u] + cost(u, v)`. |
| Invariants.WitnessAfterWrite | aufgabe1.py:89-93 | After the write, the new g-cost is again the cost of a walk from the start. |
| Invariants.SoundAfterWrite | aufgabe1.py:89-93 | One improving write keeps the tree, the walk witnesses and the write clock. It never targets `u` or the start. |
| Invariants.RelaxNeverRaises | aufgabe1.py:91-93 | Relaxing never raises a g-cost, and every newly discovered city points back to the expanded city. |
| Invariants.PushedPriority | aufgabe1.py:89-95 | Every pushed entry names a neighbour that was new or strictly improved. Its priority is `g[u] + cost(u, n) + heuristic[n]`. |
| Invariants.RelaxStepImproved | aufgabe1.py:91-95 | An improving edge extends the relax-loop invariant by one edge: the new cost, the new pointer and one pushed entry. |
| Invariants.RelaxStepKept | aufgabe1.py:89-91 | A non-improving edge changes nothing and extends the relax-loop invariant by one edge. |
| Invariants.FrontierStep | aufgabe1.py:94-95 | The entry pushed for edge `i` is exactly the next entry of the pushes of that prefix of edges. |
| Invariants.FirstMissing | aufgabe1.py:94 | The first neighbour without a heuristic value shows that the neighbours are not all covered. It is recorded as the first missing one. |
| Invariants.RelaxDone | aufgabe1.py:88-95 | After all edges, the neighbours have heuristic values and the tree is kept. The discovered cities gain exactly the neighbours. Only improved neighbours change, and the frontier gains exactly the pushes. |
| Invariants.PushedWithin | aufgabe1.py:95 | Every pushed entry names a neighbour of the expanded city. |
| Invariants.PushedCover | aufgabe1.py:91-95 | Every neighbour that was not yet discovered gets a frontier entry. |
| Invariants.ExpandKeepsCoverage | aufgabe1.py:71-95 | One pop-expand-relax round keeps `Coverage`: frontier cities are discovered, and expanded cities are discovered and are not the goal. Their neighbours are discovered, and every discovered city is expanded or pending. |
| Invariants.ExpandStep | aufgabe1.py:71-95 | Expanding the popped city with the pushes of its edges keeps `Coverage`. |
| Invariants.WalkStaysInside | aufgabe1.py:70-100 | A walk that starts inside a set of cities closed under edges ends inside it. |
| Invariants.ChainCost | aufgabe1.py:102-111 | Following `came_from` from the start gives a walk whose cost is at most the g-cost of its last city. |
| Invariants.PathCostNonNegative | aufgabe1.py:89 | With non-negative move costs, every walk's cost is non-negative. |
| Invariants.TreeKeyed | aufgabe1.py:91-92 | The pointer tree gives what `reconstruct_path` needs: the start has no predecessor, and every predecessor is a pointer city or the start. Keys strictly fall along pointers. |
| Invariants.ChainStep | aufgabe1.py:106-108 | One more step back keeps the collected chain along the pointers with strictly falling keys. The set of cities below the current one shrinks. |
| Invariants.ChainComplete | aufgabe1.py:106-109 | When the pointers run out, the chain plus the start follows the pointers back to the start without repeating a city. |
| Invariants.ChainPath | aufgabe1.py:109-110 | The reversed chain starts at the start, ends at the goal (or is `[start]`), follows the pointers and repeats no city. |
| Invariants.GoalReached | aufgabe1.py:74-83 | When the goal is popped, the rebuilt path is a walk from start to goal costing at most `g_costs[goal]`. Some walk costs exactly that, and fewer cities were expanded than there are cities. |
| Invariants.Exhausted | aufgabe1.py:99-100 | With an empty frontier, no walk from the start reaches the goal. |
| Invariants.UnknownReached | aufgabe1.py:88 | A discovered city without a `connects_to` block or a heuristic value is reachable from the start, so a KeyError for it names a reached city. |
| Invariants.UnknownNeighbour | aufgabe1.py:88-94 | The first neighbour of a discovered city that has no heuristic value is reachable from the start, one edge beyond that city. |
| Search.RelaxEdge | aufgabe1.py:89-95 | One pass of the relax loop either raises KeyError for this edge's neighbour (which lacks a heuristic value) or extends the loop invariant by this edge. |
| Search.Relax | aufgabe1.py:88-95 | A KeyError names the first neighbour in dict order without a heuristic value, and occurs exactly when one exists. Otherwise the tree is kept, and the discovered cities gain exactly the neighbours. Only improved neighbours change, with the new cost and predecessor. No g-cost rises, and the frontier gains exactly the pushes. |
| Search.ReconstructPath | aufgabe1.py:102-111 | The path starts at the start city. It ends at the goal, or is `[start]` when the goal has no predecessor. Each city's predecessor is the one before it, and no city repeats. |
| Search.FinalPath | aufgabe1.py:74-83 | The solution built when the goal is popped meets `Delivers`. With start = goal on the first pop, the path is `[start]`. |
| Search.Search | aufgabe1.py:62-100 | A start without a heuristic value raises KeyError. Start = goal gives cost 0, path `[start]`, 0 expanded. Success meets `Delivers`, with the prefixed heuristic map. `NoPath` means the goal is unreachable. A KeyError names a city reachable from the start that has no `connects_to` block or no heuristic value. |
| Search.AStar | aufgabe1.py:59-100 | A failing heuristic table passes its error on. Otherwise the results are those of `Search` on the table: a missing start raises KeyError, start = goal gives the trivial solution, success meets `Delivers`, `NoPath` means the goal is unreachable, and a KeyError names a reachable city without a `connects_to` block or heuristic value. |

## Left out

- `load_problem`, `save_solution` and `main` are not modelled: YAML file I/O and command-line handling. The model starts from the parsed dicts. `run_tests.py` is not part of this model.
- Floating point: move costs, g-costs and heuristic values are exact reals. The `** 0.5` of the `'advanced'` heuristic is the parameter `hypot`, which the model does not compute.
- Heuristics.Heuristic: the default `mode='no'` is not modelled; every call passes a mode.
- `heapq`'s binary-heap layout and sift operations are left out. The frontier is a multiset, and `PopMin` and the pushes keep to what `heapq` guarantees.
- Search.Search: the `while frontier` loop takes a `fuel` bound, because its termination with real costs is not proved. Running out gives `OutOfFuel`, which the Python code has no counterpart for.
- Search.Search: it is not proved that the reported cost is minimal, because nothing is known about the heuristic data being admissible, and an optimality proof for A* that re-expands cities is out of scope. What is proved is that the returned path costs at most the reported cost, and that some walk costs exactly that. It is also not proved that a reachable goal always gives a solution.
- Search.AStar: the same two gaps as `Search.Search`.
- Search.AStar: requires non-negative move costs, which the pointer-tree argument needs. With negative costs the `came_from` pointers can form a cycle, and `reconstruct_path` would never end.
- Search.AStar: requires each `connects_to` list to have distinct neighbour names, as a YAML mapping does.
- Problem.Init: requires the problem dict to have the shape its type annotation declares (`WellShaped`). Values of other types are not modelled.
- Search.ReconstructPath: requires `came_from` to be a tree rooted at the start, which `a_star` always passes. On a cyclic map the Python loop never ends.
- The proof-only state (write stamps, walk witnesses) is ghost. The Python dicts and the set that `a_star` mutates are values the methods reassign, so aliasing is not modelled.
