/** The graph model: what `AStarSearch.__init__` builds from the two parsed
    YAML sections. A Python dict whose iteration order matters is a sequence
    of key/value pairs with distinct keys; one whose order does not is a map. */
module Problem {
  import opened Outcomes
  import opened Strings

  /** A `connects_to` dict, in iteration order: neighbour name and move cost. */
  type Edges = seq<(string, real)>

  /** One city's block of `additional_information`. */
  type Details = map<string, real>

  /** A value of the `problem` section: the `cities` list, the `city_start` /
      `city_end` names, or a `city_<name>` block, whose only field read here
      is `connects_to` (None when the block has no such key). */
  datatype Value =
    | Text(text: string)
    | TextList(texts: seq<string>)
    | CityBlock(connectsTo: Option<Edges>)

  /** The fields of an `AStarSearch` object. */
  datatype SearchProblem = SearchProblem(
    heuristicInfo: map<string, Details>,
    cities: seq<string>,
    cityStart: string,
    cityEnd: string,
    connections: map<string, Edges>)

  /** A sequence of pairs is a dict: no key occurs twice. */
  predicate IsDict<V>(items: seq<(string, V)>) {
    forall i, j :: 0 <= i < j < |items| ==> items[i].0 != items[j].0
  }

  function Neighbors(edges: Edges): set<string> {
    set i | 0 <= i < |edges| :: edges[i].0
  }

  /** The dict an edge list denotes; a later pair overrides an earlier one,
      as in a Python dict display. */
  function AsMap(edges: Edges): (m: map<string, real>)
    ensures m.Keys == Neighbors(edges)
    ensures IsDict(edges) ==> forall i :: 0 <= i < |edges| ==> m[edges[i].0] == edges[i].1
  {
    if edges == [] then map[]
    else
      var init := edges[..|edges| - 1];
      var last := edges[|edges| - 1];
      assert forall i :: 0 <= i < |init| ==> init[i] == edges[i];
      assert Neighbors(edges) == Neighbors(init) + {last.0};
      AsMap(init)[last.0 := last.1]
  }

  /** `u -> v` is an edge of the graph. */
  predicate Edge(conn: map<string, Edges>, u: string, v: string) {
    u in conn && v in AsMap(conn[u])
  }

  function Cost(conn: map<string, Edges>, u: string, v: string): real
    requires Edge(conn, u, v)
  {
    AsMap(conn[u])[v]
  }

  /** Keys of the `problem` section that hold a city's `connects_to` block. */
  predicate IsBlockKey(k: string) {
    StartsWith(k, CityPrefix) && k != "city_start" && k != "city_end"
  }

  /** The shape the `ProblemDict` annotation declares: the list, the two
      names and the blocks have the types the constructor reads them as. */
  predicate WellShaped(problem: map<string, Value>) {
    && ("cities" in problem ==> problem["cities"].TextList?)
    && ("city_start" in problem ==> problem["city_start"].Text?)
    && ("city_end" in problem ==> problem["city_end"].Text?)
    && (forall k :: k in problem && IsBlockKey(k) ==> problem[k].CityBlock?)
  }

  predicate AllBlocksConnect(problem: map<string, Value>)
    requires WellShaped(problem)
  {
    forall k :: k in problem && IsBlockKey(k) ==> problem[k].connectsTo.Some?
  }

  /** The `heuristic_info` comprehension: every key loses its `city_` prefix;
      when two keys collapse to one, the later pair wins. */
  function StripKeys(items: seq<(string, Details)>): (m: map<string, Details>)
    ensures m.Keys == StrippedKeys(items)
    ensures forall i :: 0 <= i < |items| && LastWithStrippedKey(items, i) ==>
              m[RemovePrefix(items[i].0)] == items[i].1
  {
    if items == [] then map[]
    else
      var init := items[..|items| - 1];
      var last := items[|items| - 1];
      var m := StripKeys(init);
      StrippedKeysSnoc(items);
      LastSnoc(items);
      m[RemovePrefix(last.0) := last.1]
  }

  lemma StrippedKeysSnoc(items: seq<(string, Details)>)
    requires items != []
    ensures StrippedKeys(items) == StrippedKeys(items[..|items| - 1]) + {RemovePrefix(items[|items| - 1].0)}
  {
    var init := items[..|items| - 1];
    forall k | k in StrippedKeys(items) ensures k in StrippedKeys(init) + {RemovePrefix(items[|items| - 1].0)} {
      var i :| 0 <= i < |items| && k == RemovePrefix(items[i].0);
      if i < |init| { assert items[i] == init[i]; }
    }
    forall k | k in StrippedKeys(init) ensures k in StrippedKeys(items) {
      var i :| 0 <= i < |init| && k == RemovePrefix(init[i].0);
      assert items[i] == init[i];
    }
  }

  lemma LastSnoc(items: seq<(string, Details)>)
    requires items != []
    ensures forall i :: 0 <= i < |items| - 1 && LastWithStrippedKey(items, i) ==>
      LastWithStrippedKey(items[..|items| - 1], i) && RemovePrefix(items[i].0) != RemovePrefix(items[|items| - 1].0)
  {
    var init := items[..|items| - 1];
    forall i | 0 <= i < |init| && LastWithStrippedKey(items, i)
      ensures LastWithStrippedKey(init, i) && RemovePrefix(items[i].0) != RemovePrefix(items[|items| - 1].0)
    {
      forall j | i < j < |init| ensures RemovePrefix(init[j].0) != RemovePrefix(init[i].0) {
        assert init[j] == items[j] && init[i] == items[i];
      }
    }
  }

  /** The keys of the `heuristic_info` comprehension. */
  function StrippedKeys(items: seq<(string, Details)>): set<string> {
    set i | 0 <= i < |items| :: RemovePrefix(items[i].0)
  }

  /** No later pair of `items` has the same key once the prefix is removed. */
  predicate LastWithStrippedKey(items: seq<(string, Details)>, i: int)
    requires 0 <= i < |items|
  {
    forall j :: i < j < |items| ==> RemovePrefix(items[j].0) != RemovePrefix(items[i].0)
  }

  /** The `connections` comprehension over the `city_<name>` blocks. */
  function Connections(problem: map<string, Value>): (conn: map<string, Edges>)
    requires WellShaped(problem) && AllBlocksConnect(problem)
    ensures forall k :: k in problem && IsBlockKey(k) ==>
              RemovePrefix(k) in conn && conn[RemovePrefix(k)] == problem[k].connectsTo.value
    ensures forall c :: c in conn ==> CityPrefix + c in problem && IsBlockKey(CityPrefix + c)
  {
    PrefixRestoredEverywhere();
    map k | k in problem && IsBlockKey(k) :: RemovePrefix(k) := problem[k].connectsTo.value
  }

  /** `AStarSearch.__init__`: the lookups `problem['cities']`,
      `problem['city_start']`, `problem['city_end']` and
      `details['connects_to']` raise KeyError in that order. */
  function Init(problem: map<string, Value>, heuristicInfo: seq<(string, Details)>): (r: Result<SearchProblem>)
    requires WellShaped(problem)
    ensures "cities" !in problem ==> r == Err(KeyError("cities"))
    ensures "cities" in problem && "city_start" !in problem ==> r == Err(KeyError("city_start"))
    ensures "cities" in problem && "city_start" in problem && "city_end" !in problem ==> r == Err(KeyError("city_end"))
    ensures r.Ok? <==> "cities" in problem && "city_start" in problem && "city_end" in problem && AllBlocksConnect(problem)
    ensures "cities" in problem && "city_start" in problem && "city_end" in problem && !AllBlocksConnect(problem) ==>
              r == Err(KeyError("connects_to"))
    ensures r.Ok? ==> && r.value.cities == problem["cities"].texts
                      && r.value.cityStart == problem["city_start"].text
                      && r.value.cityEnd == problem["city_end"].text
    ensures r.Ok? ==> r.value.heuristicInfo.Keys == StrippedKeys(heuristicInfo)
    ensures r.Ok? ==> forall i :: 0 <= i < |heuristicInfo| && LastWithStrippedKey(heuristicInfo, i) ==>
                        r.value.heuristicInfo[RemovePrefix(heuristicInfo[i].0)] == heuristicInfo[i].1
    ensures r.Ok? ==> forall k :: k in problem && IsBlockKey(k) ==>
                        RemovePrefix(k) in r.value.connections
                        && r.value.connections[RemovePrefix(k)] == problem[k].connectsTo.value
    ensures r.Ok? ==> forall c :: c in r.value.connections ==> CityPrefix + c in problem && IsBlockKey(CityPrefix + c)
  {
    var info := StripKeys(heuristicInfo);
    if "cities" !in problem then Err(KeyError("cities"))
    else if "city_start" !in problem then Err(KeyError("city_start"))
    else if "city_end" !in problem then Err(KeyError("city_end"))
    else if !AllBlocksConnect(problem) then Err(KeyError("connects_to"))
    else Ok(SearchProblem(info, problem["cities"].texts, problem["city_start"].text,
                          problem["city_end"].text, Connections(problem)))
  }
}
