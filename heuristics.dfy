/** `AStarSearch.heuristic` and the per-city table `a_star` precomputes
    from it. */
module Heuristics {
  import opened Outcomes
  import opened Problem

  const LineOfSight: string := "line_of_sight_distance"
  const AltitudeDifference: string := "altitude_difference"

  /** The mode strings the `match` recognises. */
  predicate KnownMode(mode: string) {
    mode == "no" || mode == "simple" || mode == "advanced"
  }

  /** `heuristic(city, mode)`. `hypot(a, b)` stands for the floating-point
      square root of `a * a + b * b`, which the model does not compute. */
  function Heuristic(info: map<string, Details>, city: string, mode: string,
                     hypot: (real, real) -> real): (r: Result<real>)
    ensures r.Ok? <==> || mode == "no"
                       || (&& KnownMode(mode) && city in info && LineOfSight in info[city]
                           && (mode == "advanced" ==> AltitudeDifference in info[city]))
    ensures mode == "no" ==> r.value == 0.0
    ensures mode == "simple" && r.Ok? ==> r.value == info[city][LineOfSight]
    ensures mode == "advanced" && r.Ok? ==>
              r.value == hypot(info[city][LineOfSight], info[city][AltitudeDifference])
    ensures !KnownMode(mode) ==> r == Err(InvalidMode(mode))
    ensures KnownMode(mode) && r.Err? ==>
              r.error == KeyError(if city !in info then city
                                  else if LineOfSight !in info[city] then LineOfSight
                                  else AltitudeDifference)
  {
    match mode
    case "no" => Ok(0.0)
    case "simple" =>
      if city !in info then Err(KeyError(city))
      else
        var details := info[city];
        if LineOfSight !in details then Err(KeyError(LineOfSight))
        else Ok(details[LineOfSight])
    case "advanced" =>
      if city !in info then Err(KeyError(city))
      else
        var details := info[city];
        if LineOfSight !in details then Err(KeyError(LineOfSight))
        else if AltitudeDifference !in details then Err(KeyError(AltitudeDifference))
        else Ok(hypot(details[LineOfSight], details[AltitudeDifference]))
    case _ => Err(InvalidMode(mode))
  }

  /** The heuristic value of every listed city, keyed by city; the first
      city, in list order, whose heuristic raises decides the error. */
  function HeuristicValues(info: map<string, Details>, cities: seq<string>, mode: string,
                           hypot: (real, real) -> real): (r: Result<map<string, real>>)
    ensures r.Ok? <==> forall i :: 0 <= i < |cities| ==> Heuristic(info, cities[i], mode, hypot).Ok?
    ensures r.Ok? ==> r.value.Keys == set c | c in cities
    ensures r.Ok? ==> forall c :: c in r.value ==> Heuristic(info, c, mode, hypot) == Ok(r.value[c])
    ensures r.Err? ==> exists i :: && 0 <= i < |cities|
                                   && Heuristic(info, cities[i], mode, hypot) == Err(r.error)
                                   && forall j :: 0 <= j < i ==> Heuristic(info, cities[j], mode, hypot).Ok?
  {
    if cities == [] then Ok(map[])
    else
      match Heuristic(info, cities[0], mode, hypot)
      case Err(e) => Err(e)
      case Ok(v) =>
        var rest := HeuristicValues(info, cities[1..], mode, hypot);
        assert forall i :: 1 <= i < |cities| ==> cities[i] == cities[1..][i - 1];
        match rest
        case Err(e) =>
          ghost var k :| && 0 <= k < |cities[1..]|
                         && Heuristic(info, cities[1..][k], mode, hypot) == Err(e)
                         && forall j :: 0 <= j < k ==> Heuristic(info, cities[1..][j], mode, hypot).Ok?;
          assert Heuristic(info, cities[k + 1], mode, hypot) == Err(e);
          Err(e)
        case Ok(m) =>
          assert (set c | c in cities) == (set c | c in cities[1..]) + {cities[0]};
          Ok(m[cities[0] := v])
  }

  /** With every mode the search runs, the heuristic of a city whose data
      holds non-negative numbers is non-negative, and the 'advanced' value
      is at least the 'simple' one, provided `hypot` is a true Euclidean norm
      there. */
  lemma AdvancedDominatesSimple(info: map<string, Details>, city: string, hypot: (real, real) -> real)
    requires city in info && LineOfSight in info[city] && AltitudeDifference in info[city]
    requires info[city][LineOfSight] >= 0.0
    requires var a, b := info[city][LineOfSight], info[city][AltitudeDifference];
             hypot(a, b) >= 0.0 && hypot(a, b) * hypot(a, b) == a * a + b * b
    ensures Heuristic(info, city, "no", hypot) == Ok(0.0)
    ensures Heuristic(info, city, "simple", hypot).Ok? && Heuristic(info, city, "advanced", hypot).Ok?
    ensures 0.0 <= Heuristic(info, city, "simple", hypot).value <= Heuristic(info, city, "advanced", hypot).value
  {
    var a, b := info[city][LineOfSight], info[city][AltitudeDifference];
    SquareMonotone(a, hypot(a, b));
  }

  /** For non-negative reals, comparing squares compares the numbers. */
  lemma SquareMonotone(x: real, y: real)
    requires 0.0 <= x && 0.0 <= y && x * x <= y * y
    ensures x <= y
  {
    if y < x {
      SquareStrictlyGrows(y, x);
      assert false;
    }
  }

  lemma SquareStrictlyGrows(x: real, y: real)
    requires 0.0 <= x < y
    ensures x * x < y * y
  {
    var d := y - x;
    assert y * y == (x + d) * (x + d) == x * x + 2.0 * x * d + d * d;
    assert x * d >= 0.0;
    assert d * d > 0.0;
  }
}
