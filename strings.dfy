/** String helpers: Python's `str.startswith` / `str.removeprefix` for the
    `city_` prefix, and Python's ordering of strings (code point by code point,
    a proper prefix coming first), which Dafny's `<` on sequences is not. */
module Strings {

  const CityPrefix: string := "city_"

  /** `s.startswith(prefix)`: `s` is `prefix` followed by the rest of `s`. */
  predicate StartsWith(s: string, prefix: string)
    ensures StartsWith(s, prefix) <==> |prefix| <= |s| && s == prefix + s[|prefix|..]
  {
    |prefix| <= |s| && s[..|prefix|] == prefix
  }

  /** `s.removeprefix('city_')`: a prefixed key loses exactly the prefix,
      any other string is returned unchanged. */
  function RemovePrefix(s: string): (r: string)
    ensures StartsWith(s, CityPrefix) ==>
              |r| == |s| - |CityPrefix| && forall i :: 0 <= i < |r| ==> r[i] == s[|CityPrefix| + i]
    ensures !StartsWith(s, CityPrefix) ==> r == s
  {
    if StartsWith(s, CityPrefix) then s[|CityPrefix|..] else s
  }

  lemma PrefixRestoredEverywhere()
    ensures forall s :: StartsWith(s, CityPrefix) ==> CityPrefix + RemovePrefix(s) == s
  {
  }

  lemma RemovePrefixOfPrefixed(c: string)
    ensures StartsWith(CityPrefix + c, CityPrefix)
    ensures RemovePrefix(CityPrefix + c) == c
  {
    assert (CityPrefix + c)[..|CityPrefix|] == CityPrefix;
    assert (CityPrefix + c)[|CityPrefix|..] == c;
  }

  /** Python's `a < b` on `str`: the first differing character decides, and
      a proper prefix comes before the strings that extend it. */
  predicate StrLess(a: string, b: string)
    ensures |a| < |b| && b[..|a|] == a ==> StrLess(a, b)
  {
    |b| > 0 &&
    (|a| == 0 || a[0] < b[0] || (a[0] == b[0] && StrLess(a[1..], b[1..])))
  }

  lemma {:induction false} StrLessIrreflexive(a: string)
    ensures !StrLess(a, a)
  {
    if |a| > 0 {
      StrLessIrreflexive(a[1..]);
    }
  }

  lemma {:induction false} StrLessTransitive(a: string, b: string, c: string)
    requires StrLess(a, b) && StrLess(b, c)
    ensures StrLess(a, c)
  {
    if |a| > 0 && a[0] == b[0] && b[0] == c[0] {
      StrLessTransitive(a[1..], b[1..], c[1..]);
    }
  }

  /** Any two distinct strings are ordered one way or the other. */
  lemma {:induction false} StrLessTotal(a: string, b: string)
    requires a != b
    ensures StrLess(a, b) || StrLess(b, a)
  {
    if |a| > 0 && |b| > 0 && a[0] == b[0] {
      assert a == [a[0]] + a[1..] && b == [b[0]] + b[1..];
      StrLessTotal(a[1..], b[1..]);
    }
  }
}
