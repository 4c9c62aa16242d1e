/** The `frontier` heap of `a_star`, seen through what `heapq` guarantees:
    a multiset of `(priority, city)` tuples whose pop returns the least
    tuple in Python's tuple order. */
module Frontier {
  import opened Strings

  type Entry = (real, string)

  /** Python's `<` on `(priority, city)` tuples: by priority, then by name. */
  predicate EntryLess(a: Entry, b: Entry)
    ensures a.0 < b.0 ==> EntryLess(a, b)
    ensures EntryLess(a, b) ==> a.0 <= b.0 && (a.0 == b.0 ==> StrLess(a.1, b.1))
  {
    a.0 < b.0 || (a.0 == b.0 && StrLess(a.1, b.1))
  }

  predicate EntryLessEq(a: Entry, b: Entry) {
    a == b || EntryLess(a, b)
  }

  lemma {:induction false} EntryLessTransitive(a: Entry, b: Entry, c: Entry)
    requires EntryLess(a, b) && EntryLess(b, c)
    ensures EntryLess(a, c)
  {
    if a.0 == b.0 && b.0 == c.0 {
      StrLessTransitive(a.1, b.1, c.1);
    }
  }

  /** Two distinct entries are ordered one way or the other, and never both. */
  lemma {:induction false} EntryLessTotal(a: Entry, b: Entry)
    requires a != b
    ensures EntryLess(a, b) != EntryLess(b, a)
  {
    if a.0 == b.0 {
      StrLessTotal(a.1, b.1);
      if StrLess(a.1, b.1) && StrLess(b.1, a.1) {
        StrLessTransitive(a.1, b.1, a.1);
        StrLessIrreflexive(a.1);
      }
    }
  }

  /** `heapq.heappop(frontier)`: the least entry and the frontier without
      one copy of it. Among equal priorities the city first in name order
      comes out. */
  method PopMin(frontier: multiset<Entry>) returns (least: Entry, rest: multiset<Entry>)
    requires frontier != multiset{}
    ensures least in frontier && rest == frontier - multiset{least}
    ensures forall e :: e in frontier ==> EntryLessEq(least, e)
  {
    var pending := frontier;
    least :| least in frontier;
    while pending != multiset{}
      invariant pending <= frontier && least in frontier
      invariant forall e :: e in frontier ==> e in pending || EntryLessEq(least, e)
      decreases |pending|
    {
      var e :| e in pending;
      if EntryLess(e, least) {
        forall d | d in frontier && EntryLess(least, d) ensures EntryLess(e, d) {
          EntryLessTransitive(e, least, d);
        }
        least := e;
      } else if e != least {
        EntryLessTotal(e, least);
      }
      pending := pending - multiset{e};
    }
    rest := frontier - multiset{least};
  }
}
