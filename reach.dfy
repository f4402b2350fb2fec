/** The URLs a breadth-first crawl can reach within a number of link steps. They bound
    the `visited_urls` set of a crawl and so give its outer loop a termination measure. */
module Reach {

  /** The URLs reachable from `start` in at most `k` steps, where `next(u)` holds every
      link the page at `u` can contribute. */
  ghost function Within(start: string, next: string -> set<string>, k: nat): set<string>
  {
    if k == 0 then {start}
    else
      var prev := Within(start, next, k - 1);
      prev + set u, l | u in prev && l in next(u) :: l
  }

  /** Allowing more steps never loses a URL. */
  lemma {:induction false} WithinGrows(start: string, next: string -> set<string>, i: nat, j: nat)
    requires i <= j
    ensures Within(start, next, i) <= Within(start, next, j)
    decreases j
  {
    if i < j {
      WithinGrows(start, next, i, j - 1);
    }
  }

  /** A link of a URL reachable in `k` steps is reachable in `k + 1` steps. */
  lemma WithinStep(start: string, next: string -> set<string>, k: nat, u: string, l: string)
    requires u in Within(start, next, k) && l in next(u)
    ensures l in Within(start, next, k + 1)
  {
  }

  lemma {:induction false} SubsetSize(a: set<string>, b: set<string>)
    requires a <= b
    ensures |a| <= |b|
    decreases |a|
  {
    if a != {} {
      var x :| x in a;
      SubsetSize(a - {x}, b - {x});
    }
  }

  /** Growing a set inside a finite bound shrinks what is left of the bound. */
  lemma RemainderShrinks(bound: set<string>, before: set<string>, after: set<string>)
    requires before <= after <= bound && before != after
    ensures |bound - after| < |bound - before|
  {
    var x :| x in after && x !in before;
    SubsetSize(bound - after, (bound - before) - {x});
  }
}
