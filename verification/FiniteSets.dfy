/** Small facts about finite sets that several components need. */
module FiniteSets {

  lemma {:induction false} SubsetCount<A>(a: set<A>, b: set<A>)
    requires a <= b
    ensures |a| <= |b|
  {
    if a != {} {
      var x :| x in a;
      SubsetCount(a - {x}, b - {x});
    }
  }

  /** There is always an address that is not in use. */
  lemma FreshExists(used: set<nat>)
    ensures exists n: nat :: n != 0 && n !in used
  {
    var bound := Bound(used);
    assert bound != 0 && bound !in used;
  }

  lemma {:induction false} Bound(used: set<nat>) returns (bound: nat)
    ensures bound > 0 && forall n :: n in used ==> n < bound
  {
    if used == {} {
      bound := 1;
    } else {
      var n :| n in used;
      var b := Bound(used - {n});
      bound := if n < b then b else n + 1;
      assert forall m :: m in used ==> m == n || m in used - {n};
    }
  }
}
