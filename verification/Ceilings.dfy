/** The least of some ceilings. */
module Ceilings {
  import opened Common

  function Least(xs: seq<nat>): nat
    requires xs != []
  {
    if |xs| == 1 then xs[0] else Min(Least(xs[..|xs| - 1]), xs[|xs| - 1])
  }

  /** It is one of them, and none is below it. */
  lemma {:induction false} LeastIsTheFloor(xs: seq<nat>)
    requires xs != []
    ensures Least(xs) in xs && forall x <- xs :: Least(xs) <= x
  {
    if |xs| > 1 {
      var last := |xs| - 1;
      LeastIsTheFloor(xs[..last]);
      assert xs == xs[..last] + [xs[last]];
    }
  }

  lemma LeastAppend(xs: seq<nat>, x: nat)
    requires xs != []
    ensures Least(xs + [x]) == Min(Least(xs), x)
  {
    assert (xs + [x])[..|xs|] == xs;
  }

  /** So it does not depend on the order, nor on repetitions. */
  lemma SameMembersSameLeast(xs: seq<nat>, ys: seq<nat>)
    requires xs != [] && ys != [] && forall x :: x in xs <==> x in ys
    ensures Least(xs) == Least(ys)
  {
    LeastIsTheFloor(xs);
    LeastIsTheFloor(ys);
  }
}
