/** Finite sets: a least element, and sizes. */
module Ordering {
  lemma {:induction false} Least(starts: set<int>) returns (least: int)
    requires starts != {}
    ensures least in starts && forall other :: other in starts ==> least <= other
    decreases |starts|
  {
    var one := Member(starts);
    if |starts| == 1 {
      assert starts == {one} by {
        assert |starts - {one}| == 0;
      }
      least := one;
    } else {
      assert |starts - {one}| == |starts| - 1;
      var rest := Least(starts - {one});
      least := if one <= rest then one else rest;
      assert forall other :: other in starts ==> other == one || other in starts - {one};
    }
  }

  lemma Member(starts: set<int>) returns (one: int)
    requires starts != {}
    ensures one in starts
  {
    if forall x :: x !in starts {
      assert false;
    }
    one :| one in starts;
  }

  lemma SubsetSize<T>(a: set<T>, b: set<T>)
    requires a <= b
    ensures |a| <= |b|
  {
    assert b == a + (b - a);
  }
}
