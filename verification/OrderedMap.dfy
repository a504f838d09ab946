/** The ordered-map searches the unwinder performs on std::map: the first key
    above an address and the last key not above it. */
module OrderedMap {
  import opened Wrappers

  lemma {:induction false} MinBelow(s: set<nat>, x: nat)
    requires x in s
    ensures exists k :: k in s && forall j :: j in s ==> k <= j
    decreases x
  {
    if j :| j in s && j < x {
      MinBelow(s, j);
    }
  }

  lemma {:induction false} MaxAbove(s: set<nat>, x: nat, bound: nat)
    requires x in s && forall j :: j in s ==> j <= bound
    ensures exists k :: k in s && forall j :: j in s ==> j <= k
    decreases bound - x
  {
    if j :| j in s && x < j {
      MaxAbove(s, j, bound);
    }
  }

  lemma {:induction false} SetHasMin(s: set<nat>)
    requires s != {}
    ensures exists k :: k in s && forall j :: j in s ==> k <= j
  {
    var x :| x in s;
    MinBelow(s, x);
  }

  lemma {:induction false} SetHasMax(s: set<nat>, bound: nat)
    requires s != {} && forall j :: j in s ==> j <= bound
    ensures exists k :: k in s && forall j :: j in s ==> j <= k
  {
    var x :| x in s;
    MaxAbove(s, x, bound);
  }

  /** `upper_bound`: the least key strictly above `x`. */
  function UpperBound<V>(m: map<nat, V>, x: nat): (r: Option<nat>)
    ensures r.None? ==> forall k :: k in m ==> k <= x
    ensures r.Some? ==> r.value in m && x < r.value && forall k :: k in m && x < k ==> r.value <= k
  {
    var above := set k | k in m && x < k;
    assert forall k :: k in m && x < k ==> k in above;
    if above == {} then None
    else
      SetHasMin(above);
      var k :| k in above && forall j :: j in above ==> k <= j;
      Some(k)
  }

  /** The predecessor of `upper_bound(x)`: the greatest key not above `x`. */
  function LastNotAbove<V>(m: map<nat, V>, x: nat): (r: Option<nat>)
    ensures r.None? ==> forall k :: k in m ==> x < k
    ensures r.Some? ==> r.value in m && r.value <= x && forall k :: k in m && k <= x ==> k <= r.value
  {
    var below := set k | k in m && k <= x;
    assert forall k :: k in m && k <= x ==> k in below;
    if below == {} then None
    else
      SetHasMax(below, x);
      var k :| k in below && forall j :: j in below ==> j <= k;
      Some(k)
  }
}
