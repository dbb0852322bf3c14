/** Maximum selection with the two tie-breaking rules of the sources: Rust's `max_by`/`max_by_key`
    keep the LAST maximal element, Python's `max` keeps the FIRST. */
module Argmax {

  /** `k` holds a maximal value of `xs`. */
  ghost predicate IsMax(xs: seq<real>, k: nat)
  {
    k < |xs| && forall j :: 0 <= j < |xs| ==> xs[j] <= xs[k]
  }

  /** Index of the last maximal element. */
  function LastMax(xs: seq<real>): (k: nat)
    requires |xs| > 0
    ensures IsMax(xs, k)
    ensures forall j :: k < j < |xs| ==> xs[j] < xs[k]
  {
    if |xs| == 1 then 0
    else
      var k := LastMax(xs[..|xs| - 1]);
      if xs[|xs| - 1] >= xs[k] then |xs| - 1 else k
  }

  /** Index of the first maximal element. */
  function FirstMax(xs: seq<real>): (k: nat)
    requires |xs| > 0
    ensures IsMax(xs, k)
    ensures forall j :: 0 <= j < k ==> xs[j] < xs[k]
  {
    if |xs| == 1 then 0
    else
      var k := FirstMax(xs[..|xs| - 1]);
      if xs[|xs| - 1] > xs[k] then |xs| - 1 else k
  }

  /** The two rules pick the same element exactly when the maximum is unique. */
  lemma FirstLastAgree(xs: seq<real>)
    requires |xs| > 0
    ensures FirstMax(xs) == LastMax(xs) <==>
              (forall j :: 0 <= j < |xs| && xs[j] == xs[LastMax(xs)] ==> j == LastMax(xs))
  {
    var f, l := FirstMax(xs), LastMax(xs);
    assert xs[f] == xs[l];
  }
}
