/** Walking the keys of a map in ascending order. */
module Ordered {

  ghost predicate IsMin(k: nat, s: set<nat>) {
    k in s && forall j | j in s :: k <= j
  }

  lemma {:induction false} HasMin(s: set<nat>)
    requires s != {}
    ensures exists k :: IsMin(k, s)
    decreases |s|
  {
    var k :| k in s;
    var rest := s - {k};
    assert forall j | j in s :: j == k || j in rest;
    if rest == {} {
      assert IsMin(k, s);
    } else {
      HasMin(rest);
      var m :| IsMin(m, rest);
      assert IsMin(if m < k then m else k, s);
    }
  }

  function MinOf(s: set<nat>): (k: nat)
    requires s != {}
    ensures IsMin(k, s)
  {
    HasMin(s);
    var k :| k in s && forall j | j in s :: k <= j;
    k
  }

  function Ascending(s: set<nat>): (order: seq<nat>)
    ensures |order| == |s|
    ensures forall k :: k in order <==> k in s
    ensures forall i, j | 0 <= i < j < |order| :: order[i] < order[j]
    decreases |s|
  {
    if s == {} then []
    else
      var k := MinOf(s);
      var rest := Ascending(s - {k});
      LeastFirst(s, k, rest);
      [k] + rest
  }

  lemma LeastFirst(s: set<nat>, k: nat, rest: seq<nat>)
    requires IsMin(k, s) && |rest| == |s| - 1 && forall j :: j in rest <==> j in s - {k}
    requires forall i, j | 0 <= i < j < |rest| :: rest[i] < rest[j]
    ensures var order := [k] + rest;
            && |order| == |s| && (forall j :: j in order <==> j in s)
            && forall i, j | 0 <= i < j < |order| :: order[i] < order[j]
  {
    assert forall i | 0 <= i < |rest| :: rest[i] in rest;
  }

  /** In an ascending sequence the next element is new to the prefix before it. */
  lemma PrefixGrows(order: seq<nat>, n: nat)
    requires n < |order| && forall i, j | 0 <= i < j < |order| :: order[i] < order[j]
    ensures order[n] !in order[..n] && forall g :: g in order[..n + 1] <==> g in order[..n] || g == order[n]
  {
    assert order[..n + 1] == order[..n] + [order[n]];
  }
}
