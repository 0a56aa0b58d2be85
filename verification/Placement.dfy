/** Rendezvous placement: crates/kiseki-chunk-cluster/src/placement.rs, for any score function. */
module Placement {
  import opened Base
  import opened Sorting

  /** Higher score first, lower node id on ties. */
  function Ahead(score: nat -> nat): (nat, nat) -> bool {
    (a: nat, b: nat) => score(a) > score(b) || (score(a) == score(b) && a <= b)
  }

  function Ranked(score: nat -> nat, nodes: seq<nat>): seq<nat> { Sort(nodes, Ahead(score)) }

  /** The best `target` nodes for a chunk whose scores are given. */
  function PickPlacement(score: nat -> nat, nodes: seq<nat>, target: nat): seq<nat> {
    if nodes == [] || target == 0 then [] else Truncate(Ranked(score, nodes), Min(target, |nodes|))
  }

  lemma {:induction false} AheadIsOrder(score: nat -> nat)
    ensures TotalOrder(Ahead(score))
  {
  }

  lemma {:induction false} RankedIs(score: nat -> nat, nodes: seq<nat>)
    ensures Sorted(Ranked(score, nodes), Ahead(score))
    ensures multiset(Ranked(score, nodes)) == multiset(nodes)
    ensures |Ranked(score, nodes)| == |nodes|
    ensures forall t :: PickPlacement(score, nodes, t) == Truncate(Ranked(score, nodes), t)
  {
    AheadIsOrder(score);
    SortSorts(nodes, Ahead(score));
  }

  lemma {:induction false} DistinctElements(s: seq<nat>)
    ensures NoDup(s) <==> forall x :: multiset(s)[x] <= 1
  {
    if s != [] {
      var n := |s| - 1;
      DistinctElements(s[..n]);
      assert s == s[..n] + [s[n]];
      if NoDup(s) {
        assert s[n] !in s[..n];
        forall x
          ensures multiset(s)[x] <= 1
        {
          assert multiset(s)[x] == multiset(s[..n])[x] + multiset{s[n]}[x];
        }
      } else if NoDup(s[..n]) {
        var i :| 0 <= i < n && s[i] == s[n];
        assert s[..n][i] == s[n];
        assert multiset(s)[s[n]] == multiset(s[..n])[s[n]] + 1;
      } else {
        var x :| multiset(s[..n])[x] > 1;
        assert multiset(s)[x] == multiset(s[..n])[x] + multiset{s[n]}[x];
      }
    }
  }

  /** The result lists distinct nodes of the cluster, as many as asked for or as there are, and every
      node left out ranks behind every node picked. */
  lemma {:induction false} PlacementShape(score: nat -> nat, nodes: seq<nat>, target: nat)
    requires NoDup(nodes)
    ensures var r := PickPlacement(score, nodes, target);
            && NoDup(r) && |r| == Min(target, |nodes|)
            && (forall x :: x in r ==> x in nodes)
            && (forall x, y :: x in r && y in nodes && y !in r ==> Ahead(score)(x, y))
  {
    RankedIs(score, nodes);
    var all := Ranked(score, nodes);
    DistinctElements(nodes);
    DistinctElements(all);
    var r := PickPlacement(score, nodes, target);
    forall x | x in r
      ensures x in nodes
    {
      assert x in multiset(all);
    }
    forall x, y | x in r && y in nodes && y !in r
      ensures Ahead(score)(x, y)
    {
      assert y in multiset(all);
      var i :| 0 <= i < |r| && r[i] == x;
      var j :| 0 <= j < |all| && all[j] == y;
      assert forall n :: 0 <= n < |r| ==> r[n] == all[n];
    }
  }

  /** The order in which the membership list is given does not matter. */
  lemma {:induction false} OrderIndependent(score: nat -> nat, a: seq<nat>, b: seq<nat>, target: nat)
    requires multiset(a) == multiset(b)
    ensures PickPlacement(score, a, target) == PickPlacement(score, b, target)
  {
    AheadIsOrder(score);
    RankedIs(score, a);
    RankedIs(score, b);
    SortedUnique(Ranked(score, a), Ranked(score, b), Ahead(score));
  }

  /** Asking for more nodes only appends to the list. */
  lemma {:induction false} PrefixOfLarger(score: nat -> nat, nodes: seq<nat>, target: nat, larger: nat)
    requires target <= larger
    ensures PickPlacement(score, nodes, target) <= PickPlacement(score, nodes, larger)
  {
    RankedIs(score, nodes);
  }

  lemma {:induction false} MultisetCancel<T>(a: multiset<T>, b: multiset<T>, x: T)
    requires a + multiset{x} == b + multiset{x}
    ensures a == b
  {
    assert a == (a + multiset{x}) - multiset{x};
    assert b == (b + multiset{x}) - multiset{x};
  }

  lemma {:induction false} DeleteContents<T>(s: seq<T>, p: nat)
    requires p < |s|
    ensures multiset(s) == multiset(Delete(s, p)) + multiset{s[p]}
  {
    assert s == s[..p] + ([s[p]] + s[p + 1..]);
  }

  /** Removing a node deletes it from the ranking and leaves the others in place. */
  lemma {:induction false} RankedWithout(score: nat -> nat, nodes: seq<nat>, rest: seq<nat>, p: nat)
    requires p < |Ranked(score, nodes)|
    requires multiset(nodes) == multiset(rest) + multiset{Ranked(score, nodes)[p]}
    ensures Ranked(score, rest) == Delete(Ranked(score, nodes), p)
  {
    AheadIsOrder(score);
    RankedIs(score, nodes);
    RankedIs(score, rest);
    var all := Ranked(score, nodes);
    DeleteContents(all, p);
    MultisetCancel(multiset(Delete(all, p)), multiset(rest), all[p]);
    SortedUnique(Ranked(score, rest), Delete(all, p), Ahead(score));
  }

  lemma {:induction false} TruncateDelete<T>(s: seq<T>, p: nat, n: nat)
    requires p < |s|
    ensures p >= n ==> Truncate(Delete(s, p), n) == Truncate(s, n)
    ensures p < n ==> p < |Truncate(s, n)| && Truncate(s, n)[p] == s[p]
                      && Truncate(Delete(s, p), n) == Delete(Truncate(s, n + 1), p)
  {
  }

  /** Minimal disruption: removing a node that was not picked changes nothing; removing a picked node
      deletes it in place and appends the next-ranked node, if there is one. */
  lemma {:induction false} RemoveNode(score: nat -> nat, nodes: seq<nat>, rest: seq<nat>, x: nat, target: nat)
    returns (p: nat)
    requires NoDup(nodes) && multiset(nodes) == multiset(rest) + multiset{x}
    ensures var before := PickPlacement(score, nodes, target);
            var after := PickPlacement(score, rest, target);
            && (x !in before ==> after == before)
            && (x in before ==> p < |before| && before[p] == x
                                && after == Delete(PickPlacement(score, nodes, target + 1), p))
  {
    RankedIs(score, nodes);
    RankedIs(score, rest);
    var all := Ranked(score, nodes);
    p := PositionOf(score, nodes, x);
    RankedWithout(score, nodes, rest, p);
    TruncateDelete(all, p, target);
  }

  lemma {:induction false} PositionOf(score: nat -> nat, nodes: seq<nat>, x: nat) returns (p: nat)
    requires NoDup(nodes) && x in multiset(nodes)
    ensures p < |Ranked(score, nodes)| && Ranked(score, nodes)[p] == x
    ensures forall t: nat :: x in PickPlacement(score, nodes, t) <==> p < t
  {
    RankedIs(score, nodes);
    var all := Ranked(score, nodes);
    DistinctElements(nodes);
    DistinctElements(all);
    assert x in multiset(all);
    p :| 0 <= p < |all| && all[p] == x;
    forall t: nat
      ensures x in Truncate(all, t) <==> p < t
    {
      if p < t {
        assert Truncate(all, t)[p] == x;
      }
    }
  }

  lemma {:induction false} DisplacedOne<T>(wide: seq<T>, p: nat, n: nat)
    requires p < n && p < |wide| <= n + 1
    ensures var after := Truncate(wide, n);
            && ToSet(after) <= ToSet(Delete(wide, p)) + {wide[p]}
            && |ToSet(Delete(wide, p)) - ToSet(after)| <= 1
  {
    var after, before := Truncate(wide, n), Delete(wide, p);
    forall y | y in after && y != wide[p]
      ensures y in before
    {
      var i :| 0 <= i < |after| && after[i] == y;
      assert if i < p then before[i] == y else before[i - 1] == y;
    }
    var last := wide[|wide| - 1];
    forall y | y in before && y !in after
      ensures y == last
    {
      var i :| 0 <= i < |before| && before[i] == y;
      var j := if i < p then i else i + 1;
      assert wide[j] == y;
      assert forall n :: 0 <= n < |after| ==> after[n] == wide[n];
    }
    assert ToSet(before) - ToSet(after) <= {last};
    SubsetSize(ToSet(before) - ToSet(after), {last});
  }

  /** A joining node displaces at most one of the nodes already picked. */
  lemma {:induction false} AddNode(score: nat -> nat, nodes: seq<nat>, more: seq<nat>, x: nat, target: nat)
    requires NoDup(more) && multiset(more) == multiset(nodes) + multiset{x}
    ensures ToSet(PickPlacement(score, more, target)) <= ToSet(PickPlacement(score, nodes, target)) + {x}
    ensures |ToSet(PickPlacement(score, nodes, target)) - ToSet(PickPlacement(score, more, target))| <= 1
  {
    var p := RemoveNode(score, more, nodes, x, target);
    RankedIs(score, more);
    var after := PickPlacement(score, more, target);
    var before := PickPlacement(score, nodes, target);
    if x in after {
      var wide := PickPlacement(score, more, target + 1);
      assert after == Truncate(wide, target);
      DisplacedOne(wide, p, target);
    } else {
      assert ToSet(before) - ToSet(after) == {};
    }
  }
}
