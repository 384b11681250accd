/** Facts about sequences that several components count with. */
module Seqs {

  ghost function Elements<T(!new)>(s: seq<T>): (r: set<T>)
    ensures forall x :: x in r <==> x in s
    ensures |r| <= |s|
  {
    if s == [] then {} else {s[0]} + Elements(s[1..])
  }

  ghost predicate NoDup<T>(s: seq<T>) {
    forall j, k :: 0 <= j < k < |s| ==> s[j] != s[k]
  }

  lemma {:induction false} ElementsExact<T(!new)>(s: seq<T>)
    requires NoDup(s)
    ensures |Elements(s)| == |s|
  {
    if s != [] {
      ElementsExact(s[1..]);
      assert s[0] !in s[1..];
    }
  }

  ghost function Below(n: nat): (r: set<nat>)
    ensures forall i: nat :: i in r <==> i < n
    ensures |r| == n
  {
    if n == 0 then {} else Below(n - 1) + {n - 1}
  }

  lemma SubsetSize<T>(a: set<T>, b: set<T>)
    requires a <= b
    ensures |a| <= |b|
    ensures |a| == |b| ==> a == b
  {
    assert b == a + (b - a);
    assert |b| == |a| + |b - a|;
    if |a| == |b| {
      assert b - a == {};
    }
  }

  /** n distinct numbers below n are all of them. */
  lemma AllListed(s: seq<nat>, n: nat)
    requires |s| >= n && NoDup(s)
    requires forall k :: 0 <= k < |s| ==> s[k] < n
    ensures forall i :: 0 <= i < n ==> i in s
  {
    ElementsExact(s);
    assert Elements(s) <= Below(n);
    SubsetSize(Elements(s), Below(n));
    forall i | 0 <= i < n ensures i in s {
      assert i in Below(n);
    }
  }

  // ----- recency lists

  function Position(list: seq<nat>, i: nat): (p: nat)
    requires i in list
    ensures p < |list| && list[p] == i && i !in list[..p]
  {
    if list[0] == i then 0 else 1 + Position(list[1..], i)
  }

  function Without(list: seq<nat>, i: nat): (r: seq<nat>)
    requires i in list
    ensures |r| == |list| - 1
  {
    var p := Position(list, i);
    list[..p] + list[p + 1..]
  }

  function MoveToFront(list: seq<nat>, i: nat): (r: seq<nat>)
    requires i in list
    ensures |r| == |list|
  {
    [i] + Without(list, i)
  }

  /** Taking an entry out of a list of distinct numbers leaves the others in their order. */
  lemma WithoutOk(list: seq<nat>, i: nat)
    requires NoDup(list) && i in list
    ensures NoDup(Without(list, i)) && i !in Without(list, i)
    ensures forall x :: x in list && x != i ==> x in Without(list, i)
    ensures forall x :: x in Without(list, i) ==> x in list
  {
    var p := Position(list, i);
    var r := Without(list, i);
    assert forall k :: 0 <= k < |r| ==> r[k] == if k < p then list[k] else list[k + 1];
    forall x | x in list && x != i ensures x in r {
      var q := Position(list, x);
      assert r[if q < p then q else q - 1] == x;
    }
  }
}
