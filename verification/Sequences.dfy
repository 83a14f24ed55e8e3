/** Sequences without repetitions, and how many things they hold. */
module Sequences {

  /** Named, so that only the pairs a proof speaks of are compared. */
  ghost predicate Differ<T>(l: seq<T>, i: nat, j: nat)
    requires i < |l| && j < |l|
  {
    l[i] != l[j]
  }

  ghost predicate NoDuplicates<T>(l: seq<T>) {
    forall i, j | 0 <= i < j < |l| :: Differ(l, i, j)
  }

  lemma Apart<T>(l: seq<T>, i: nat, j: nat)
    requires NoDuplicates(l) && i < |l| && j < |l| && i != j
    ensures l[i] != l[j]
  {
    assert if i < j then Differ(l, i, j) else Differ(l, j, i);
  }

  lemma ConsDistinct<T>(x: T, l: seq<T>)
    requires NoDuplicates(l) && x !in l
    ensures NoDuplicates([x] + l)
  {
    var r := [x] + l;
    forall i, j | 0 <= i < j < |r| ensures Differ(r, i, j) {
      assert r[j] == l[j - 1];
      if i > 0 { Apart(l, i - 1, j - 1); }
    }
  }

  lemma PrefixDistinct<K>(l: seq<K>, i: nat)
    requires NoDuplicates(l) && i <= |l|
    ensures NoDuplicates(l[..i])
  {
    forall a, b | 0 <= a < b < i ensures Differ(l[..i], a, b) { Apart(l, a, b); }
  }

  lemma TailDistinct<T>(l: seq<T>)
    requires NoDuplicates(l) && l != []
    ensures NoDuplicates(l[1..]) && l[0] !in l[1..]
  {
    forall a, b | 0 <= a < b < |l| - 1 ensures Differ(l[1..], a, b) { Apart(l, a + 1, b + 1); }
    forall b | 0 <= b < |l| - 1 ensures l[1..][b] != l[0] { Apart(l, 0, b + 1); }
  }

  lemma OnlyAt<T>(l: seq<T>, i: nat)
    requires NoDuplicates(l) && i < |l|
    ensures l[i] !in l[..i] && l[i] !in l[i + 1..]
  {
    forall j | 0 <= j < |l| && j != i ensures l[j] != l[i] { Apart(l, i, j); }
  }

  function IndexOf<K(==)>(l: seq<K>, k: K): (i: nat)
    ensures i <= |l|
    ensures i < |l| ==> l[i] == k
    ensures k in l <==> i < |l|
    ensures forall j | 0 <= j < i :: l[j] != k
  {
    if l == [] then 0 else if l[0] == k then 0 else 1 + IndexOf(l[1..], k)
  }

  function RemoveAt<T>(l: seq<T>, i: nat): (r: seq<T>)
    requires i < |l|
    ensures |r| == |l| - 1
    ensures forall j | 0 <= j < |r| :: r[j] == l[if j < i then j else j + 1]
  {
    l[..i] + l[i + 1..]
  }

  lemma RemoveAtMembers<T>(l: seq<T>, i: nat)
    requires NoDuplicates(l) && i < |l|
    ensures NoDuplicates(RemoveAt(l, i))
    ensures forall x :: x in RemoveAt(l, i) <==> x in l && x != l[i]
  {
    var r := RemoveAt(l, i);
    forall a, b | 0 <= a < b < |r| ensures Differ(r, a, b) {
      Apart(l, if a < i then a else a + 1, if b < i then b else b + 1);
    }
    forall x | x in l && x != l[i] ensures x in r {
      var j :| 0 <= j < |l| && l[j] == x;
      assert r[if j < i then j else j - 1] == x;
    }
    forall a | 0 <= a < |r| ensures r[a] != l[i] {
      Apart(l, if a < i then a else a + 1, i);
    }
  }

  function Elements<T(==,!new)>(l: seq<T>): (s: set<T>)
    ensures forall x :: x in s <==> x in l
  {
    set x | x in l
  }

  lemma {:induction false} DistinctCount<T(!new)>(l: seq<T>)
    requires NoDuplicates(l)
    ensures |Elements(l)| == |l|
  {
    if l != [] {
      var m := |l| - 1;
      PrefixDistinct(l, m);
      OnlyAt(l, m);
      DistinctCount(l[..m]);
      assert Elements(l) == Elements(l[..m]) + {l[m]};
    }
  }

  function Range(n: nat): (r: set<nat>)
    ensures |r| == n && forall k: nat :: k in r <==> k < n
  {
    if n == 0 then {} else Range(n - 1) + {n - 1}
  }

  lemma {:induction false} SubsetCount<T>(a: set<T>, b: set<T>)
    requires a <= b
    ensures |a| <= |b|
  {
    if a != {} {
      var x :| x in a;
      SubsetCount(a - {x}, b - {x});
    }
  }

  /** `n` distinct numbers below `n` are all of them. */
  lemma {:induction false} Pigeonhole(fs: seq<nat>, j: nat)
    requires NoDuplicates(fs) && (forall i | 0 <= i < |fs| :: fs[i] < |fs|)
    requires j < |fs|
    ensures j in fs
  {
    var all := Range(|fs|);
    var used := Elements(fs);
    DistinctCount(fs);
    if j !in fs {
      assert used <= all - {j};
      SubsetCount(used, all - {j});
    }
  }
}
