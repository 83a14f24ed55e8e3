/** The recency list behind the voxel map and the visual map: the most recently touched key
    first, one entry a key, cut off at the tail. */
module LruList {
  import opened Sequences

  /** What one access does to the list: an entry moves to the front; a missing key enters
      there and, when the list has reached `lru` entries, the tail leaves. */
  function Touch<K(==)>(l: seq<K>, k: K, lru: nat): seq<K> {
    if k in l then [k] + RemoveAt(l, IndexOf(l, k))
    else if |l| + 1 >= lru then ([k] + l)[..|l|]
    else [k] + l
  }

  function TouchAll<K(==)>(l: seq<K>, ks: seq<K>, lru: nat): seq<K> {
    if ks == [] then l
    else Touch(TouchAll(l, ks[..|ks| - 1], lru), ks[|ks| - 1], lru)
  }

  lemma MoveMembers<T>(l: seq<T>, i: nat)
    requires NoDuplicates(l) && i < |l|
    ensures NoDuplicates([l[i]] + RemoveAt(l, i))
    ensures forall x :: x in [l[i]] + RemoveAt(l, i) <==> x in l
  {
    RemoveAtMembers(l, i);
    ConsDistinct(l[i], RemoveAt(l, i));
  }

  lemma TouchDistinct<K>(l: seq<K>, k: K, lru: nat)
    requires NoDuplicates(l)
    ensures NoDuplicates(Touch(l, k, lru))
  {
    if k in l {
      MoveMembers(l, IndexOf(l, k));
    } else {
      ConsDistinct(k, l);
      PrefixDistinct([k] + l, |l|);
    }
  }

  // ------------------------------------------------ recency, independently

  function Without<K(==,!new)>(l: seq<K>, k: K): (r: seq<K>)
    ensures |r| <= |l|
    ensures forall x :: x in r <==> x in l && x != k
  {
    if l == [] then []
    else if l[0] == k then Without(l[1..], k)
    else [l[0]] + Without(l[1..], k)
  }

  /** First occurrences only. */
  function Dedup<K(==,!new)>(l: seq<K>): (r: seq<K>)
    ensures |r| <= |l|
    ensures forall x :: x in r <==> x in l
  {
    if l == [] then [] else [l[0]] + Without(Dedup(l[1..]), l[0])
  }

  function Take<K>(n: nat, l: seq<K>): (r: seq<K>)
    ensures r <= l && |r| == if |l| < n then |l| else n
  {
    if |l| <= n then l else l[..n]
  }

  function Reverse<K>(l: seq<K>): (r: seq<K>)
    ensures |r| == |l|
  {
    if l == [] then [] else [l[|l| - 1]] + Reverse(l[..|l| - 1])
  }

  lemma {:induction false} WithoutAbsent<K(!new)>(l: seq<K>, k: K)
    requires k !in l
    ensures Without(l, k) == l
  {
    if l != [] { WithoutAbsent(l[1..], k); }
  }

  lemma DedupCons<K(!new)>(x: K, l: seq<K>)
    ensures Dedup([x] + l) == [x] + Without(Dedup(l), x)
  {
    assert ([x] + l)[1..] == l;
  }

  lemma {:induction false} WithoutDistinct<K(!new)>(l: seq<K>, k: K)
    requires NoDuplicates(l)
    ensures NoDuplicates(Without(l, k))
  {
    if l != [] {
      assert l == [l[0]] + l[1..];
      TailDistinct(l);
      WithoutDistinct(l[1..], k);
      if l[0] != k { ConsDistinct(l[0], Without(l[1..], k)); }
    }
  }

  lemma {:induction false} WithoutIsRemoved<K(!new)>(l: seq<K>, k: K, i: nat)
    requires i < |l| && l[i] == k && k !in l[..i] && k !in l[i + 1..]
    ensures Without(l, k) == RemoveAt(l, i)
    decreases i
  {
    if i == 0 {
      WithoutAbsent(l[1..], k);
    } else {
      assert l[0] == l[..i][0];
      assert l[1..][..i - 1] == l[..i][1..] && l[1..][i..] == l[i + 1..];
      WithoutIsRemoved(l[1..], k, i - 1);
      RemoveBehind(l, i - 1);
    }
  }

  lemma RemoveBehind<K>(l: seq<K>, i: nat)
    requires i + 1 < |l|
    ensures RemoveAt(l, i + 1) == [l[0]] + RemoveAt(l[1..], i)
  {
  }

  lemma {:induction false} DedupNoDuplicates<K(!new)>(l: seq<K>)
    ensures NoDuplicates(Dedup(l))
  {
    if l != [] {
      DedupNoDuplicates(l[1..]);
      WithoutDistinct(Dedup(l[1..]), l[0]);
      ConsDistinct(l[0], Without(Dedup(l[1..]), l[0]));
    }
  }

  lemma {:induction false} DedupDistinct<K(!new)>(l: seq<K>)
    requires NoDuplicates(l)
    ensures Dedup(l) == l
  {
    if l != [] {
      TailDistinct(l);
      DedupDistinct(l[1..]);
      WithoutAbsent(l[1..], l[0]);
    }
  }

  /** One access of a list cut at `n` is one access of the unbounded list, cut at `n`. */
  lemma {:induction false} TouchIsCut<K(!new)>(d: seq<K>, k: K, n: nat)
    requires NoDuplicates(d)
    ensures Touch(Take(n, d), k, n + 1) == Take(n, [k] + Without(d, k))
  {
    if k !in d {
      WithoutAbsent(d, k);
    } else {
      OnlyAt(d, IndexOf(d, k));
      WithoutIsRemoved(d, k, IndexOf(d, k));
      if IndexOf(d, k) < n {
        MoveIsCut(d, k, n);
      } else {
        ReturnIsCut(d, k, n);
      }
    }
  }

  lemma ReturnIsCut<K(!new)>(d: seq<K>, k: K, n: nat)
    requires k in d && IndexOf(d, k) >= n
    ensures Touch(Take(n, d), k, n + 1) == Take(n, [k] + RemoveAt(d, IndexOf(d, k)))
  {
    assert k !in Take(n, d);
  }

  lemma MoveIsCut<K(!new)>(d: seq<K>, k: K, n: nat)
    requires k in d && IndexOf(d, k) < n
    ensures Touch(Take(n, d), k, n + 1) == Take(n, [k] + RemoveAt(d, IndexOf(d, k)))
  {
    var i := IndexOf(d, k);
    assert Take(n, d)[i] == k;
    assert IndexOf(Take(n, d), k) == i;
  }

  /** After any accesses the list holds exactly the `lru - 1` most recently touched distinct
      keys, the newest first. */
  lemma {:induction false} TouchAllIsRecency<K(!new)>(l: seq<K>, ks: seq<K>, lru: nat)
    requires lru >= 1 && NoDuplicates(l) && |l| <= lru - 1
    ensures TouchAll(l, ks, lru) == Take(lru - 1, Dedup(Reverse(ks) + l))
  {
    if ks == [] {
      assert Reverse(ks) + l == l;
      DedupDistinct(l);
    } else {
      var m := |ks| - 1;
      TouchAllIsRecency(l, ks[..m], lru);
      var older := Reverse(ks[..m]) + l;
      assert Reverse(ks) + l == [ks[m]] + older;
      assert Dedup(Reverse(ks) + l) == [ks[m]] + Without(Dedup(older), ks[m]) by { DedupCons(ks[m], older); }
      DedupNoDuplicates(older);
      TouchIsCut(Dedup(older), ks[m], lru - 1);
    }
  }

  lemma {:induction false} TouchAllBounded<K(!new)>(l: seq<K>, ks: seq<K>, lru: nat)
    requires lru >= 1 && NoDuplicates(l) && |l| <= lru - 1
    ensures NoDuplicates(TouchAll(l, ks, lru)) && |TouchAll(l, ks, lru)| <= lru - 1
  {
    TouchAllIsRecency(l, ks, lru);
    DedupNoDuplicates(Reverse(ks) + l);
    PrefixDistinct(Dedup(Reverse(ks) + l), |TouchAll(l, ks, lru)|);
  }

  /** With room for two, the key just touched heads the list: it is never the one evicted. */
  lemma {:induction false} JustTouchedStays<K(!new)>(l: seq<K>, k: K, lru: nat)
    requires lru >= 2
    ensures Touch(l, k, lru) != [] && Touch(l, k, lru)[0] == k
  {
    if k !in l && |l| + 1 >= lru { assert |l| >= 1; }
  }

  /** On a list within its capacity the key just touched stays, at the head, exactly when there
      is room for two: with room for one it is pushed out as it enters. */
  lemma JustTouchedStaysIff<K(!new)>(l: seq<K>, k: K, lru: nat)
    requires lru >= 1 && |l| <= lru - 1
    ensures Touch(l, k, lru) != [] && Touch(l, k, lru)[0] == k <==> lru >= 2
  {
    if lru >= 2 {
      JustTouchedStays(l, k, lru);
    } else {
      assert l == [];
    }
  }

  /** How many distinct keys were touched after the last touch of `k`. */
  function TouchedSince<K(==,!new)>(ks: seq<K>, k: K): (s: set<K>) {
    if ks == [] || ks[|ks| - 1] == k then {}
    else TouchedSince(ks[..|ks| - 1], k) + {ks[|ks| - 1]}
  }

  /** The keys ahead of `k` are exactly those touched after it. */
  lemma {:induction false} AheadWereTouchedSince<K(!new)>(ks: seq<K>, k: K)
    requires k in ks
    ensures var d := Dedup(Reverse(ks)); Elements(d[..IndexOf(d, k)]) == TouchedSince(ks, k)
  {
    var m := |ks| - 1;
    var older := Dedup(Reverse(ks[..m]));
    assert Dedup(Reverse(ks)) == [ks[m]] + Without(older, ks[m]) by { DedupCons(ks[m], Reverse(ks[..m])); }
    if ks[m] == k {
      assert Elements(([k] + Without(older, k))[..0]) == {};
    } else {
      assert k in ks[..m];
      assert k in older by { ReverseMembers(ks[..m]); }
      AheadWereTouchedSince(ks[..m], k);
      AheadWithout(older, ks[m], k);
      AheadCons(ks[m], Without(older, ks[m]), k);
      ElementsCons(ks[m], Without(older, ks[m])[..IndexOf(Without(older, ks[m]), k)]);
    }
  }

  lemma ElementsCons<K(!new)>(x: K, l: seq<K>)
    ensures Elements([x] + l) == {x} + Elements(l)
  {
  }

  lemma AheadCons<K(!new)>(x: K, rest: seq<K>, k: K)
    requires x != k && k in rest
    ensures var d := [x] + rest;
            d[..IndexOf(d, k)] == [x] + rest[..IndexOf(rest, k)]
  {
    assert ([x] + rest)[1..] == rest;
  }

  lemma {:induction false} ReverseMembers<K(!new)>(l: seq<K>)
    ensures forall x :: x in Reverse(l) <==> x in l
  {
    if l != [] {
      ReverseMembers(l[..|l| - 1]);
      assert l == l[..|l| - 1] + [l[|l| - 1]];
    }
  }

  lemma {:induction false} AheadWithout<K(!new)>(l: seq<K>, gone: K, k: K)
    requires k in l && k != gone
    ensures Elements(Without(l, gone)[..IndexOf(Without(l, gone), k)]) == Elements(l[..IndexOf(l, k)]) - {gone}
  {
    if l[0] != k {
      AheadWithout(l[1..], gone, k);
      var rest, i := Without(l[1..], gone), IndexOf(l[1..], k);
      assert [l[0]] + l[1..] == l;
      AheadCons(l[0], l[1..], k);
      ElementsCons(l[0], l[1..][..i]);
      if l[0] != gone {
        AheadCons(l[0], rest, k);
        ElementsCons(l[0], rest[..IndexOf(rest, k)]);
      }
    }
  }

  /** A key is listed exactly when it was touched and fewer than `lru - 1` distinct keys were
      touched after its last touch. */
  lemma {:induction false} ListedIff<K(!new)>(ks: seq<K>, k: K, lru: nat)
    requires lru >= 1
    ensures k in TouchAll([], ks, lru) <==> k in ks && |TouchedSince(ks, k)| < lru - 1
  {
    var d := Dedup(Reverse(ks));
    TouchAllIsRecency([], ks, lru);
    assert Reverse(ks) + [] == Reverse(ks);
    ReverseMembers(ks);
    if k in ks {
      var i := IndexOf(d, k);
      AheadWereTouchedSince(ks, k);
      DedupNoDuplicates(Reverse(ks));
      TakenIndex(d, k, lru - 1);
      PrefixDistinct(d, i);
      DistinctCount(d[..i]);
    }
  }

  // ------------------------------------------------ sweeps

  /** Keep, in order, the keys a sweep does not delete. */
  function Filter<K(==,!new)>(l: seq<K>, keep: K -> bool): (r: seq<K>)
    ensures |r| <= |l|
    ensures forall x :: x in r <==> x in l && keep(x)
  {
    if l == [] then []
    else if keep(l[0]) then [l[0]] + Filter(l[1..], keep)
    else Filter(l[1..], keep)
  }

  lemma {:induction false} FilterNoDuplicates<K(!new)>(l: seq<K>, keep: K -> bool)
    requires NoDuplicates(l)
    ensures NoDuplicates(Filter(l, keep))
  {
    if l != [] {
      TailDistinct(l);
      FilterNoDuplicates(l[1..], keep);
      if keep(l[0]) { ConsDistinct(l[0], Filter(l[1..], keep)); }
    }
  }

  // ------------------------------------------------ accesses and sweeps

  /** An access of a key, or a sweep that keeps some of the keys. */
  datatype Op<!K> = Touching(key: K) | Keeping(keep: K -> bool)

  /** The list after them, without the branches of the program: a touched key heads the list,
      the rest follow without it, cut at `cap`; a sweep filters. */
  function Recent<K(==,!new)>(l: seq<K>, ops: seq<Op<K>>, cap: nat): (r: seq<K>) {
    if ops == [] then l
    else
      var before := Recent(l, ops[..|ops| - 1], cap);
      match ops[|ops| - 1]
      case Touching(k) => Take(cap, [k] + Without(before, k))
      case Keeping(keep) => Filter(before, keep)
  }

  function Touches<K>(ks: seq<K>): (ops: seq<Op<K>>)
    ensures |ops| == |ks|
  {
    seq(|ks|, i requires 0 <= i < |ks| => Touching(ks[i]))
  }

  lemma {:induction false} TouchWithinCapacity<K(!new)>(l: seq<K>, k: K, lru: nat)
    requires lru >= 1 && NoDuplicates(l) && |l| <= lru - 1
    ensures Touch(l, k, lru) == Take(lru - 1, [k] + Without(l, k))
    ensures |Touch(l, k, lru)| <= lru - 1
  {
    TouchIsCut(l, k, lru - 1);
  }

  lemma TouchAllStep<K(!new)>(l: seq<K>, ks: seq<K>, k: K, lru: nat)
    requires lru >= 1 && NoDuplicates(l) && |l| <= lru - 1
    ensures TouchAll(l, ks + [k], lru) == Take(lru - 1, [k] + Without(TouchAll(l, ks, lru), k))
  {
    assert (ks + [k])[..|ks|] == ks;
    TouchAllBounded(l, ks, lru);
    TouchWithinCapacity(TouchAll(l, ks, lru), k, lru);
  }

  /** Accesses alone are those of the program. */
  lemma {:induction false} RecentTouches<K(!new)>(l: seq<K>, ks: seq<K>, lru: nat)
    requires lru >= 1 && NoDuplicates(l) && |l| <= lru - 1
    ensures Recent(l, Touches(ks), lru - 1) == TouchAll(l, ks, lru)
  {
    if ks != [] {
      var n := |ks| - 1;
      assert Touches(ks)[..n] == Touches(ks[..n]);
      RecentTouches(l, ks[..n], lru);
      TouchAllStep(l, ks[..n], ks[n], lru);
      assert ks[..n] + [ks[n]] == ks;
    }
  }

  lemma {:induction false} RecentConcat<K(!new)>(l: seq<K>, a: seq<Op<K>>, b: seq<Op<K>>, cap: nat, between: seq<K>)
    requires between == Recent(l, a, cap)
    ensures Recent(l, a + b, cap) == Recent(between, b, cap)
  {
    if b == [] {
      assert a + b == a;
    } else {
      RecentConcat(l, a, b[..|b| - 1], cap, between);
      assert (a + b)[..|a + b| - 1] == a + b[..|b| - 1];
    }
  }

  lemma {:induction false} RecentNoDuplicates<K(!new)>(l: seq<K>, ops: seq<Op<K>>, cap: nat)
    requires NoDuplicates(l)
    ensures NoDuplicates(Recent(l, ops, cap))
  {
    if ops != [] {
      var before := Recent(l, ops[..|ops| - 1], cap);
      RecentNoDuplicates(l, ops[..|ops| - 1], cap);
      match ops[|ops| - 1]
      case Touching(k) =>
        WithoutDistinct(before, k);
        ConsDistinct(k, Without(before, k));
        PrefixDistinct([k] + Without(before, k), |Take(cap, [k] + Without(before, k))|);
      case Keeping(keep) => FilterNoDuplicates(before, keep);
    }
  }

  /** Operation `t` is the last access of `k`. */
  ghost predicate LastTouch<K(!new)>(ops: seq<Op<K>>, k: K, t: nat) {
    && t < |ops| && ops[t].Touching? && ops[t].key == k
    && forall i | t < i < |ops| :: ops[i].Touching? ==> ops[i].key != k
  }

  /** No sweep from operation `t` on drops `k`. */
  ghost predicate Kept<K(!new)>(ops: seq<Op<K>>, k: K, t: nat) {
    forall i | t <= i < |ops| :: ops[i].Keeping? ==> ops[i].keep(k)
  }

  /** The keys touched after operation `t` and not swept out since. */
  ghost function Ahead<K(!new)>(ops: seq<Op<K>>, t: nat): (s: set<K>)
    ensures forall x :: x in s <==> exists i | t < i < |ops| :: ops[i].Touching? && ops[i].key == x && Kept(ops, x, i)
  {
    set i | t < i < |ops| && ops[i].Touching? && Kept(ops, ops[i].key, i) :: ops[i].key
  }

  /** From its last access on `k` was swept out by nothing and never pushed past `cap`. */
  ghost predicate Stays<K(!new)>(ops: seq<Op<K>>, k: K, t: nat, cap: nat) {
    && LastTouch(ops, k, t) && Kept(ops, k, t)
    && forall n | t < n <= |ops| :: |Ahead(ops[..n], t)| < cap
  }

  ghost predicate Remains<K(!new)>(ops: seq<Op<K>>, k: K, cap: nat) {
    exists t :: Stays(ops, k, t, cap)
  }

  lemma AheadGrows<K(!new)>(ops: seq<Op<K>>, t: nat)
    requires t < |ops| - 1
    ensures var before, last := Ahead(ops[..|ops| - 1], t), ops[|ops| - 1];
            match last
            case Touching(x) => Ahead(ops, t) == before + {x}
            case Keeping(keep) => Ahead(ops, t) == set x | x in before && keep(x)
  {
    var m := |ops| - 1;
    var older := ops[..m];
    forall x, i | t < i < m ensures Kept(ops, x, i) <==> Kept(older, x, i) && (ops[m].Keeping? ==> ops[m].keep(x)) {
      assert Kept(older, x, i) ==> forall j | i <= j < m :: ops[j] == older[j];
      assert Kept(ops, x, i) ==> forall j | i <= j < m :: ops[j] == older[j];
    }
    forall x | x in Ahead(older, t) && (ops[m].Keeping? ==> ops[m].keep(x)) ensures x in Ahead(ops, t) {
      var i :| t < i < m && older[i].Touching? && older[i].key == x && Kept(older, x, i);
      assert ops[i] == older[i];
    }
    forall x | x in Ahead(ops, t) && (ops[m].Touching? ==> x != ops[m].key) ensures x in Ahead(older, t) {
      var i :| t < i < |ops| && ops[i].Touching? && ops[i].key == x && Kept(ops, x, i);
      assert ops[i] == older[i];
    }
  }

  /** What is ahead of `k` after one more access, of another key. */
  lemma AheadAfterTouch<K(!new)>(before: seq<K>, x: K, k: K)
    requires k in before && x != k
    ensures var d := [x] + Without(before, x);
            k in d && Elements(d[..IndexOf(d, k)]) == Elements(before[..IndexOf(before, k)]) + {x}
  {
    var rest := Without(before, x);
    AheadWithout(before, x, k);
    AheadCons(x, rest, k);
    ElementsCons(x, rest[..IndexOf(rest, k)]);
  }

  /** `k` stays exactly when there is room behind those ahead. */
  lemma CutBehind<K(!new)>(d: seq<K>, k: K, cap: nat)
    requires NoDuplicates(d) && k in d
    ensures var ahead, r := Elements(d[..IndexOf(d, k)]), Take(cap, d);
            (k in r <==> |ahead| < cap) && (k in r ==> Elements(r[..IndexOf(r, k)]) == ahead)
  {
    var i := IndexOf(d, k);
    PrefixDistinct(d, i);
    DistinctCount(d[..i]);
    TakenIndex(d, k, cap);
  }

  /** `k` is listed, and `ahead` holds the keys before it. */
  ghost predicate Placed<K(!new)>(l: seq<K>, k: K, ahead: set<K>) {
    k in l && Elements(l[..IndexOf(l, k)]) == ahead
  }

  /** One more access, of another key: `k` stays exactly when there is room behind those ahead. */
  lemma PushedBack<K(!new)>(before: seq<K>, x: K, k: K, cap: nat, ahead: set<K>)
    requires NoDuplicates(before) && Placed(before, k, ahead) && x != k
    ensures var r := Take(cap, [x] + Without(before, x));
            if |ahead + {x}| < cap then Placed(r, k, ahead + {x}) else k !in r
  {
    AheadAfterTouch(before, x, k);
    WithoutDistinct(before, x);
    ConsDistinct(x, Without(before, x));
    CutBehind([x] + Without(before, x), k, cap);
  }

  /** What a cut leaves of a list with distinct keys. */
  lemma TakenIndex<K(!new)>(d: seq<K>, k: K, cap: nat)
    requires NoDuplicates(d) && k in d
    ensures var r, i := Take(cap, d), IndexOf(d, k);
            (k in r <==> i < cap) && (k in r ==> r[..IndexOf(r, k)] == d[..i])
  {
    var r, i := Take(cap, d), IndexOf(d, k);
    if i < cap {
      assert r[i] == k;
      assert IndexOf(r, k) == i;
    }
  }

  lemma SweptBack<K(!new)>(before: seq<K>, keep: K -> bool, k: K, ahead: set<K>)
    requires Placed(before, k, ahead)
    ensures var r, left := Filter(before, keep), set y | y in ahead && keep(y);
            |left| <= |ahead| && if keep(k) then Placed(r, k, left) else k !in r
  {
    var left := set y | y in ahead && keep(y);
    SubsetCount(left, ahead);
    if keep(k) { SweptAhead(before, keep, k); }
  }

  lemma {:induction false} SweptAhead<K(!new)>(before: seq<K>, keep: K -> bool, k: K)
    requires k in before && keep(k)
    ensures var r := Filter(before, keep);
            k in r && Elements(r[..IndexOf(r, k)]) == set y | y in Elements(before[..IndexOf(before, k)]) && keep(y)
  {
    if before[0] != k {
      var rest := Filter(before[1..], keep);
      SweptAhead(before[1..], keep, k);
      assert [before[0]] + before[1..] == before;
      AheadCons(before[0], before[1..], k);
      ElementsCons(before[0], before[1..][..IndexOf(before[1..], k)]);
      if keep(before[0]) {
        AheadCons(before[0], rest, k);
        ElementsCons(before[0], rest[..IndexOf(rest, k)]);
      }
    }
  }

  /** `Stays` one operation at a time. */
  lemma StaysStep<K(!new)>(ops: seq<Op<K>>, k: K, t: nat, cap: nat)
    requires LastTouch(ops, k, t) && t < |ops| - 1
    ensures var m := |ops| - 1;
            && LastTouch(ops[..m], k, t)
            && (Stays(ops, k, t, cap) <==>
                  Stays(ops[..m], k, t, cap) && (ops[m].Keeping? ==> ops[m].keep(k)) && |Ahead(ops, t)| < cap)
  {
    var m := |ops| - 1;
    var older := ops[..m];
    assert forall i | 0 <= i < m :: older[i] == ops[i];
    assert forall n | 0 <= n <= m :: older[..n] == ops[..n];
    assert ops[..|ops|] == ops;
  }

  lemma JustTouchedPlaced<K(!new)>(ops: seq<Op<K>>, k: K, t: nat, cap: nat)
    requires LastTouch(ops, k, t) && t == |ops| - 1
    ensures Ahead(ops, t) == {} && (Stays(ops, k, t, cap) <==> cap > 0)
    ensures var r := Recent([], ops, cap); if cap > 0 then Placed(r, k, {}) else k !in r
  {
    var r := Recent([], ops, cap);
    assert Ahead(ops, t) == {} && ops[..t + 1] == ops;
    if cap > 0 {
      assert r[0] == k && Elements(r[..0]) == {};
    }
  }

  /** Where a key is after its last access. */
  lemma {:induction false} StaysPlaced<K(!new)>(ops: seq<Op<K>>, k: K, t: nat, cap: nat)
    requires LastTouch(ops, k, t)
    ensures var r := Recent([], ops, cap); if Stays(ops, k, t, cap) then Placed(r, k, Ahead(ops, t)) else k !in r
  {
    var m := |ops| - 1;
    if t == m {
      JustTouchedPlaced(ops, k, t, cap);
    } else {
      var before, ahead := Recent([], ops[..m], cap), Ahead(ops[..m], t);
      StaysStep(ops, k, t, cap);
      AheadGrows(ops, t);
      StaysPlaced(ops[..m], k, t, cap);
      if Stays(ops[..m], k, t, cap) {
        StaysBounds(ops[..m], k, t, cap);
        match ops[m]
        case Touching(x) =>
          RecentNoDuplicates([], ops[..m], cap);
          PushedBack(before, x, k, cap, ahead);
        case Keeping(keep) =>
          SweptBack(before, keep, k, ahead);
      }
    }
  }

  lemma StaysBounds<K(!new)>(ops: seq<Op<K>>, k: K, t: nat, cap: nat)
    requires Stays(ops, k, t, cap)
    ensures |Ahead(ops, t)| < cap
  {
    assert ops[..|ops|] == ops;
  }

  lemma {:induction false} ListedWasTouched<K(!new)>(ops: seq<Op<K>>, k: K, cap: nat)
    requires k in Recent([], ops, cap)
    ensures exists t :: LastTouch(ops, k, t)
  {
    var m := |ops| - 1;
    if ops[m].Touching? && ops[m].key == k {
      assert LastTouch(ops, k, m);
    } else {
      ListedWasTouched(ops[..m], k, cap);
      var t :| LastTouch(ops[..m], k, t);
      assert forall i | 0 <= i < m :: ops[..m][i] == ops[i];
      assert LastTouch(ops, k, t);
    }
  }

  /** Over any accesses and sweeps, a key is listed exactly when it was accessed, no later sweep
      dropped it, and at no time since were there `cap` keys accessed later and not swept out. */
  lemma {:induction false} ListedWithSweepsIff<K(!new)>(ops: seq<Op<K>>, k: K, cap: nat)
    ensures k in Recent([], ops, cap) <==> Remains(ops, k, cap)
  {
    if k in Recent([], ops, cap) {
      ListedWasTouched(ops, k, cap);
      var t :| LastTouch(ops, k, t);
      StaysPlaced(ops, k, t, cap);
    }
    if t :| Stays(ops, k, t, cap) {
      StaysPlaced(ops, k, t, cap);
    }
  }
}
