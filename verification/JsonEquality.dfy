/** operator== on values: recursive, members matched by name through first-match FindMember;
    and the deep copy constructor it should agree with. */
module JsonEquality {
  import opened JsonValue
  import opened Sequences

  /** A double, as far as comparison sees it. */
  datatype Dbl = NaN | Finite(r: real) | Infinite(negative: bool)

  /** What a 64-bit pattern denotes, and the conversion of an integer, which may round. */
  datatype Floats = Floats(decode: nat -> Dbl, convert: int -> Dbl)

  predicate AtLeast(a: Dbl, b: Dbl) {
    match (a, b)
    case (NaN, _) => false
    case (_, NaN) => false
    case (Infinite(n), Infinite(m)) => m || !n
    case (Infinite(n), _) => !n
    case (_, Infinite(m)) => m
    case (Finite(r), Finite(s)) => r >= s
  }

  /** GetDouble: the first type the flags claim. */
  function GetDouble(fp: Floats, f: NumFlags, bits: nat): Dbl {
    if f.isDouble then fp.decode(bits)
    else if f.isInt then fp.convert(Signed32(bits % TWO32))
    else if f.isUint then fp.convert(bits % TWO32)
    else if f.isInt64 then fp.convert(Signed64(bits))
    else fp.convert(bits)
  }

  predicate NumberEqual(fp: Floats, f: NumFlags, a: nat, g: NumFlags, b: nat) {
    if f.isDouble || g.isDouble then
      var x, y := GetDouble(fp, f, a), GetDouble(fp, g, b);
      AtLeast(x, y) && AtLeast(y, x)
    else a == b
  }

  ghost predicate NamesOk(ms: seq<Member>) {
    forall i | 0 <= i < |ms| :: ms[i].name.Str?
  }

  /** FindMember: the first member of that name, or |ms|. */
  function Find(ms: seq<Member>, text: seq<char>): (j: nat)
    requires NamesOk(ms)
    ensures j <= |ms|
    ensures j < |ms| ==> ms[j].name.text == text
    ensures forall i | 0 <= i < j :: ms[i].name.text != text
  {
    if ms == [] then 0 else if ms[0].name.text == text then 0 else 1 + Find(ms[1..], text)
  }

  predicate Equal(fp: Floats, a: Value, b: Value)
    requires NamesAreStrings(a) && NamesAreStrings(b)
    decreases a
  {
    match a
    case Null => b.Null?
    case Bool(x) => b == Bool(x)
    case Number(f, bits) => b.Number? && NumberEqual(fp, f, bits, b.flags, b.bits)
    case Str(_, text) => b.Str? && text == b.text
    case Array(elems) =>
      && b.Array? && |elems| == |b.elems|
      && forall i | 0 <= i < |elems| :: Equal(fp, elems[i], b.elems[i])
    case Object(members) =>
      && b.Object? && |members| == |b.members|
      && forall i | 0 <= i < |members| ::
           var j := Find(b.members, members[i].name.text);
           j < |b.members| && Equal(fp, members[i].value, b.members[j].value)
  }

  // ----------------------------------------------------------- without duplicates

  ghost predicate UniqueNames(ms: seq<Member>) {
    NamesOk(ms) && forall i, j | 0 <= i < j < |ms| :: ms[i].name.text != ms[j].name.text
  }

  /** No object, at any depth, names a member twice. */
  ghost predicate Unique(v: Value)
    requires NamesAreStrings(v)
    decreases v
  {
    match v
    case Array(elems) => forall i | 0 <= i < |elems| :: Unique(elems[i])
    case Object(members) =>
      UniqueNames(members) && forall i | 0 <= i < |members| :: Unique(members[i].value)
    case _ => true
  }

  lemma FindUnique(ms: seq<Member>, i: nat)
    requires UniqueNames(ms) && i < |ms|
    ensures Find(ms, ms[i].name.text) == i
  {
  }

  /** Which member of `b` each member of `a` is compared with. */
  ghost function Matches(a: seq<Member>, b: seq<Member>): (fs: seq<nat>)
    requires NamesOk(a) && NamesOk(b)
    ensures |fs| == |a| && forall i | 0 <= i < |a| :: fs[i] == Find(b, a[i].name.text)
  {
    seq(|a|, i requires 0 <= i < |a| => Find(b, a[i].name.text))
  }

  /** The members found for members of different names are different, so they are all of them. */
  lemma MatchesCover(a: seq<Member>, b: seq<Member>, j: nat) returns (i: nat)
    requires UniqueNames(a) && NamesOk(b) && |a| == |b| && j < |b|
    requires forall i | 0 <= i < |a| :: Find(b, a[i].name.text) < |b|
    ensures i < |a| && Find(b, a[i].name.text) == j && Find(a, b[j].name.text) == i
  {
    var fs := Matches(a, b);
    forall i, k | 0 <= i < k < |fs| ensures Differ(fs, i, k) {
      assert b[fs[i]].name.text == a[i].name.text;
      assert b[fs[k]].name.text == a[k].name.text;
    }
    Pigeonhole(fs, j);
    i :| 0 <= i < |fs| && fs[i] == j;
    FindUnique(a, i);
  }

  /** Equality is symmetric if the left side has no duplicate names: the members found one way
      are all the members, so each is found the other way too. */
  lemma {:induction false} EqualSymmetric(fp: Floats, a: Value, b: Value)
    requires NamesAreStrings(a) && NamesAreStrings(b) && Unique(a)
    requires Equal(fp, a, b)
    ensures Equal(fp, b, a)
    decreases a
  {
    match a
    case Array(elems) =>
      forall i | 0 <= i < |elems| ensures Equal(fp, b.elems[i], elems[i]) {
        EqualSymmetric(fp, elems[i], b.elems[i]);
      }
    case Object(members) =>
      forall j | 0 <= j < |b.members|
        ensures var i := Find(members, b.members[j].name.text);
                i < |members| && Equal(fp, b.members[j].value, members[i].value)
      {
        var i := MatchesCover(members, b.members, j);
        EqualSymmetric(fp, members[i].value, b.members[j].value);
      }
    case _ =>
  }

  lemma EqualCommutes(fp: Floats, a: Value, b: Value)
    requires NamesAreStrings(a) && NamesAreStrings(b) && Unique(a) && Unique(b)
    ensures Equal(fp, a, b) <==> Equal(fp, b, a)
  {
    if Equal(fp, a, b) { EqualSymmetric(fp, a, b); }
    if Equal(fp, b, a) { EqualSymmetric(fp, b, a); }
  }

  /** `p` renumbers the positions of a list of that length. */
  ghost predicate Permutes(p: seq<nat>, n: nat) {
    |p| == n && NoDuplicates(p) && forall i | 0 <= i < n :: p[i] < n
  }

  /** The same value up to the order of members, in every object at every depth; strings are
      compared by their text. */
  ghost predicate SameUpToOrder(a: Value, b: Value)
    requires NamesAreStrings(a) && NamesAreStrings(b)
    decreases a
  {
    match a
    case Object(members) =>
      && b.Object? && |members| == |b.members|
      && exists p | Permutes(p, |members|) :: forall i | 0 <= i < |members| ::
           && members[i].name.text == b.members[p[i]].name.text
           && SameUpToOrder(members[i].value, b.members[p[i]].value)
    case Array(elems) =>
      && b.Array? && |elems| == |b.elems|
      && forall i | 0 <= i < |elems| :: SameUpToOrder(elems[i], b.elems[i])
    case Str(_, text) => b.Str? && text == b.text
    case _ => a == b
  }

  /** Where each member of `a` is in `b`. */
  ghost function Places(a: Value, b: Value): (p: seq<nat>)
    requires NamesAreStrings(a) && NamesAreStrings(b) && a.Object? && SameUpToOrder(a, b)
    ensures Permutes(p, |a.members|) && forall i | 0 <= i < |a.members| ::
              && a.members[i].name.text == b.members[p[i]].name.text
              && SameUpToOrder(a.members[i].value, b.members[p[i]].value)
  {
    var p :| Permutes(p, |a.members|) && forall i | 0 <= i < |a.members| ::
      && a.members[i].name.text == b.members[p[i]].name.text
      && SameUpToOrder(a.members[i].value, b.members[p[i]].value);
    p
  }

  lemma Inverse(p: seq<nat>, n: nat) returns (q: seq<nat>)
    requires Permutes(p, n)
    ensures Permutes(q, n) && forall j | 0 <= j < n :: p[q[j]] == j
  {
    forall j | 0 <= j < n ensures j in p { Pigeonhole(p, j); }
    q := seq(n, j requires 0 <= j < n => IndexOf(p, j));
    forall i, j | 0 <= i < j < n ensures Differ(q, i, j) {
      assert p[q[i]] == i && p[q[j]] == j;
    }
  }

  lemma {:induction false} SameCommutes(a: Value, b: Value)
    requires NamesAreStrings(a) && NamesAreStrings(b) && SameUpToOrder(a, b)
    ensures SameUpToOrder(b, a)
    decreases a
  {
    match a
    case Object(members) =>
      var p := Places(a, b);
      var q := Inverse(p, |members|);
      forall j | 0 <= j < |members|
        ensures b.members[j].name.text == members[q[j]].name.text
        ensures SameUpToOrder(b.members[j].value, members[q[j]].value)
      {
        assert p[q[j]] == j;
        SameCommutes(members[q[j]].value, b.members[j].value);
      }
    case Array(elems) =>
      forall i | 0 <= i < |elems| ensures SameUpToOrder(b.elems[i], elems[i]) {
        SameCommutes(elems[i], b.elems[i]);
      }
    case _ =>
  }

  lemma {:induction false} OrderLeft(fp: Floats, a: Value, a': Value, b: Value)
    requires NamesAreStrings(a) && NamesAreStrings(a') && NamesAreStrings(b)
    requires SameUpToOrder(a, a') && Equal(fp, a', b)
    ensures Equal(fp, a, b)
    decreases a
  {
    match a
    case Object(members) =>
      var p := Places(a, a');
      forall i | 0 <= i < |members|
        ensures var j := Find(b.members, members[i].name.text);
                j < |b.members| && Equal(fp, members[i].value, b.members[j].value)
      {
        var k := p[i];
        var j := Find(b.members, a'.members[k].name.text);
        OrderLeft(fp, members[i].value, a'.members[k].value, b.members[j].value);
      }
    case Array(elems) =>
      forall i | 0 <= i < |elems| ensures Equal(fp, elems[i], b.elems[i]) {
        OrderLeft(fp, elems[i], a'.elems[i], b.elems[i]);
      }
    case _ =>
  }

  lemma {:induction false} OrderRight(fp: Floats, b: Value, a: Value, a': Value)
    requires NamesAreStrings(a) && NamesAreStrings(a') && NamesAreStrings(b) && Unique(a')
    requires SameUpToOrder(a, a') && Equal(fp, b, a)
    ensures Equal(fp, b, a')
    decreases a
  {
    match a
    case Object(members) =>
      var p := Places(a, a');
      forall i | 0 <= i < |b.members|
        ensures var j := Find(a'.members, b.members[i].name.text);
                j < |a'.members| && Equal(fp, b.members[i].value, a'.members[j].value)
      {
        var k := Find(members, b.members[i].name.text);
        var j := p[k];
        FindUnique(a'.members, j);
        OrderRight(fp, b.members[i].value, members[k].value, a'.members[j].value);
      }
    case Array(elems) =>
      forall i | 0 <= i < |elems| ensures Equal(fp, b.elems[i], a'.elems[i]) {
        OrderRight(fp, b.elems[i], elems[i], a'.elems[i]);
      }
    case _ =>
  }

  /** Without duplicate names, equality with any value cannot tell members in another order, at
      any depth, through arrays too; nor on the other side. */
  lemma EqualIgnoresOrder(fp: Floats, a: Value, a': Value, b: Value)
    requires NamesAreStrings(a) && NamesAreStrings(a') && NamesAreStrings(b)
    requires Unique(a) && Unique(a') && SameUpToOrder(a, a')
    ensures Equal(fp, a, b) <==> Equal(fp, a', b)
    ensures Equal(fp, b, a) <==> Equal(fp, b, a')
  {
    SameCommutes(a, a');
    if Equal(fp, a', b) { OrderLeft(fp, a, a', b); }
    if Equal(fp, a, b) { OrderLeft(fp, a', a, b); }
    if Equal(fp, b, a) { OrderRight(fp, b, a, a'); }
    if Equal(fp, b, a') { OrderRight(fp, b, a', a); }
  }

  // ----------------------------------------------------------------- what equal values share

  /** The same shape up to the order of members, and the same at the leaves: text, truth, null, and
      numbers that are the same pattern when both are integers, and otherwise the same double, no NaN. */
  ghost predicate Alike(fp: Floats, a: Value, b: Value)
    requires NamesAreStrings(a) && NamesAreStrings(b)
    decreases a
  {
    match (a, b)
    case (Null, Null) => true
    case (Bool(x), Bool(y)) => x == y
    case (Str(_, s), Str(_, t)) => s == t
    case (Number(f, m), Number(g, n)) => if f.isDouble || g.isDouble then SameReading(fp, f, m, g, n) else m == n
    case (Array(es), Array(ds)) => |es| == |ds| && forall i | 0 <= i < |es| :: Alike(fp, es[i], ds[i])
    case (Object(ms), Object(ns)) =>
      |ms| == |ns| && exists p | Permutes(p, |ms|) :: forall i | 0 <= i < |ms| ::
        ms[i].name.text == ns[p[i]].name.text && Alike(fp, ms[i].value, ns[p[i]].value)
    case _ => false
  }

  predicate SameReading(fp: Floats, f: NumFlags, m: nat, g: NumFlags, n: nat) {
    GetDouble(fp, f, m) == GetDouble(fp, g, n) != NaN
  }

  /** The members found for those of the left side are a renumbering of the right side's. */
  lemma MatchesPermute(ms: seq<Member>, ns: seq<Member>)
    requires UniqueNames(ms) && NamesOk(ns) && |ms| == |ns|
    requires forall i | 0 <= i < |ms| :: Find(ns, ms[i].name.text) < |ns|
    ensures Permutes(Matches(ms, ns), |ms|)
  {
    var fs := Matches(ms, ns);
    forall i, k | 0 <= i < k < |fs| ensures Differ(fs, i, k) {
      assert ns[fs[i]].name.text == ms[i].name.text && ns[fs[k]].name.text == ms[k].name.text;
    }
  }

  lemma {:induction false} EqualAlike(fp: Floats, a: Value, b: Value)
    requires NamesAreStrings(a) && NamesAreStrings(b) && Unique(a) && Equal(fp, a, b)
    ensures Alike(fp, a, b)
    decreases a
  {
    match a
    case Object(ms) =>
      MatchesPermute(ms, b.members);
      var p := Matches(ms, b.members);
      forall i | 0 <= i < |ms|
        ensures ms[i].name.text == b.members[p[i]].name.text && Alike(fp, ms[i].value, b.members[p[i]].value)
      {
        EqualAlike(fp, ms[i].value, b.members[p[i]].value);
      }
    case Array(es) =>
      forall i | 0 <= i < |es| ensures Alike(fp, es[i], b.elems[i]) { EqualAlike(fp, es[i], b.elems[i]); }
    case _ =>
  }

  /** Where `p` puts each member. */
  ghost predicate Pairing(fp: Floats, ms: seq<Member>, ns: seq<Member>, p: seq<nat>)
    requires NamesAreStrings(Object(ms)) && NamesAreStrings(Object(ns)) && |ms| == |ns|
  {
    Permutes(p, |ms|) && forall i | 0 <= i < |ms| ::
      ms[i].name.text == ns[p[i]].name.text && Alike(fp, ms[i].value, ns[p[i]].value)
  }

  lemma PairingOf(fp: Floats, a: Value, b: Value) returns (p: seq<nat>)
    requires NamesAreStrings(a) && NamesAreStrings(b) && a.Object? && Alike(fp, a, b)
    ensures b.Object? && |a.members| == |b.members| && Pairing(fp, a.members, b.members, p)
  {
    p :| Permutes(p, |a.members|) && forall i | 0 <= i < |a.members| ::
      a.members[i].name.text == b.members[p[i]].name.text && Alike(fp, a.members[i].value, b.members[p[i]].value);
  }

  lemma {:induction false} AlikeEqual(fp: Floats, a: Value, b: Value)
    requires NamesAreStrings(a) && NamesAreStrings(b) && Unique(b) && Alike(fp, a, b)
    ensures Equal(fp, a, b)
    decreases a
  {
    match a
    case Object(ms) =>
      var p := PairingOf(fp, a, b);
      forall i | 0 <= i < |ms|
        ensures var j := Find(b.members, ms[i].name.text);
                j < |b.members| && Equal(fp, ms[i].value, b.members[j].value)
      {
        FindUnique(b.members, p[i]);
        AlikeEqual(fp, ms[i].value, b.members[p[i]].value);
      }
    case Array(es) =>
      forall i | 0 <= i < |es| ensures Equal(fp, es[i], b.elems[i]) { AlikeEqual(fp, es[i], b.elems[i]); }
    case _ =>
  }

  /** Without duplicate names two values compare equal exactly when they are alike. */
  lemma EqualIffAlike(fp: Floats, a: Value, b: Value)
    requires NamesAreStrings(a) && NamesAreStrings(b) && Unique(a) && Unique(b)
    ensures Equal(fp, a, b) <==> Alike(fp, a, b)
  {
    if Equal(fp, a, b) { EqualAlike(fp, a, b); }
    if Alike(fp, a, b) { AlikeEqual(fp, a, b); }
  }

  // ----------------------------------------------------------------- deep copies

  /** The copy constructor with an allocator. */
  function DeepCopy(v: Value, copyConstStrings: bool): (r: Value)
    ensures v.Array? ==> r.Array? && |r.elems| == |v.elems|
    ensures v.Object? ==> r.Object? && |r.members| == |v.members|
    decreases v
  {
    match v
    case Object(members) =>
      Object(seq(|members|, i requires 0 <= i < |members| =>
        Member(DeepCopy(members[i].name, copyConstStrings), DeepCopy(members[i].value, copyConstStrings))))
    case Array(elems) => Array(seq(|elems|, i requires 0 <= i < |elems| => DeepCopy(elems[i], copyConstStrings)))
    case Str(kind, text) => if kind == ConstStr && !copyConstStrings then v else FromCopiedString(text)
    case _ => v
  }

  lemma {:induction false} DeepCopyNames(v: Value, c: bool)
    requires NamesAreStrings(v)
    ensures NamesAreStrings(DeepCopy(v, c))
    decreases v
  {
    match v
    case Object(members) =>
      forall i | 0 <= i < |members| ensures NamesAreStrings(DeepCopy(members[i].value, c)) {
        DeepCopyNames(members[i].value, c);
      }
    case Array(elems) =>
      forall i | 0 <= i < |elems| ensures NamesAreStrings(DeepCopy(elems[i], c)) {
        DeepCopyNames(elems[i], c);
      }
    case _ =>
  }

  /** No double inside denotes a NaN. */
  predicate NoNaN(fp: Floats, v: Value)
    decreases v
  {
    match v
    case Number(f, bits) => f.isDouble ==> fp.decode(bits) != NaN
    case Array(elems) => forall i | 0 <= i < |elems| :: NoNaN(fp, elems[i])
    case Object(members) => forall i | 0 <= i < |members| :: NoNaN(fp, members[i].value)
    case _ => true
  }

  /** A deep copy equals its source exactly when there is no NaN inside. */
  lemma {:induction false} DeepCopyEqualIff(fp: Floats, v: Value, c: bool)
    requires NamesAreStrings(v) && Unique(v)
    ensures NamesAreStrings(DeepCopy(v, c))
    ensures Equal(fp, DeepCopy(v, c), v) <==> NoNaN(fp, v)
    decreases v
  {
    DeepCopyNames(v, c);
    match v
    case Object(members) =>
      var copy := DeepCopy(v, c).members;
      forall i | 0 <= i < |members|
        ensures Find(members, copy[i].name.text) == i
        ensures Equal(fp, copy[i].value, members[i].value) <==> NoNaN(fp, members[i].value)
      {
        FindUnique(members, i);
        DeepCopyEqualIff(fp, members[i].value, c);
      }
    case Array(elems) =>
      var copy := DeepCopy(v, c).elems;
      forall i | 0 <= i < |elems| ensures Equal(fp, copy[i], elems[i]) <==> NoNaN(fp, elems[i]) {
        DeepCopyEqualIff(fp, elems[i], c);
      }
    case _ =>
  }

  // ------------------------------------------------------------- duplicate names

  /** The header notes that comparing an object with duplicate names is always false. It is not. */
  lemma {:induction false} DuplicateNamesCompare(fp: Floats)
    ensures var x, y := Str(ConstStr, "x"), Str(ConstStr, "y");
            var twice := Object([Member(x, Null), Member(x, Null)]);
            var once := Object([Member(x, Null), Member(y, Null)]);
            Equal(fp, twice, twice) && Equal(fp, twice, once) && !Equal(fp, once, twice)
  {
    var x, y := Str(ConstStr, "x"), Str(ConstStr, "y");
    var twice := [Member(x, Null), Member(x, Null)];
    var once := [Member(x, Null), Member(y, Null)];
    assert Find(twice, "x") == 0 && Find(once, "x") == 0;
    assert twice[1..] == [Member(x, Null)];
    assert Find(twice, "y") == 2;
    assert once[1].name.text == "y";
  }

  /** Every member of that name has a value equal to `w`. */
  ghost predicate AllEqualTo(fp: Floats, ms: seq<Member>, text: seq<char>, w: Value)
    requires NamesAreStrings(Object(ms)) && NamesAreStrings(w)
  {
    forall i | 0 <= i < |ms| :: ms[i].name.text == text ==> Equal(fp, ms[i].value, w)
  }

  /** Some value equals every value listed under that name. */
  ghost predicate Agree(fp: Floats, ms: seq<Member>, text: seq<char>)
    requires NamesAreStrings(Object(ms))
  {
    exists w | NamesAreStrings(w) :: AllEqualTo(fp, ms, text, w)
  }

  ghost function Agreed(fp: Floats, ms: seq<Member>, text: seq<char>): (w: Value)
    requires NamesAreStrings(Object(ms)) && Agree(fp, ms, text)
    ensures NamesAreStrings(w) && AllEqualTo(fp, ms, text, w)
  {
    var w :| NamesAreStrings(w) && AllEqualTo(fp, ms, text, w); w
  }

  lemma AgreedEqual(fp: Floats, ms: seq<Member>) returns (b: Value)
    requires NamesAreStrings(Object(ms)) && forall i | 0 <= i < |ms| :: Agree(fp, ms, ms[i].name.text)
    ensures b.Object? && NamesAreStrings(b) && Equal(fp, Object(ms), b)
  {
    var ns := seq(|ms|, i requires 0 <= i < |ms| => Member(ms[i].name, Agreed(fp, ms, ms[i].name.text)));
    b := Object(ns);
    forall i | 0 <= i < |ms|
      ensures var j := Find(ns, ms[i].name.text); j < |ns| && Equal(fp, ms[i].value, ns[j].value)
    {
      assert ns[i].name.text == ms[i].name.text;
    }
  }

  lemma EqualAgree(fp: Floats, ms: seq<Member>, b: Value, i: nat)
    requires NamesAreStrings(Object(ms)) && NamesAreStrings(b) && Equal(fp, Object(ms), b) && i < |ms|
    ensures Agree(fp, ms, ms[i].name.text)
  {
    var j := Find(b.members, ms[i].name.text);
    assert AllEqualTo(fp, ms, ms[i].name.text, b.members[j].value);
  }

  /** The note holds of an object on the left, for every object it may be compared with, exactly
      when the values listed under one of its names have no value they all equal. */
  lemma {:induction false} LeftNeverEqualIff(fp: Floats, ms: seq<Member>)
    requires NamesAreStrings(Object(ms))
    ensures (forall b: Value | b.Object? && NamesAreStrings(b) :: !Equal(fp, Object(ms), b))
       <==> exists i | 0 <= i < |ms| :: !Agree(fp, ms, ms[i].name.text)
  {
    if forall i | 0 <= i < |ms| :: Agree(fp, ms, ms[i].name.text) {
      var b := AgreedEqual(fp, ms);
    } else {
      var i :| 0 <= i < |ms| && !Agree(fp, ms, ms[i].name.text);
      forall b: Value | b.Object? && NamesAreStrings(b) ensures !Equal(fp, Object(ms), b) {
        if Equal(fp, Object(ms), b) { EqualAgree(fp, ms, b, i); }
      }
    }
  }

  /** Some value equals `v` with `v` on the right: there is no NaN among its numbers and array
      elements, and an object with members has one such among those found by name. */
  predicate Equallable(fp: Floats, v: Value)
    requires NamesAreStrings(v)
    decreases v
  {
    match v
    case Number(f, bits) => f.isDouble ==> fp.decode(bits) != NaN
    case Array(elems) => forall i | 0 <= i < |elems| :: Equallable(fp, elems[i])
    case Object(members) =>
      members == [] || exists i | 0 <= i < |members| ::
        Find(members, members[i].name.text) == i && Equallable(fp, members[i].value)
    case _ => true
  }

  /** Such a value: for an object, copies of one member. */
  ghost function Equalling(fp: Floats, v: Value): (w: Value)
    requires NamesAreStrings(v) && Equallable(fp, v)
    ensures NamesAreStrings(w) && Equal(fp, w, v)
    decreases v
  {
    match v
    case Array(elems) => Array(seq(|elems|, i requires 0 <= i < |elems| => Equalling(fp, elems[i])))
    case Object(members) =>
      if members == [] then v
      else
        var i :| 0 <= i < |members| && Find(members, members[i].name.text) == i && Equallable(fp, members[i].value);
        Object(seq(|members|, _ => Member(members[i].name, Equalling(fp, members[i].value))))
    case _ => v
  }

  lemma {:induction false} FoundFirst(ms: seq<Member>, text: seq<char>)
    requires NamesOk(ms) && Find(ms, text) < |ms|
    ensures Find(ms, ms[Find(ms, text)].name.text) == Find(ms, text)
  {
  }

  lemma {:induction false} EqualledEquallable(fp: Floats, w: Value, v: Value)
    requires NamesAreStrings(v) && NamesAreStrings(w) && Equal(fp, w, v)
    ensures Equallable(fp, v)
    decreases v
  {
    match v
    case Array(elems) =>
      forall i | 0 <= i < |elems| ensures Equallable(fp, elems[i]) {
        EqualledEquallable(fp, w.elems[i], elems[i]);
      }
    case Object(members) =>
      if members != [] {
        var j := Find(members, w.members[0].name.text);
        FoundFirst(members, w.members[0].name.text);
        EqualledEquallable(fp, w.members[0].value, members[j].value);
      }
    case _ =>
  }

  /** On the right the note holds exactly when NaNs are in the way: duplicate names are none. */
  lemma {:induction false} RightNeverEqualIff(fp: Floats, ms: seq<Member>)
    requires NamesAreStrings(Object(ms))
    ensures (forall b: Value | b.Object? && NamesAreStrings(b) :: !Equal(fp, b, Object(ms)))
       <==> !Equallable(fp, Object(ms))
  {
    if Equallable(fp, Object(ms)) {
      var b := Equalling(fp, Object(ms));
      assert b.Object? && Equal(fp, b, Object(ms));
    } else {
      forall b: Value | b.Object? && NamesAreStrings(b) ensures !Equal(fp, b, Object(ms)) {
        if Equal(fp, b, Object(ms)) { EqualledEquallable(fp, b, Object(ms)); }
      }
    }
  }

  /** All numbers inside are doubles, or none is: conversions play no part in a comparison. */
  predicate OneKind(v: Value, double: bool)
    decreases v
  {
    match v
    case Number(f, _) => f.isDouble == double
    case Array(elems) => forall i | 0 <= i < |elems| :: OneKind(elems[i], double)
    case Object(members) => forall i | 0 <= i < |members| :: OneKind(members[i].value, double)
    case _ => true
  }

  /** Equality is transitive among values of one kind. */
  lemma {:induction false} EqualTransitive(fp: Floats, a: Value, b: Value, c: Value, double: bool)
    requires NamesAreStrings(a) && NamesAreStrings(b) && NamesAreStrings(c)
    requires OneKind(a, double) && OneKind(b, double) && OneKind(c, double)
    requires Equal(fp, a, b) && Equal(fp, b, c)
    ensures Equal(fp, a, c)
    decreases a
  {
    match a
    case Object(members) =>
      forall i | 0 <= i < |members|
        ensures var k := Find(c.members, members[i].name.text);
                k < |c.members| && Equal(fp, members[i].value, c.members[k].value)
      {
        var j := Find(b.members, members[i].name.text);
        var k := Find(c.members, b.members[j].name.text);
        EqualTransitive(fp, members[i].value, b.members[j].value, c.members[k].value, double);
      }
    case Array(elems) =>
      forall i | 0 <= i < |elems| ensures Equal(fp, elems[i], c.elems[i]) {
        EqualTransitive(fp, elems[i], b.elems[i], c.elems[i], double);
      }
    case _ =>
  }

  /** Single names below the top, and numbers of one kind. */
  ghost predicate Plain(ms: seq<Member>, double: bool) {
    && NamesAreStrings(Object(ms)) && OneKind(Object(ms), double)
    && forall i | 0 <= i < |ms| :: Unique(ms[i].value)
  }

  /** Two members of one name with different values. */
  ghost predicate Clash(fp: Floats, ms: seq<Member>)
    requires NamesAreStrings(Object(ms))
  {
    exists i, j | 0 <= i < j < |ms| :: ms[i].name.text == ms[j].name.text && !Equal(fp, ms[i].value, ms[j].value)
  }

  /** Two values equal to a third are equal to each other. */
  lemma EqualToOne(fp: Floats, a: Value, b: Value, c: Value, double: bool)
    requires NamesAreStrings(a) && NamesAreStrings(b) && NamesAreStrings(c)
    requires OneKind(a, double) && OneKind(b, double) && OneKind(c, double)
    requires Unique(b) && Equal(fp, a, c) && Equal(fp, b, c)
    ensures Equal(fp, a, b)
  {
    EqualSymmetric(fp, b, c);
    EqualTransitive(fp, a, c, b, double);
  }

  /** A value without duplicate names equals itself exactly when there is no NaN inside. */
  lemma {:induction false} EqualSelfIff(fp: Floats, v: Value)
    requires NamesAreStrings(v) && Unique(v)
    ensures Equal(fp, v, v) <==> NoNaN(fp, v)
    decreases v
  {
    match v
    case Object(members) =>
      forall i | 0 <= i < |members|
        ensures Find(members, members[i].name.text) == i
        ensures Equal(fp, members[i].value, members[i].value) <==> NoNaN(fp, members[i].value)
      {
        FindUnique(members, i);
        EqualSelfIff(fp, members[i].value);
      }
    case Array(elems) =>
      forall i | 0 <= i < |elems| ensures Equal(fp, elems[i], elems[i]) <==> NoNaN(fp, elems[i]) {
        EqualSelfIff(fp, elems[i]);
      }
    case _ =>
  }

  lemma WithoutClash(fp: Floats, ms: seq<Member>, i: nat, k: nat)
    requires NamesAreStrings(Object(ms)) && !Clash(fp, ms)
    requires i < k < |ms| && ms[i].name.text == ms[k].name.text
    ensures Equal(fp, ms[i].value, ms[k].value)
  {
  }

  /** A member's value equals the one found under its name. */
  lemma EqualsFound(fp: Floats, ms: seq<Member>, i: nat)
    requires NamesAreStrings(Object(ms)) && !Clash(fp, ms) && i < |ms|
    requires Unique(ms[i].value) && NoNaN(fp, ms[i].value)
    requires Find(ms, ms[i].name.text) < |ms| ==> Unique(ms[Find(ms, ms[i].name.text)].value)
    ensures var j := Find(ms, ms[i].name.text); j < |ms| && Equal(fp, ms[i].value, ms[j].value)
  {
    EqualSelfIff(fp, ms[i].value);
    var j := Find(ms, ms[i].name.text);
    if j < i {
      WithoutClash(fp, ms, j, i);
      EqualSymmetric(fp, ms[j].value, ms[i].value);
    }
  }

  lemma EqualNoClash(fp: Floats, ms: seq<Member>, b: Value, double: bool, i: nat, k: nat)
    requires Plain(ms, double) && NamesAreStrings(b) && OneKind(b, double) && Equal(fp, Object(ms), b)
    requires i < k < |ms| && ms[i].name.text == ms[k].name.text
    ensures Equal(fp, ms[i].value, ms[k].value)
  {
    var j := Find(b.members, ms[i].name.text);
    EqualToOne(fp, ms[i].value, ms[k].value, b.members[j].value, double);
  }

  /** Among objects of one kind, without NaN and with single names below the top, the note holds
      of an object on the left exactly when it lists different values under one name. */
  lemma {:induction false} NeverEqualIffClash(fp: Floats, ms: seq<Member>, double: bool)
    requires Plain(ms, double) && NoNaN(fp, Object(ms))
    ensures (forall b: Value | b.Object? && NamesAreStrings(b) && OneKind(b, double) :: !Equal(fp, Object(ms), b))
       <==> Clash(fp, ms)
  {
    if Clash(fp, ms) {
      var i, k :| 0 <= i < k < |ms| && ms[i].name.text == ms[k].name.text && !Equal(fp, ms[i].value, ms[k].value);
      forall b: Value | b.Object? && NamesAreStrings(b) && OneKind(b, double) ensures !Equal(fp, Object(ms), b) {
        if Equal(fp, Object(ms), b) { EqualNoClash(fp, ms, b, double, i, k); }
      }
    } else {
      forall i | 0 <= i < |ms|
        ensures var j := Find(ms, ms[i].name.text); j < |ms| && Equal(fp, ms[i].value, ms[j].value)
      {
        EqualsFound(fp, ms, i);
      }
      assert Equal(fp, Object(ms), Object(ms));
    }
  }

  /** The sides of a successful comparison cannot be exchanged exactly when the right one lists
      different values under one name, or has a name the left one has not. */
  lemma {:induction false} SidesDifferIff(fp: Floats, ms: seq<Member>, ns: seq<Member>, double: bool)
    requires Plain(ms, double) && Plain(ns, double) && Equal(fp, Object(ms), Object(ns))
    ensures !Equal(fp, Object(ns), Object(ms))
       <==> Clash(fp, ns) || exists k | 0 <= k < |ns| :: Find(ms, ns[k].name.text) == |ms|
  {
    if Equal(fp, Object(ns), Object(ms)) {
      forall i, k | 0 <= i < k < |ns| && ns[i].name.text == ns[k].name.text
        ensures Equal(fp, ns[i].value, ns[k].value) {
        var f := Find(ms, ns[i].name.text);
        EqualToOne(fp, ns[i].value, ns[k].value, ms[f].value, double);
      }
    } else if !Clash(fp, ns) {
      var k :| 0 <= k < |ns| && var f := Find(ms, ns[k].name.text);
                                f == |ms| || !Equal(fp, ns[k].value, ms[f].value);
      var f := Find(ms, ns[k].name.text);
      if f < |ms| {
        var g := Find(ns, ms[f].name.text);
        FoundEqual(fp, ms, ns, f);
        if g < k { WithoutClash(fp, ns, g, k); }
        FoundBothWays(fp, ms, ns, f, g, k, double);
      }
    }
  }

  /** A left member and the right one found for it. */
  lemma FoundEqual(fp: Floats, ms: seq<Member>, ns: seq<Member>, f: nat)
    requires NamesAreStrings(Object(ms)) && NamesAreStrings(Object(ns)) && Equal(fp, Object(ms), Object(ns)) && f < |ms|
    ensures var g := Find(ns, ms[f].name.text); g < |ns| && Equal(fp, ms[f].value, ns[g].value)
  {
  }

  /** Equal values of one name are all found equal. */
  lemma FoundBothWays(fp: Floats, ms: seq<Member>, ns: seq<Member>, f: nat, g: nat, k: nat, double: bool)
    requires Plain(ms, double) && Plain(ns, double) && f < |ms| && g <= k < |ns|
    requires Equal(fp, ms[f].value, ns[g].value) && (g < k ==> Equal(fp, ns[g].value, ns[k].value))
    ensures Equal(fp, ns[k].value, ms[f].value)
  {
    if g < k {
      EqualThrough(fp, ms[f].value, ns[g].value, ns[k].value, double);
    } else {
      EqualSymmetric(fp, ms[f].value, ns[k].value);
    }
  }

  lemma EqualThrough(fp: Floats, a: Value, b: Value, c: Value, double: bool)
    requires NamesAreStrings(a) && NamesAreStrings(b) && NamesAreStrings(c)
    requires OneKind(a, double) && OneKind(b, double) && OneKind(c, double)
    requires Unique(a) && Unique(b) && Equal(fp, a, b) && Equal(fp, b, c)
    ensures Equal(fp, c, a)
  {
    EqualSymmetric(fp, a, b);
    EqualSymmetric(fp, b, c);
    EqualTransitive(fp, c, b, a, double);
  }

  // ------------------------------------------------------------------------ integers

  /** Integers are compared by pattern: equal exactly when they are the same number or 2^64
      apart, as -1 and 2^64 - 1 are. */
  lemma {:induction false} IntegerEqualIff(fp: Floats, n: int, m: int)
    requires -TWO63 <= n < TWO64 && -TWO63 <= m < TWO64
    ensures Equal(fp, IntegerValue(n), IntegerValue(m)) <==> n == m || n - m == TWO64 || m - n == TWO64
  {
    assert Pattern(n) == if n >= 0 then n else n + TWO64;
    assert Pattern(m) == if m >= 0 then m else m + TWO64;
  }

  // -------------------------------------------------------------------- the program

  /** FindMember. */
  method FindMember(ms: seq<Member>, text: seq<char>) returns (member: nat)
    requires NamesOk(ms)
    ensures member == Find(ms, text)
  {
    member := 0;
    while member < |ms|
      invariant member <= |ms|
      invariant forall i | 0 <= i < member :: ms[i].name.text != text
    {
      if ms[member].name.text == text { return; }
      member := member + 1;
    }
  }

  /** operator==. */
  method EqualTo(fp: Floats, a: Value, b: Value) returns (same: bool)
    requires NamesAreStrings(a) && NamesAreStrings(b)
    ensures same == Equal(fp, a, b)
    ensures Unique(a) && Unique(b) ==> same == Alike(fp, a, b)
    decreases a, 1
  {
    same := EqualByType(fp, a, b);
    if Unique(a) && Unique(b) { EqualIffAlike(fp, a, b); }
  }

  /** Its switch. */
  method EqualByType(fp: Floats, a: Value, b: Value) returns (same: bool)
    requires NamesAreStrings(a) && NamesAreStrings(b)
    ensures same == Equal(fp, a, b)
    decreases a, 0
  {
    match a
    case Object(members) =>
      if !b.Object? || |members| != |b.members| { return false; }
      for i := 0 to |members|
        invariant forall k | 0 <= k < i ::
          var j := Find(b.members, members[k].name.text);
          j < |b.members| && Equal(fp, members[k].value, b.members[j].value)
      {
        var j := FindMember(b.members, members[i].name.text);
        if j == |b.members| { return false; }
        var equal := EqualTo(fp, members[i].value, b.members[j].value);
        if !equal { return false; }
      }
      same := true;
    case Array(elems) =>
      if !b.Array? || |elems| != |b.elems| { return false; }
      for i := 0 to |elems|
        invariant forall k | 0 <= k < i :: Equal(fp, elems[k], b.elems[k])
      {
        var equal := EqualTo(fp, elems[i], b.elems[i]);
        if !equal { return false; }
      }
      same := true;
    case Str(_, text) =>
      same := b.Str? && text == b.text;
    case Number(f, bits) =>
      same := b.Number? && NumberEqual(fp, f, bits, b.flags, b.bits);
    case Bool(x) =>
      same := b == Bool(x);
    case Null =>
      same := b.Null?;
  }
}
