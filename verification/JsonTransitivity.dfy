/** When operator== is transitive: which values may stand in the middle. */
module JsonTransitivity {
  import opened JsonValue
  import opened JsonEquality

  /** Which flags and patterns the numbers under consideration have. */
  type Kind = (NumFlags, nat) -> bool

  /** Values whose numbers are all of a kind, with strings as member names. */
  ghost predicate Made(ok: Kind, v: Value)
    ensures Made(ok, v) ==> NamesAreStrings(v)
    decreases v
  {
    match v
    case Number(f, bits) => ok(f, bits)
    case Array(elems) => forall i | 0 <= i < |elems| :: Made(ok, elems[i])
    case Object(members) => forall i | 0 <= i < |members| :: members[i].name.Str? && Made(ok, members[i].value)
    case _ => true
  }

  /** In the middle, a double must not be what two different integers convert to. An integer must
      not be what some double denotes, unless its pattern reads as that under any flags: integers
      are compared by pattern, against doubles by what their flags make of it. */
  ghost predicate SafeNumber(fp: Floats, ok: Kind, f: NumFlags, bits: nat) {
    var d := GetDouble(fp, f, bits);
    || d == NaN
    || if f.isDouble then
         forall g, m, h, n | ReadsAs(fp, ok, g, m, d) && ReadsAs(fp, ok, h, n, d) :: m == n
       else
         || (forall g: NumFlags, p | g.isDouble && ok(g, p) :: fp.decode(p) != d)
         || forall g: NumFlags | !g.isDouble && ok(g, bits) :: GetDouble(fp, g, bits) == d
  }

  predicate ReadsAs(fp: Floats, ok: Kind, f: NumFlags, bits: nat, d: Dbl) {
    !f.isDouble && ok(f, bits) && GetDouble(fp, f, bits) == d
  }

  ghost predicate SafeMiddle(fp: Floats, ok: Kind, v: Value)
    decreases v
  {
    match v
    case Number(f, bits) => SafeNumber(fp, ok, f, bits)
    case Array(elems) => forall i | 0 <= i < |elems| :: SafeMiddle(fp, ok, elems[i])
    case Object(members) => forall i | 0 <= i < |members| :: SafeMiddle(fp, ok, members[i].value)
    case _ => true
  }

  /** Doubles compare equal when they are the same and no NaN. */
  lemma SameDouble(x: Dbl, y: Dbl)
    ensures AtLeast(x, y) && AtLeast(y, x) <==> x == y != NaN
  {
  }

  lemma SafeNumberTransitive(fp: Floats, ok: Kind, f: NumFlags, x: nat, g: NumFlags, y: nat, h: NumFlags, z: nat)
    requires ok(f, x) && ok(g, y) && ok(h, z) && SafeNumber(fp, ok, g, y)
    requires NumberEqual(fp, f, x, g, y) && NumberEqual(fp, g, y, h, z)
    ensures NumberEqual(fp, f, x, h, z)
  {
    var d := GetDouble(fp, g, y);
    SameDouble(GetDouble(fp, f, x), d);
    SameDouble(d, GetDouble(fp, h, z));
    SameDouble(GetDouble(fp, f, x), GetDouble(fp, h, z));
    if !f.isDouble && !h.isDouble && g.isDouble {
      assert ReadsAs(fp, ok, f, x, d) && ReadsAs(fp, ok, h, z, d);
    }
  }

  lemma {:induction false} SafeTransitive(fp: Floats, ok: Kind, a: Value, b: Value, c: Value)
    requires Made(ok, a) && Made(ok, b) && Made(ok, c)
    requires SafeMiddle(fp, ok, b) && Equal(fp, a, b) && Equal(fp, b, c)
    ensures Equal(fp, a, c)
    decreases a
  {
    match a
    case Object(members) =>
      forall i | 0 <= i < |members|
        ensures var k := Find(c.members, members[i].name.text);
                k < |c.members| && Equal(fp, members[i].value, c.members[k].value)
      {
        var j := Find(b.members, members[i].name.text);
        var k := Find(c.members, b.members[j].name.text);
        SafeTransitive(fp, ok, members[i].value, b.members[j].value, c.members[k].value);
      }
    case Array(elems) =>
      forall i | 0 <= i < |elems| ensures Equal(fp, elems[i], c.elems[i]) {
        SafeTransitive(fp, ok, elems[i], b.elems[i], c.elems[i]);
      }
    case Number(f, x) => SafeNumberTransitive(fp, ok, f, x, b.flags, b.bits, c.flags, c.bits);
    case _ =>
  }

  /** Two numbers equal to an unsafe one but not to each other. */
  lemma UnsafeNumber(fp: Floats, ok: Kind, f: NumFlags, bits: nat) returns (a: Value, c: Value)
    requires !SafeNumber(fp, ok, f, bits)
    ensures Made(ok, a) && Made(ok, c)
    ensures Equal(fp, a, Number(f, bits)) && Equal(fp, Number(f, bits), c) && !Equal(fp, a, c)
  {
    var d := GetDouble(fp, f, bits);
    SameDouble(d, d);
    if f.isDouble {
      var g, m, h, n :| ReadsAs(fp, ok, g, m, d) && ReadsAs(fp, ok, h, n, d) && m != n;
      a, c := Number(g, m), Number(h, n);
    } else {
      var g: NumFlags, p :| g.isDouble && ok(g, p) && fp.decode(p) == d;
      var h: NumFlags :| !h.isDouble && ok(h, bits) && GetDouble(fp, h, bits) != d;
      a, c := Number(g, p), Number(h, bits);
      SameDouble(d, GetDouble(fp, h, bits));
    }
  }

  /** A list with one value replaced, around which everything equals itself. */
  lemma ReplacedElement(fp: Floats, ok: Kind, elems: seq<Value>, i: nat, a: Value, c: Value)
    requires Made(ok, Array(elems)) && Unique(Array(elems)) && NoNaN(fp, Array(elems)) && i < |elems|
    requires Made(ok, a) && Made(ok, c)
    requires Equal(fp, a, elems[i]) && Equal(fp, elems[i], c) && !Equal(fp, a, c)
    ensures var x, y := Array(elems[i := a]), Array(elems[i := c]);
            && Made(ok, x) && Made(ok, y)
            && Equal(fp, x, Array(elems)) && Equal(fp, Array(elems), y) && !Equal(fp, x, y)
  {
    var x, y := elems[i := a], elems[i := c];
    forall k | 0 <= k < |elems| && k != i ensures Equal(fp, elems[k], elems[k]) {
      EqualSelfIff(fp, elems[k]);
    }
    assert !Equal(fp, x[i], y[i]);
  }

  function WithValue(ms: seq<Member>, i: nat, v: Value): (r: seq<Member>)
    requires i < |ms|
    ensures |r| == |ms| && forall k | 0 <= k < |ms| ::
              r[k].name == ms[k].name && r[k].value == if k == i then v else ms[k].value
  {
    ms[i := Member(ms[i].name, v)]
  }

  ghost predicate SameNames(ms: seq<Member>, ns: seq<Member>) {
    |ms| == |ns| && NamesOk(ms) && NamesOk(ns) && forall k | 0 <= k < |ms| :: ns[k].name == ms[k].name
  }

  lemma FoundInPlace(ms: seq<Member>, ns: seq<Member>, k: nat)
    requires UniqueNames(ms) && SameNames(ms, ns) && k < |ms|
    ensures Find(ns, ms[k].name.text) == k
  {
    FindUnique(ns, k);
  }

  /** With the same unique names in the same places, objects compare member by member. */
  lemma MemberwiseEqual(fp: Floats, ms: seq<Member>, ns: seq<Member>)
    requires UniqueNames(ms) && SameNames(ms, ns)
    requires NamesAreStrings(Object(ms)) && NamesAreStrings(Object(ns))
    ensures Equal(fp, Object(ms), Object(ns)) <==> forall k | 0 <= k < |ms| :: Equal(fp, ms[k].value, ns[k].value)
  {
    forall k | 0 <= k < |ms| ensures Find(ns, ms[k].name.text) == k { FoundInPlace(ms, ns, k); }
  }

  /** Around the replaced member everything equals itself. */
  ghost predicate SelfEqualBut(fp: Floats, ms: seq<Member>, i: nat)
    requires NamesAreStrings(Object(ms))
  {
    forall k | 0 <= k < |ms| && k != i :: Equal(fp, ms[k].value, ms[k].value)
  }

  lemma ReplacedOnLeft(fp: Floats, ms: seq<Member>, i: nat, a: Value)
    requires NamesAreStrings(Object(ms)) && NamesAreStrings(a) && i < |ms| && UniqueNames(ms) && SelfEqualBut(fp, ms, i)
    requires NamesAreStrings(Object(WithValue(ms, i, a))) && Equal(fp, a, ms[i].value)
    ensures Equal(fp, Object(WithValue(ms, i, a)), Object(ms))
  {
    MemberwiseEqual(fp, WithValue(ms, i, a), ms);
  }

  lemma ReplacedOnRight(fp: Floats, ms: seq<Member>, i: nat, c: Value)
    requires NamesAreStrings(Object(ms)) && NamesAreStrings(c) && i < |ms| && UniqueNames(ms) && SelfEqualBut(fp, ms, i)
    requires NamesAreStrings(Object(WithValue(ms, i, c))) && Equal(fp, ms[i].value, c)
    ensures Equal(fp, Object(ms), Object(WithValue(ms, i, c)))
  {
    MemberwiseEqual(fp, ms, WithValue(ms, i, c));
  }

  lemma ReplacedOnBoth(fp: Floats, ms: seq<Member>, i: nat, a: Value, c: Value)
    requires NamesAreStrings(a) && NamesAreStrings(c) && i < |ms| && UniqueNames(ms) && !Equal(fp, a, c)
    requires NamesAreStrings(Object(WithValue(ms, i, a))) && NamesAreStrings(Object(WithValue(ms, i, c)))
    ensures !Equal(fp, Object(WithValue(ms, i, a)), Object(WithValue(ms, i, c)))
  {
    var x, y := WithValue(ms, i, a), WithValue(ms, i, c);
    MemberwiseEqual(fp, x, y);
    assert !Equal(fp, x[i].value, y[i].value);
  }

  lemma MadeWithValue(ok: Kind, ms: seq<Member>, i: nat, v: Value)
    requires Made(ok, Object(ms)) && Made(ok, v) && i < |ms|
    ensures Made(ok, Object(WithValue(ms, i, v)))
  {
  }

  lemma ReplacedMember(fp: Floats, ok: Kind, ms: seq<Member>, i: nat, a: Value, c: Value)
    requires Made(ok, Object(ms)) && Unique(Object(ms)) && NoNaN(fp, Object(ms)) && i < |ms|
    requires Made(ok, a) && Made(ok, c)
    requires Equal(fp, a, ms[i].value) && Equal(fp, ms[i].value, c) && !Equal(fp, a, c)
    ensures var x, y := Object(WithValue(ms, i, a)), Object(WithValue(ms, i, c));
            && Made(ok, x) && Made(ok, y)
            && Equal(fp, x, Object(ms)) && Equal(fp, Object(ms), y) && !Equal(fp, x, y)
  {
    MadeWithValue(ok, ms, i, a);
    MadeWithValue(ok, ms, i, c);
    forall k | 0 <= k < |ms| && k != i ensures Equal(fp, ms[k].value, ms[k].value) {
      EqualSelfIff(fp, ms[k].value);
    }
    ReplacedOnLeft(fp, ms, i, a);
    ReplacedOnRight(fp, ms, i, c);
    ReplacedOnBoth(fp, ms, i, a, c);
  }

  lemma {:induction false} UnsafeMiddle(fp: Floats, ok: Kind, b: Value) returns (a: Value, c: Value)
    requires Made(ok, b) && Unique(b) && NoNaN(fp, b) && !SafeMiddle(fp, ok, b)
    ensures Made(ok, a) && Made(ok, c)
    ensures Equal(fp, a, b) && Equal(fp, b, c) && !Equal(fp, a, c)
    decreases b
  {
    match b
    case Number(f, bits) => a, c := UnsafeNumber(fp, ok, f, bits);
    case Array(elems) =>
      var i :| 0 <= i < |elems| && !SafeMiddle(fp, ok, elems[i]);
      a, c := UnsafeMiddle(fp, ok, elems[i]);
      ReplacedElement(fp, ok, elems, i, a, c);
      a, c := Array(elems[i := a]), Array(elems[i := c]);
    case Object(members) =>
      var i :| 0 <= i < |members| && !SafeMiddle(fp, ok, members[i].value);
      a, c := UnsafeMiddle(fp, ok, members[i].value);
      ReplacedMember(fp, ok, members, i, a, c);
      a, c := Object(WithValue(members, i, a)), Object(WithValue(members, i, c));
  }

  lemma {:induction false} EqualHasNoNaN(fp: Floats, b: Value, c: Value)
    requires NamesAreStrings(b) && NamesAreStrings(c) && Equal(fp, b, c)
    ensures NoNaN(fp, b)
    decreases b
  {
    match b
    case Object(members) =>
      forall i | 0 <= i < |members| ensures NoNaN(fp, members[i].value) {
        EqualHasNoNaN(fp, members[i].value, c.members[Find(c.members, members[i].name.text)].value);
      }
    case Array(elems) =>
      forall i | 0 <= i < |elems| ensures NoNaN(fp, elems[i]) {
        EqualHasNoNaN(fp, elems[i], c.elems[i]);
      }
    case _ =>
  }

  /** Whatever equals a value on one side equals whatever it equals on the other, exactly when
      every number inside it is safe, or there is a NaN inside and it equals nothing. */
  lemma {:induction false} TransitiveThroughIff(fp: Floats, ok: Kind, b: Value)
    requires Made(ok, b) && Unique(b)
    ensures (forall a, c | Made(ok, a) && Made(ok, c) :: Equal(fp, a, b) && Equal(fp, b, c) ==> Equal(fp, a, c))
       <==> SafeMiddle(fp, ok, b) || !NoNaN(fp, b)
  {
    if SafeMiddle(fp, ok, b) || !NoNaN(fp, b) {
      forall a, c | Made(ok, a) && Made(ok, c) && Equal(fp, a, b) && Equal(fp, b, c) ensures Equal(fp, a, c) {
        EqualHasNoNaN(fp, b, c);
        SafeTransitive(fp, ok, a, b, c);
      }
    } else {
      var a, c := UnsafeMiddle(fp, ok, b);
    }
  }

  // ----- numbers that constructors make -----

  predicate InRange(n: int) { -TWO63 <= n < TWO64 }

  /** The other integer of the same pattern, or the same one when there is none. */
  function Twin(n: int): int {
    if n < 0 then n + TWO64 else if n >= TWO63 then n - TWO64 else n
  }

  lemma IntegerReads(fp: Floats, n: int)
    requires InRange(n)
    ensures GetDouble(fp, FlagsOf(n), Pattern(n)) == fp.convert(n)
  {
  }

  /** Among them an integer is safe exactly when its pattern has one reading, or both convert to
      the same, or no double denotes it. */
  lemma SafeIntegerIff(fp: Floats, n: int)
    requires InRange(n)
    ensures SafeNumber(fp, CanonicalNumber, FlagsOf(n), Pattern(n))
       <==> fp.convert(n) == NaN || fp.convert(Twin(n)) == fp.convert(n)
            || forall p: nat | p < TWO64 :: fp.decode(p) != fp.convert(n)
  {
    IntegerReads(fp, n);
    IntegerReads(fp, Twin(n));
    assert CanonicalNumber(FlagsOf(Twin(n)), Pattern(n));
    forall p: nat | p < TWO64 ensures CanonicalNumber(DOUBLE_FLAGS, p) { }
  }

  predicate ConvertsTo(fp: Floats, n: int, d: Dbl) {
    InRange(n) && fp.convert(n) == d
  }

  lemma ConvertedReads(fp: Floats, n: int, d: Dbl)
    requires ConvertsTo(fp, n, d)
    ensures ReadsAs(fp, CanonicalNumber, FlagsOf(n), Pattern(n), d)
  {
    IntegerReads(fp, n);
  }

  lemma ReadConverts(fp: Floats, f: NumFlags, bits: nat, d: Dbl) returns (n: int)
    requires ReadsAs(fp, CanonicalNumber, f, bits, d)
    ensures ConvertsTo(fp, n, d) && Pattern(n) == bits
  {
    n := if f == FlagsOf(bits) then bits else Signed64(bits);
    IntegerReads(fp, n);
  }

  /** A double is safe exactly when no two integers of different patterns convert to it. */
  lemma SafeDoubleIff(fp: Floats, bits: nat)
    ensures SafeNumber(fp, CanonicalNumber, DOUBLE_FLAGS, bits)
       <==> var d := fp.decode(bits);
            d == NaN || forall m, n | ConvertsTo(fp, m, d) && ConvertsTo(fp, n, d) :: Pattern(m) == Pattern(n)
  {
    var d := fp.decode(bits);
    if SafeNumber(fp, CanonicalNumber, DOUBLE_FLAGS, bits) {
      forall m, n | d != NaN && ConvertsTo(fp, m, d) && ConvertsTo(fp, n, d) ensures Pattern(m) == Pattern(n) {
        ConvertedReads(fp, m, d);
        ConvertedReads(fp, n, d);
      }
    } else {
      var g, x, h, y :| ReadsAs(fp, CanonicalNumber, g, x, d) && ReadsAs(fp, CanonicalNumber, h, y, d) && x != y;
      var m := ReadConverts(fp, g, x, d);
      var n := ReadConverts(fp, h, y, d);
    }
  }

  /** It happens: -1.0 equals -1, which equals 2^64 - 1, which does not equal -1.0. */
  lemma EqualNotTransitive(fp: Floats, bits: nat)
    requires fp.decode(bits) == fp.convert(-1) == Finite(-1.0) && fp.convert(TWO64 - 1) != Finite(-1.0)
    requires bits < TWO64
    ensures var d := Number(DOUBLE_FLAGS, bits);
            Equal(fp, d, IntegerValue(-1)) && Equal(fp, IntegerValue(-1), IntegerValue(TWO64 - 1))
            && !Equal(fp, d, IntegerValue(TWO64 - 1))
    ensures !SafeMiddle(fp, CanonicalNumber, IntegerValue(-1))
  {
    assert !Equal(fp, Number(DOUBLE_FLAGS, bits), IntegerValue(TWO64 - 1));
    SafeIntegerIff(fp, -1);
    assert fp.decode(bits) == fp.convert(-1);
  }
}
