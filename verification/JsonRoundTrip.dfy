/** What a value that does not survive its own events comes back as: flagged as constructors flag
    it, and otherwise reading the same. */
module JsonRoundTrip {
  import opened JsonValue
  import opened JsonDocument
  import opened JsonEquality

  /** The same value, member by member and element by element in order, with numbers that read as the
      same double and strings of the same text, referenced both or neither. */
  predicate ReadsAlike(fp: Floats, a: Value, b: Value)
    decreases a
  {
    match (a, b)
    case (Null, Null) => true
    case (Bool(x), Bool(y)) => x == y
    case (Number(f, m), Number(g, n)) => f.isDouble == g.isDouble && GetDouble(fp, f, m) == GetDouble(fp, g, n)
    case (Str(j, s), Str(k, t)) => s == t && (j == ConstStr <==> k == ConstStr)
    case (Array(es), Array(ds)) => |es| == |ds| && forall i | 0 <= i < |es| :: ReadsAlike(fp, es[i], ds[i])
    case (Object(ms), Object(ns)) =>
      |ms| == |ns| && forall i | 0 <= i < |ms| ::
        ReadsAlike(fp, ms[i].name, ns[i].name) && ReadsAlike(fp, ms[i].value, ns[i].value)
    case _ => false
  }

  lemma NumberReads(fp: Floats, f: NumFlags, bits: nat)
    requires bits < TWO64
    ensures Canonical(NormalNumber(f, bits)) && ReadsAlike(fp, Number(f, bits), NormalNumber(f, bits))
  {
    if !f.isDouble {
      var n := if f.isInt then Signed32(bits % TWO32) else if f.isUint then bits % TWO32
               else if f.isInt64 then Signed64(bits) else bits;
      IntegerConstructorsAgree(n);
      assert NormalNumber(f, bits) == IntegerValue(n);
      IntegerReads(fp, n);
    }
  }

  lemma IntegerReads(fp: Floats, n: int)
    requires -TWO63 <= n < TWO64
    ensures GetDouble(fp, FlagsOf(n), Pattern(n)) == fp.convert(n)
    ensures CanonicalNumber(FlagsOf(n), Pattern(n))
  {
    assert Pattern(n) == if n >= 0 then n else n + TWO64;
  }

  /** Every value comes back canonically flagged and reading the same. */
  lemma {:induction false} BuiltReads(fp: Floats, v: Value)
    requires NumbersFit(v)
    ensures Canonical(Normal(v)) && ReadsAlike(fp, v, Normal(v))
    decreases v
  {
    match v
    case Number(f, bits) => NumberReads(fp, f, bits);
    case Array(elems) =>
      forall i | 0 <= i < |elems|
        ensures Canonical(Normal(v).elems[i]) && ReadsAlike(fp, elems[i], Normal(v).elems[i])
      {
        BuiltReads(fp, elems[i]);
      }
    case Object(members) =>
      forall i | 0 <= i < |members|
        ensures Canonical(Normal(v).members[i].name) && ReadsAlike(fp, members[i].name, Normal(v).members[i].name)
        ensures Canonical(Normal(v).members[i].value) && ReadsAlike(fp, members[i].value, Normal(v).members[i].value)
      {
        BuiltReads(fp, members[i].name);
        BuiltReads(fp, members[i].value);
      }
    case _ =>
  }
}
