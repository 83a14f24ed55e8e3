/** The value of the JSON document model: a tagged union whose numbers carry their 64-bit
    pattern together with flags saying which C++ types the number fits. */
module JsonValue {

  const TWO31: int := 0x8000_0000
  const TWO32: int := 0x1_0000_0000
  const TWO63: int := 0x8000_0000_0000_0000
  const TWO64: int := 0x1_0000_0000_0000_0000

  /** kIntFlag, kUintFlag, kInt64Flag, kUint64Flag, kDoubleFlag. */
  datatype NumFlags = NumFlags(isInt: bool, isUint: bool, isInt64: bool, isUint64: bool, isDouble: bool)

  /** kConstStringFlag, kShortStringFlag, kCopyStringFlag. */
  datatype StrKind = ConstStr | ShortStr | CopyStr

  datatype Value =
    | Null
    | Bool(b: bool)
    | Number(flags: NumFlags, bits: nat)
    | Str(kind: StrKind, text: seq<char>)
    | Array(elems: seq<Value>)
    | Object(members: seq<Member>)

  datatype Member = Member(name: Value, value: Value)

  /** ShortString::MaxSize in the 48-bit pointer layout: 14 payload bytes, one for the length. */
  const SHORT_MAX: nat := 13

  const DOUBLE_FLAGS := NumFlags(false, false, false, false, true)
  const ANY_FLAGS := NumFlags(true, true, true, true, true)

  // ------------------------------------------------------------ constructors

  /** The pattern an integer leaves in the 64-bit field. */
  function Pattern(n: int): (bits: nat)
    ensures bits < TWO64
  {
    n % TWO64
  }

  function Signed32(low: int): int { if low < TWO31 then low else low - TWO32 }
  function Signed64(bits: int): int { if bits < TWO63 then bits else bits - TWO64 }

  function FromInt(i: int): Value
    requires -TWO31 <= i < TWO31
  {
    Number(if i >= 0 then NumFlags(true, true, true, true, false) else NumFlags(true, false, true, false, false),
           Pattern(i))
  }

  /** The test of bit 31 of an unsigned. */
  function FromUint(u: int): Value
    requires 0 <= u < TWO32
  {
    Number(if u / TWO31 != 0 then NumFlags(false, true, true, true, false) else NumFlags(true, true, true, true, false),
           u)
  }

  /** The masks 0xFFFFFFFF00000000 and 0xFFFFFFFF80000000 are clear when the quotients are 0. */
  function FromInt64(i: int): Value
    requires -TWO63 <= i < TWO63
  {
    if i >= 0 then Number(NumFlags(i / TWO31 == 0, i / TWO32 == 0, true, true, false), Pattern(i))
    else Number(NumFlags(i >= -TWO31, false, true, false, false), Pattern(i))
  }

  function FromUint64(u: int): Value
    requires 0 <= u < TWO64
  {
    Number(NumFlags(u / TWO31 == 0, u / TWO32 == 0, u / TWO63 == 0, true, false), u)
  }

  function FromDouble(bits: nat): Value { Number(DOUBLE_FLAGS, bits) }

  /** GenericValue(kNumberType): zero that claims to be every type of number. */
  const DEFAULT_ZERO := Number(ANY_FLAGS, 0)

  function FromConstString(text: seq<char>): Value { Str(ConstStr, text) }

  /** SetStringRaw with an allocator: inline when short enough. */
  function FromCopiedString(text: seq<char>): Value {
    Str(if |text| <= SHORT_MAX then ShortStr else CopyStr, text)
  }

  // ------------------------------------------ flags are a function of the number

  /** Exactly the types whose range holds `n`. */
  function FlagsOf(n: int): NumFlags {
    NumFlags(-TWO31 <= n < TWO31, 0 <= n < TWO32, -TWO63 <= n < TWO63, 0 <= n < TWO64, false)
  }

  function IntegerValue(n: int): Value { Number(FlagsOf(n), Pattern(n)) }

  /** Whichever constructor makes an integer, the value is the same. */
  lemma {:induction false} IntegerConstructorsAgree(n: int)
    ensures -TWO31 <= n < TWO31 ==> FromInt(n) == IntegerValue(n)
    ensures 0 <= n < TWO32 ==> FromUint(n) == IntegerValue(n)
    ensures -TWO63 <= n < TWO63 ==> FromInt64(n) == IntegerValue(n)
    ensures 0 <= n < TWO64 ==> FromUint64(n) == IntegerValue(n)
  {
    if 0 <= n < TWO64 {
      assert Pattern(n) == n;
      assert n / TWO31 == 0 <==> n < TWO31;
      assert n / TWO32 == 0 <==> n < TWO32;
      assert n / TWO63 == 0 <==> n < TWO63;
    }
  }

  /** A number some constructor can have made. */
  predicate CanonicalNumber(f: NumFlags, bits: nat) {
    bits < TWO64 && (f == DOUBLE_FLAGS || f == FlagsOf(bits) || f == FlagsOf(Signed64(bits)))
  }

  /** The data union holds 64 bits. */
  predicate NumbersFit(v: Value)
    decreases v
  {
    match v
    case Number(_, bits) => bits < TWO64
    case Array(elems) => forall i | 0 <= i < |elems| :: NumbersFit(elems[i])
    case Object(members) =>
      forall i | 0 <= i < |members| :: NumbersFit(members[i].name) && NumbersFit(members[i].value)
    case _ => true
  }

  /** Member names are strings, as Accept and FindMember assert. */
  predicate NamesAreStrings(v: Value)
    decreases v
  {
    match v
    case Array(elems) => forall i | 0 <= i < |elems| :: NamesAreStrings(elems[i])
    case Object(members) =>
      forall i | 0 <= i < |members| :: members[i].name.Str? && NamesAreStrings(members[i].value)
    case _ => true
  }
}
