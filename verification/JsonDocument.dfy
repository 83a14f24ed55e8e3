/** Accept turns a value into SAX events; GenericDocument, as a handler of those events,
    builds a value back on its stack. */
module JsonDocument {
  import opened JsonValue

  datatype Event =
    | NullEvent
    | BoolEvent(b: bool)
    | IntEvent(i: int)
    | UintEvent(u: int)
    | Int64Event(i64: int)
    | Uint64Event(u64: int)
    | DoubleEvent(bits: nat)
    | StringEvent(text: seq<char>, copy: bool)
    | KeyEvent(text: seq<char>, copy: bool)
    | StartObjectEvent
    | EndObjectEvent(memberCount: nat)
    | StartArrayEvent
    | EndArrayEvent(elementCount: nat)

  /** The event of a number: the first type its flags claim, in Accept's order, read from the
      matching part of the 64-bit field. */
  function NumberEvent(f: NumFlags, bits: nat): Event {
    if f.isDouble then DoubleEvent(bits)
    else if f.isInt then IntEvent(Signed32(bits % TWO32))
    else if f.isUint then UintEvent(bits % TWO32)
    else if f.isInt64 then Int64Event(Signed64(bits))
    else Uint64Event(bits)
  }

  function Width(v: Value): nat {
    match v
    case Array(elems) => |elems|
    case Object(members) => |members|
    case _ => 0
  }

  /** The events of Accept. */
  function Events(v: Value): seq<Event>
    requires NamesAreStrings(v)
    decreases v, Width(v) + 1
  {
    match v
    case Null => [NullEvent]
    case Bool(b) => [BoolEvent(b)]
    case Number(f, bits) => [NumberEvent(f, bits)]
    case Str(kind, text) => [StringEvent(text, kind != ConstStr)]
    case Array(elems) => [StartArrayEvent] + ElementEvents(v, |elems|) + [EndArrayEvent(|elems|)]
    case Object(members) => [StartObjectEvent] + MemberEvents(v, |members|) + [EndObjectEvent(|members|)]
  }

  function ElementEvents(v: Value, n: nat): seq<Event>
    requires v.Array? && NamesAreStrings(v) && n <= |v.elems|
    decreases v, n
  {
    if n == 0 then [] else ElementEvents(v, n - 1) + Events(v.elems[n - 1])
  }

  function MemberEvents(v: Value, n: nat): seq<Event>
    requires v.Object? && NamesAreStrings(v) && n <= |v.members|
    decreases v, n
  {
    if n == 0 then []
    else
      var m := v.members[n - 1];
      MemberEvents(v, n - 1) + [KeyEvent(m.name.text, m.name.kind != ConstStr)] + Events(m.value)
  }

  // --------------------------------------------------------------- the handler

  function StringValue(text: seq<char>, copy: bool): Value {
    if copy then FromCopiedString(text) else FromConstString(text)
  }

  /** A run of values read as name, value, name, value, ... */
  function Pairs(vs: seq<Value>): (ms: seq<Member>)
    ensures |ms| == |vs| / 2
  {
    if |vs| < 2 then []
    else
      var n := |vs| - 2;
      Pairs(vs[..n]) + [Member(vs[n], vs[n + 1])]
  }

  /** An argument outside its C++ type, or a pop of more than the stack holds. */
  datatype Handled = Stack(values: seq<Value>) | Misuse

  /** The stack without its top `k` values and the one below them; those `k` values. */
  function Below(s: seq<Value>, k: nat): seq<Value>
    requires k < |s|
  {
    s[..|s| - k - 1]
  }

  function Top(s: seq<Value>, k: nat): seq<Value>
    requires k <= |s|
  {
    s[|s| - k..]
  }

  /** What one event does to the handler's stack. */
  function Handle(s: seq<Value>, e: Event): Handled {
    match e
    case NullEvent => Stack(s + [Null])
    case BoolEvent(b) => Stack(s + [Bool(b)])
    case IntEvent(i) => if -TWO31 <= i < TWO31 then Stack(s + [FromInt(i)]) else Misuse
    case UintEvent(u) => if 0 <= u < TWO32 then Stack(s + [FromUint(u)]) else Misuse
    case Int64Event(i) => if -TWO63 <= i < TWO63 then Stack(s + [FromInt64(i)]) else Misuse
    case Uint64Event(u) => if 0 <= u < TWO64 then Stack(s + [FromUint64(u)]) else Misuse
    case DoubleEvent(bits) => Stack(s + [FromDouble(bits)])
    case StringEvent(text, copy) => Stack(s + [StringValue(text, copy)])
    case KeyEvent(text, copy) => Stack(s + [StringValue(text, copy)])
    case StartObjectEvent => Stack(s + [Object([])])
    case EndObjectEvent(n) =>
      if 2 * n >= |s| then Misuse else Stack(Below(s, 2 * n) + [Object(Pairs(Top(s, 2 * n)))])
    case StartArrayEvent => Stack(s + [Array([])])
    case EndArrayEvent(n) =>
      if n >= |s| then Misuse else Stack(Below(s, n) + [Array(Top(s, n))])
  }

  function Feed(s: seq<Value>, es: seq<Event>): Handled {
    if es == [] then Stack(s)
    else match Feed(s, es[..|es| - 1])
      case Misuse => Misuse
      case Stack(t) => Handle(t, es[|es| - 1])
  }

  lemma {:induction false} FeedConcat(s: seq<Value>, a: seq<Event>, b: seq<Event>)
    ensures Feed(s, a + b) == (match Feed(s, a) case Misuse => Misuse case Stack(t) => Feed(t, b))
    decreases |b|
  {
    if b == [] {
      assert a + b == a;
    } else {
      assert (a + b)[..|a + b| - 1] == a + b[..|b| - 1];
      FeedConcat(s, a, b[..|b| - 1]);
    }
  }

  lemma FeedOne(s: seq<Value>, e: Event)
    ensures Feed(s, [e]) == Handle(s, e)
  {
    assert [e][..0] == [];
    assert Feed(s, []) == Stack(s);
  }

  /** Two runs of events that both go through. */
  lemma FeedTwo(s: seq<Value>, a: seq<Event>, t: seq<Value>, b: seq<Event>, u: seq<Value>)
    requires Feed(s, a) == Stack(t) && Feed(t, b) == Stack(u)
    ensures Feed(s, a + b) == Stack(u)
  {
    FeedConcat(s, a, b);
  }

  // ------------------------------------------------------------ the round trip

  /** The value a constructor makes of a number's event. */
  function NormalNumber(f: NumFlags, bits: nat): Value
    requires bits < TWO64
  {
    if f.isDouble then FromDouble(bits)
    else if f.isInt then FromInt(Signed32(bits % TWO32))
    else if f.isUint then FromUint(bits % TWO32)
    else if f.isInt64 then FromInt64(Signed64(bits))
    else FromUint64(bits)
  }

  /** `v` with every number and string as its constructor would have flagged it. */
  function Normal(v: Value): (r: Value)
    requires NumbersFit(v)
    ensures v.Array? ==> r.Array? && |r.elems| == |v.elems|
    ensures v.Object? ==> r.Object? && |r.members| == |v.members|
    decreases v
  {
    match v
    case Number(f, bits) => NormalNumber(f, bits)
    case Str(kind, text) => StringValue(text, kind != ConstStr)
    case Array(elems) => Array(seq(|elems|, i requires 0 <= i < |elems| => Normal(elems[i])))
    case Object(members) =>
      Object(seq(|members|, i requires 0 <= i < |members| =>
        Member(Normal(members[i].name), Normal(members[i].value))))
    case _ => v
  }

  /** Whatever is on the stack, the events of `v` push exactly one value: the normal form of
      `v`. */
  lemma {:induction false} AcceptBuildsNormal(s: seq<Value>, v: Value)
    requires NamesAreStrings(v) && NumbersFit(v)
    ensures Feed(s, Events(v)) == Stack(s + [Normal(v)])
    decreases v, Width(v) + 1
  {
    match v
    case Array(elems) => ArrayBuilds(s, v);
    case Object(members) => ObjectBuilds(s, v);
    case Number(f, bits) => FeedOne(s, NumberEvent(f, bits));
    case _ => FeedOne(s, Events(v)[0]);
  }

  lemma {:induction false} ArrayBuilds(s: seq<Value>, v: Value)
    requires v.Array? && NamesAreStrings(v) && NumbersFit(v)
    ensures Feed(s, Events(v)) == Stack(s + [Normal(v)])
    decreases v, Width(v), 1
  {
    var n, open, built := |v.elems|, s + [Array([])], Normal(v).elems;
    FeedOne(s, StartArrayEvent);
    ElementsBuild(open, v, n);
    assert built[..n] == built;
    FeedTwo(s, [StartArrayEvent], open, ElementEvents(v, n), open + built);
    FeedOne(open + built, EndArrayEvent(n));
    CloseArray(s, built);
    FeedTwo(s, [StartArrayEvent] + ElementEvents(v, n), open + built, [EndArrayEvent(n)], s + [Array(built)]);
  }

  lemma {:induction false} ObjectBuilds(s: seq<Value>, v: Value)
    requires v.Object? && NamesAreStrings(v) && NumbersFit(v)
    ensures Feed(s, Events(v)) == Stack(s + [Normal(v)])
    decreases v, Width(v), 1
  {
    var n, open, built := |v.members|, s + [Object([])], Normal(v).members;
    var flat := Flat(built, n);
    FeedOne(s, StartObjectEvent);
    MembersBuild(open, v, n);
    FeedTwo(s, [StartObjectEvent], open, MemberEvents(v, n), open + flat);
    FeedOne(open + flat, EndObjectEvent(n));
    CloseObject(s, built);
    FeedTwo(s, [StartObjectEvent] + MemberEvents(v, n), open + flat, [EndObjectEvent(n)], s + [Object(built)]);
  }

  lemma CloseArray(s: seq<Value>, elems: seq<Value>)
    ensures Handle(s + [Array([])] + elems, EndArrayEvent(|elems|)) == Stack(s + [Array(elems)])
  {
    SplitTop(s, Array([]), elems, |elems|);
  }

  lemma CloseObject(s: seq<Value>, members: seq<Member>)
    ensures Handle(s + [Object([])] + Flat(members, |members|), EndObjectEvent(|members|))
         == Stack(s + [Object(members)])
  {
    PairsFlat(members, |members|);
    assert members[..|members|] == members;
    CloseObjectWith(s, Flat(members, |members|), members, |members|);
  }

  lemma CloseObjectWith(s: seq<Value>, vs: seq<Value>, members: seq<Member>, n: nat)
    requires |vs| == 2 * n && Pairs(vs) == members
    ensures Handle(s + [Object([])] + vs, EndObjectEvent(n)) == Stack(s + [Object(members)])
  {
    SplitTop(s, Object([]), vs, 2 * n);
  }

  lemma SplitTop(s: seq<Value>, top: Value, vs: seq<Value>, k: nat)
    requires k == |vs|
    ensures var full := s + [top] + vs; Below(full, k) == s && Top(full, k) == vs
  {
  }

  lemma {:induction false} PairsFlat(members: seq<Member>, n: nat)
    requires n <= |members|
    ensures Pairs(Flat(members, n)) == members[..n]
  {
    if n > 0 {
      PairsFlat(members, n - 1);
      PairsPush(Flat(members, n - 1), members[n - 1], members[..n - 1]);
      TakeNext(members, n);
    }
  }

  lemma TakeNext(members: seq<Member>, n: nat)
    requires 0 < n <= |members|
    ensures members[..n] == members[..n - 1] + [members[n - 1]]
  {
  }

  lemma PairsPush(vs: seq<Value>, m: Member, ms: seq<Member>)
    requires Pairs(vs) == ms
    ensures Pairs(vs + [m.name, m.value]) == ms + [m]
  {
    assert (vs + [m.name, m.value])[..|vs|] == vs;
  }

  lemma FlatNext(s: seq<Value>, built: seq<Member>, n: nat)
    requires 0 < n <= |built|
    ensures s + Flat(built, n - 1) + [built[n - 1].name] + [built[n - 1].value] == s + Flat(built, n)
  {
  }

  lemma AppendNext(s: seq<Value>, built: seq<Value>, n: nat)
    requires 0 < n <= |built|
    ensures s + built[..n - 1] + [built[n - 1]] == s + built[..n]
  {
  }

  lemma {:induction false} ElementsBuild(s: seq<Value>, v: Value, n: nat)
    requires v.Array? && NamesAreStrings(v) && NumbersFit(v) && n <= |v.elems|
    ensures Feed(s, ElementEvents(v, n)) == Stack(s + Normal(v).elems[..n])
    decreases v, n, 0
  {
    var built := Normal(v).elems;
    if n == 0 {
      assert s + built[..0] == s;
    } else {
      var before := s + built[..n - 1];
      var e := v.elems[n - 1];
      assert built[n - 1] == Normal(e);
      ElementsBuild(s, v, n - 1);
      AcceptBuildsNormal(before, e);
      FeedTwo(s, ElementEvents(v, n - 1), before, Events(e), before + [Normal(e)]);
      AppendNext(s, built, n);
    }
  }

  /** The first `n` members as name, value, name, value, ... */
  function Flat(ms: seq<Member>, n: nat): (vs: seq<Value>)
    requires n <= |ms|
    ensures |vs| == 2 * n
  {
    if n == 0 then [] else Flat(ms, n - 1) + [ms[n - 1].name, ms[n - 1].value]
  }

  lemma {:induction false} MembersBuild(s: seq<Value>, v: Value, n: nat)
    requires v.Object? && NamesAreStrings(v) && NumbersFit(v) && n <= |v.members|
    ensures Feed(s, MemberEvents(v, n)) == Stack(s + Flat(Normal(v).members, n))
    decreases v, n, 0
  {
    var built := Normal(v).members;
    if n == 0 {
      assert s + Flat(built, 0) == s;
    } else {
      var m := v.members[n - 1];
      var name, value := Normal(m.name), Normal(m.value);
      assert built[n - 1] == Member(name, value);
      var key := KeyEvent(m.name.text, m.name.kind != ConstStr);
      var before := s + Flat(built, n - 1);
      MembersBuild(s, v, n - 1);
      FeedOne(before, key);
      FeedTwo(s, MemberEvents(v, n - 1), before, [key], before + [name]);
      AcceptBuildsNormal(before + [name], m.value);
      FeedTwo(s, MemberEvents(v, n - 1) + [key], before + [name], Events(m.value), before + [name] + [value]);
      FlatNext(s, built, n);
    }
  }

  /** Every number and string, at any depth, is flagged as a constructor flags it. */
  predicate Canonical(v: Value)
    decreases v
  {
    match v
    case Number(f, bits) => CanonicalNumber(f, bits)
    case Str(kind, text) => kind == ConstStr || kind == if |text| <= SHORT_MAX then ShortStr else CopyStr
    case Array(elems) => forall i | 0 <= i < |elems| :: Canonical(elems[i])
    case Object(members) =>
      forall i | 0 <= i < |members| :: Canonical(members[i].name) && Canonical(members[i].value)
    case _ => true
  }

  lemma {:induction false} NormalNumberIff(f: NumFlags, bits: nat)
    requires bits < TWO64
    ensures NormalNumber(f, bits) == Number(f, bits) <==> CanonicalNumber(f, bits)
  {
    var low := bits % TWO32;
    if f.isDouble {
    } else if f.isInt {
      IntegerConstructorsAgree(Signed32(low));
    } else if f.isUint {
      IntegerConstructorsAgree(low);
    } else if f.isInt64 {
      IntegerConstructorsAgree(Signed64(bits));
    } else {
      IntegerConstructorsAgree(bits);
    }
  }

  /** Printing a value as events and building it back returns the value itself exactly when
      all its numbers and strings are flagged as constructors flag them. */
  lemma {:induction false} RoundTripIff(v: Value)
    requires NumbersFit(v)
    ensures Normal(v) == v <==> Canonical(v)
    decreases v
  {
    match v
    case Number(f, bits) => NormalNumberIff(f, bits);
    case Array(elems) =>
      forall i | 0 <= i < |elems| ensures Normal(v).elems[i] == elems[i] <==> Canonical(elems[i]) {
        RoundTripIff(elems[i]);
      }
      if Canonical(v) { assert Normal(v).elems == elems; }
    case Object(members) =>
      forall i | 0 <= i < |members|
        ensures Normal(v).members[i] == members[i] <==> Canonical(members[i].name) && Canonical(members[i].value)
      {
        RoundTripIff(members[i].name);
        RoundTripIff(members[i].value);
      }
      if Canonical(v) { assert Normal(v).members == members; }
    case _ =>
  }

  /** The one constructor whose value does not survive: the default number comes back as the
      double zero. */
  lemma {:induction false} DefaultZeroBecomesDouble()
    ensures Feed([], Events(DEFAULT_ZERO)) == Stack([FromDouble(0)])
    ensures DEFAULT_ZERO != FromDouble(0)
  {
    AcceptBuildsNormal([], DEFAULT_ZERO);
  }

  // -------------------------------------------------------------- the program

  /** GenericDocument: a root value and the stack its handler methods work on. */
  class GenericDocument {
    var root: Value
    var stack: seq<Value>

    constructor ()
      ensures root == Null && stack == []
    {
      root, stack := Null, [];
    }

    method Push(v: Value)
      modifies `stack
      ensures stack == old(stack) + [v]
    {
      stack := stack + [v];
    }

    method Number(e: Event) returns (ok: bool)
      requires e.IntEvent? || e.UintEvent? || e.Int64Event? || e.Uint64Event? || e.DoubleEvent?
      requires Handle(stack, e).Stack?
      modifies `stack
      ensures ok && Stack(stack) == Handle(old(stack), e)
    {
      ok := true;
      match e
      case IntEvent(i) => Push(FromInt(i));
      case UintEvent(u) => Push(FromUint(u));
      case Int64Event(i) => Push(FromInt64(i));
      case Uint64Event(u) => Push(FromUint64(u));
      case DoubleEvent(bits) => Push(FromDouble(bits));
    }

    method String(text: seq<char>, copy: bool) returns (ok: bool)
      modifies `stack
      ensures ok && Stack(stack) == Handle(old(stack), StringEvent(text, copy))
    {
      if copy {
        Push(FromCopiedString(text));
      } else {
        Push(FromConstString(text));
      }
      ok := true;
    }

    method StartObject() returns (ok: bool)
      modifies `stack
      ensures ok && Stack(stack) == Handle(old(stack), StartObjectEvent)
    {
      Push(Object([]));
      ok := true;
    }

    /** Pop the members off, turn the value below them into the object. */
    method EndObject(memberCount: nat) returns (ok: bool)
      requires 2 * memberCount < |stack|
      modifies `stack
      ensures ok && Stack(stack) == Handle(old(stack), EndObjectEvent(memberCount))
    {
      var members := Top(stack, 2 * memberCount);
      stack := Below(stack, 2 * memberCount) + [Object(Pairs(members))];
      ok := true;
    }

    method StartArray() returns (ok: bool)
      modifies `stack
      ensures ok && Stack(stack) == Handle(old(stack), StartArrayEvent)
    {
      Push(Array([]));
      ok := true;
    }

    method EndArray(elementCount: nat) returns (ok: bool)
      requires elementCount < |stack|
      modifies `stack
      ensures ok && Stack(stack) == Handle(old(stack), EndArrayEvent(elementCount))
    {
      var elements := Top(stack, elementCount);
      stack := Below(stack, elementCount) + [Array(elements)];
      ok := true;
    }

    /** Populate, with `v`'s Accept as the generator: the stack must come back with exactly
        one value, which becomes the root; the stack is cleared on every exit. */
    method Populate(v: Value)
      requires stack == [] && NamesAreStrings(v) && NumbersFit(v)
      modifies this
      ensures root == Normal(v) && stack == []
    {
      var ok := Accept(v, this);
      if ok {
        root := stack[0];
      }
      stack := [];
    }
  }

  /** Accept: visit the value in document order, stopping when the handler says so. */
  method Accept(v: Value, handler: GenericDocument) returns (ok: bool)
    requires NamesAreStrings(v) && NumbersFit(v)
    modifies handler`stack
    ensures ok && handler.stack == old(handler.stack) + [Normal(v)]
    decreases v, 2
  {
    match v
    case Null =>
      handler.Push(Null);
      ok := true;
    case Bool(b) =>
      handler.Push(Bool(b));
      ok := true;
    case Number(f, bits) =>
      ok := handler.Number(NumberEvent(f, bits));
    case Str(kind, text) =>
      ok := handler.String(text, kind != ConstStr);
    case Array(elems) =>
      ok := AcceptArray(v, handler);
    case Object(members) =>
      ok := AcceptObject(v, handler);
  }

  /** The array case of Accept. */
  method AcceptArray(v: Value, handler: GenericDocument) returns (ok: bool)
    requires v.Array? && NamesAreStrings(v) && NumbersFit(v)
    modifies handler`stack
    ensures ok && handler.stack == old(handler.stack) + [Normal(v)]
    decreases v, 0
  {
    ghost var built := Normal(v).elems;
    ghost var open := handler.stack + [Array([])];
    ok := handler.StartArray();
    if !ok { return false; }
    assert open + built[..0] == open;
    for i := 0 to |v.elems|
      invariant handler.stack == open + built[..i]
    {
      ok := Accept(v.elems[i], handler);
      if !ok { return false; }
      AppendNext(open, built, i + 1);
    }
    assert built[..|v.elems|] == built;
    CloseArray(old(handler.stack), built);
    ok := handler.EndArray(|v.elems|);
  }

  /** One member: its name as a key event, then its value. */
  method AcceptMember(m: Member, handler: GenericDocument) returns (ok: bool)
    requires m.name.Str? && NamesAreStrings(m.value) && NumbersFit(m.value)
    modifies handler`stack
    ensures ok && handler.stack == old(handler.stack) + [Normal(m.name)] + [Normal(m.value)]
    decreases m
  {
    ok := handler.String(m.name.text, m.name.kind != ConstStr);
    if ok {
      ok := Accept(m.value, handler);
    }
  }

  lemma NormalMember(v: Value, i: nat)
    requires v.Object? && NumbersFit(v) && i < |v.members|
    ensures Normal(v).members[i].name == Normal(v.members[i].name)
            && Normal(v).members[i].value == Normal(v.members[i].value)
  {
  }

  /** One round of the loop over the members, on top of what is `open` below. */
  method AcceptNth(v: Value, i: nat, handler: GenericDocument, ghost open: seq<Value>) returns (ok: bool)
    requires v.Object? && NamesAreStrings(v) && NumbersFit(v) && i < |v.members|
    requires handler.stack == open + Flat(Normal(v).members, i)
    modifies handler`stack
    ensures ok && handler.stack == open + Flat(Normal(v).members, i + 1)
    decreases v, 0
  {
    NormalMember(v, i);
    ok := AcceptMember(v.members[i], handler);
    FlatNext(open, Normal(v).members, i + 1);
  }

  /** The object case of Accept. */
  method AcceptObject(v: Value, handler: GenericDocument) returns (ok: bool)
    requires v.Object? && NamesAreStrings(v) && NumbersFit(v)
    modifies handler`stack
    ensures ok && handler.stack == old(handler.stack) + [Normal(v)]
    decreases v, 1
  {
    ghost var built := Normal(v).members;
    ghost var open := handler.stack + [Object([])];
    ok := handler.StartObject();
    if !ok { return false; }
    assert open + Flat(built, 0) == open;
    for i := 0 to |v.members|
      invariant handler.stack == open + Flat(built, i)
    {
      ok := AcceptNth(v, i, handler, open);
      if !ok { return false; }
    }
    CloseObject(old(handler.stack), built);
    ok := handler.EndObject(|v.members|);
  }
}
