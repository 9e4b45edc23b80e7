/** The reflective codec of codec/reflectcodec/type_codec.go as a printer and a parser indexed by
types. Packing is that of utils/wrappers/packing.go. */
module Codec {
  import opened Options
  import opened ByteStrings
  import opened BigEndian

  /*
  A type that refers to itself does so through a slice or an interface, whose encoding takes at least
  four bytes, so parsing ends; a Go type that refers to itself through pointers alone has no finite
  value and no place in `Ty`.
  */

  type Name = string

  const MAX_INT32 := 0x7FFF_FFFF
  const MAX_STRING_LEN := 0xFFFF

  /** uint32(n) */
  function Wrap32(n: nat): nat {
    n % 0x1_0000_0000
  }

  // ---- types and values ---------------------------------------------------------------------

  datatype Ty =
    | Unsigned(width: nat)
    | Signed(width: nat)
    | Bool
    | Str
    | Slice(elem: Name)
    | Array(len: nat, item: Ty)
    | Struct(fields: Fields)
    | Ptr(target: Ty)
    | Iface(iface: Name)

  /** The serialized fields of a struct, each with its maximum slice length. */
  datatype Fields = NoFields | MoreFields(ty: Ty, maxLen: nat, rest: Fields)

  datatype Value =
    | Num(n: int)
    | Flag(b: bool)
    | Text(s: Bytes)
    | NilSlice
    | Elems(vs: Values)
    | Tuple(vs: Values)
    | NilPtr
    | To(v: Value)
    | NilIface
    | Dyn(name: Name, v: Value)

  datatype Values = Nil | Cons(head: Value, tail: Values)

  /** The named types, the registry of interface implementations in both directions, which type
      implements which interface, and the codec's own maximum slice length. */
  datatype Env = Env(types: Name -> Ty, ids: map<Name, nat>, names: map<nat, Name>, implements: (Name, Name) -> bool,
                     maxLen: nat)

  /** Type IDs are uint32. */
  ghost predicate IdsFit(env: Env) {
    forall x :: x in env.ids ==> env.ids[x] < Range(4)
  }

  /** What linearcodec keeps: type IDs fit four bytes and the two maps are inverse. */
  ghost predicate Registered(env: Env) {
    forall x :: x in env.ids ==> env.ids[x] < Range(4) && env.ids[x] in env.names && env.names[env.ids[x]] == x
  }

  ghost predicate RegisteredBack(env: Env) {
    forall i :: i in env.names ==> env.names[i] in env.ids && env.ids[env.names[i]] == i
  }

  function Len(vs: Values): nat {
    if vs.Nil? then 0 else 1 + Len(vs.tail)
  }

  predicate Typed(env: Env, ty: Ty, v: Value)
    decreases v
  {
    match ty
    case Unsigned(w) => v.Num? && 0 <= v.n < Range(w)
    case Signed(w) => v.Num? && IsSigned(v.n, w)
    case Bool => v.Flag?
    case Str => v.Text?
    case Slice(e) => v.NilSlice? || (v.Elems? && TypedAll(env, env.types(e), v.vs))
    case Array(n, e) => v.Tuple? && Len(v.vs) == n && TypedAll(env, e, v.vs)
    case Struct(fs) => v.Tuple? && TypedFields(env, fs, v.vs)
    case Ptr(t) => v.NilPtr? || (v.To? && Typed(env, t, v.v))
    case Iface(i) => v.NilIface? || (v.Dyn? && env.implements(v.name, i) && Typed(env, env.types(v.name), v.v))
  }

  predicate TypedAll(env: Env, ty: Ty, vs: Values)
    decreases vs
  {
    vs.Nil? || (Typed(env, ty, vs.head) && TypedAll(env, ty, vs.tail))
  }

  predicate TypedFields(env: Env, fs: Fields, vs: Values)
    decreases vs
  {
    match fs
    case NoFields => vs.Nil?
    case MoreFields(ty, _, rest) => vs.Cons? && Typed(env, ty, vs.head) && TypedFields(env, rest, vs.tail)
  }

  // ---- printing -----------------------------------------------------------------------------

  function Join(a: Option<Bytes>, b: Option<Bytes>): Option<Bytes> {
    if a.Some? && b.Some? then Some(a.value + b.value) else None
  }

  /** A slice of bytes is packed as a block. */
  function Octets(env: Env, vs: Values): Bytes
    requires TypedAll(env, Unsigned(1), vs)
  {
    if vs.Nil? then [] else
      assert Typed(env, Unsigned(1), vs.head);
      assert Range(1) == 256 * Range(0);
      [vs.head.n] + Octets(env, vs.tail)
  }

  /** The length of a slice, packed as a uint32. */
  function LengthBytes(vs: Values): Bytes {
    Digits(Wrap32(Len(vs)), 4)
  }

  /** marshal; None is an error: a nil pointer or interface, an unregistered type, something too long. */
  function Encode(env: Env, ty: Ty, max: nat, v: Value): Option<Bytes>
    requires Typed(env, ty, v)
    decreases v
  {
    match ty
    case Unsigned(w) => Some(Digits(v.n, w))
    case Signed(w) => Some(Digits(ToUnsigned(v.n, w), w))
    case Bool => Some(if v.b then [1] else [0])
    case Str => if |v.s| > MAX_STRING_LEN then None else Some(Digits(|v.s|, 2) + v.s)
    case Slice(e) =>
      if v.NilSlice? then Some(Digits(0, 4))
      else if Wrap32(Len(v.vs)) > max then None
      else
        var t := env.types(e);
        Join(Some(LengthBytes(v.vs)), if t == Unsigned(1) then Some(Octets(env, v.vs)) else EncodeAll(env, t, v.vs))
    case Array(n, t) => if Wrap32(n) > env.maxLen then None else EncodeAll(env, t, v.vs)
    case Struct(fs) => EncodeFields(env, fs, v.vs)
    case Ptr(t) => if v.NilPtr? then None else Encode(env, t, env.maxLen, v.v)
    case Iface(_) =>
      if v.NilIface? || v.name !in env.ids then None
      else Join(Some(Digits(env.ids[v.name], 4)), Encode(env, env.types(v.name), env.maxLen, v.v))
  }

  function EncodeAll(env: Env, ty: Ty, vs: Values): Option<Bytes>
    requires TypedAll(env, ty, vs)
    decreases vs
  {
    if vs.Nil? then Some([]) else Join(Encode(env, ty, env.maxLen, vs.head), EncodeAll(env, ty, vs.tail))
  }

  function EncodeFields(env: Env, fs: Fields, vs: Values): Option<Bytes>
    requires TypedFields(env, fs, vs)
    decreases vs
  {
    match fs
    case NoFields => Some([])
    case MoreFields(ty, max, rest) => Join(Encode(env, ty, max, vs.head), EncodeFields(env, rest, vs.tail))
  }

  // ---- parsing ------------------------------------------------------------------------------

  datatype Parsed<T> = Parsed(value: T, rest: Bytes)

  /** CheckSpace and the read of n bytes. */
  function Take(b: Bytes, n: nat): (r: Option<Parsed<Bytes>>)
    ensures r.Some? ==> |r.value.value| == n && |r.value.rest| == |b| - n
  {
    if |b| < n then None else Some(Parsed(b[..n], b[n..]))
  }

  function TakeNumber(b: Bytes, w: nat): (r: Option<Parsed<nat>>)
    ensures r.Some? ==> |r.value.rest| == |b| - w
  {
    var t := Take(b, w);
    if t.None? then None else Some(Parsed(Number(t.value.value), t.value.rest))
  }

  function FromOctets(b: Bytes): Values {
    if b == [] then Nil else Cons(Num(b[0]), FromOctets(b[1..]))
  }

  function ParseNumber(b: Bytes, w: nat, signed: bool): (r: Option<Parsed<Value>>)
    ensures r.Some? ==> |r.value.rest| == |b| - w
  {
    var t := TakeNumber(b, w);
    if t.None? then None else Some(Parsed(Num(if signed then ToSigned(t.value.value, w) else t.value.value), t.value.rest))
  }

  function ParseBool(b: Bytes): (r: Option<Parsed<Value>>)
    ensures r.Some? ==> |r.value.rest| == |b| - 1
  {
    if b == [] || b[0] > 1 then None else Some(Parsed(Flag(b[0] == 1), b[1..]))
  }

  function ParseText(b: Bytes): (r: Option<Parsed<Value>>)
    ensures r.Some? ==> |r.value.rest| <= |b|
  {
    var n := TakeNumber(b, 2);
    if n.None? then None
    else
      var t := Take(n.value.rest, n.value.value);
      if t.None? then None else Some(Parsed(Text(t.value.value), t.value.rest))
  }

  function ParseOctets(b: Bytes, n: nat, tuple: bool): (r: Option<Parsed<Value>>)
    ensures r.Some? ==> |r.value.rest| <= |b|
  {
    var t := Take(b, n);
    if t.None? then None
    else Some(Parsed(if tuple then Tuple(FromOctets(t.value.value)) else Elems(FromOctets(t.value.value)), t.value.rest))
  }

  /** unmarshal into a fresh value of the type. */
  function Decode(env: Env, ty: Ty, max: nat, b: Bytes): (r: Option<Parsed<Value>>)
    ensures r.Some? ==> |r.value.rest| <= |b|
    decreases |b|, ty, 0
  {
    match ty
    case Unsigned(w) => ParseNumber(b, w, false)
    case Signed(w) => ParseNumber(b, w, true)
    case Bool => ParseBool(b)
    case Str => ParseText(b)
    case Slice(e) =>
      var n := TakeNumber(b, 4);
      if n.None? || n.value.value > max || n.value.value > MAX_INT32 then None
      else if env.types(e) == Unsigned(1) then ParseOctets(n.value.rest, n.value.value, false)
      else
        var r := DecodeAll(env, env.types(e), n.value.value, n.value.rest);
        if r.None? then None else Some(Parsed(Elems(r.value.value), r.value.rest))
    case Array(n, t) =>
      if t == Unsigned(1) then ParseOctets(b, n, true)
      else
        var r := DecodeAll(env, t, n, b);
        if r.None? then None else Some(Parsed(Tuple(r.value.value), r.value.rest))
    case Struct(fs) =>
      var r := DecodeFields(env, fs, b);
      if r.None? then None else Some(Parsed(Tuple(r.value.value), r.value.rest))
    case Ptr(t) =>
      var r := Decode(env, t, env.maxLen, b);
      if r.None? then None else Some(Parsed(To(r.value.value), r.value.rest))
    case Iface(i) =>
      var id := TakeNumber(b, 4);
      if id.None? || id.value.value !in env.names || !env.implements(env.names[id.value.value], i) then None
      else
        var name := env.names[id.value.value];
        var r := Decode(env, env.types(name), env.maxLen, id.value.rest);
        if r.None? then None else Some(Parsed(Dyn(name, r.value.value), r.value.rest))
  }

  function DecodeAll(env: Env, ty: Ty, n: nat, b: Bytes): (r: Option<Parsed<Values>>)
    ensures r.Some? ==> |r.value.rest| <= |b|
    decreases |b|, ty, n + 1
  {
    if n == 0 then Some(Parsed(Nil, b))
    else
      var h := Decode(env, ty, env.maxLen, b);
      if h.None? then None
      else
        var t := DecodeAll(env, ty, n - 1, h.value.rest);
        if t.None? then None else Some(Parsed(Cons(h.value.value, t.value.value), t.value.rest))
  }

  function DecodeFields(env: Env, fs: Fields, b: Bytes): (r: Option<Parsed<Values>>)
    ensures r.Some? ==> |r.value.rest| <= |b|
    decreases |b|, fs, 0
  {
    match fs
    case NoFields => Some(Parsed(Nil, b))
    case MoreFields(ty, max, rest) =>
      var h := Decode(env, ty, max, b);
      if h.None? then None
      else
        var t := DecodeFields(env, rest, h.value.rest);
        if t.None? then None else Some(Parsed(Cons(h.value.value, t.value.value), t.value.rest))
  }

  // ---- what comes back ----------------------------------------------------------------------

  /** Nil slices come back empty. */
  function Norm(v: Value): Value {
    match v
    case NilSlice => Elems(Nil)
    case Elems(vs) => Elems(NormAll(vs))
    case Tuple(vs) => Tuple(NormAll(vs))
    case To(x) => To(Norm(x))
    case Dyn(name, x) => Dyn(name, Norm(x))
    case _ => v
  }

  function NormAll(vs: Values): Values {
    if vs.Nil? then Nil else Cons(Norm(vs.head), NormAll(vs.tail))
  }

  /** No slice has more than math.MaxInt32 elements. */
  predicate SlicesFit(v: Value) {
    match v
    case Elems(vs) => Len(vs) <= MAX_INT32 && AllSlicesFit(vs)
    case Tuple(vs) => AllSlicesFit(vs)
    case To(x) => SlicesFit(x)
    case Dyn(_, x) => SlicesFit(x)
    case _ => true
  }

  predicate AllSlicesFit(vs: Values) {
    vs.Nil? || (SlicesFit(vs.head) && AllSlicesFit(vs.tail))
  }

  lemma Associative(a: Bytes, b: Bytes, c: Bytes)
    ensures a + b + c == a + (b + c)
  {
  }

  lemma TakeConcat(a: Bytes, b: Bytes)
    ensures Take(a + b, |a|) == Some(Parsed(a, b))
  {
    assert (a + b)[..|a|] == a && (a + b)[|a|..] == b;
  }

  lemma TakeDigits(n: nat, w: nat, b: Bytes)
    requires n < Range(w)
    ensures TakeNumber(Digits(n, w) + b, w) == Some(Parsed(n, b))
  {
    TakeConcat(Digits(n, w), b);
    NumberOfDigits(n, w);
  }

  lemma Ranges()
    ensures Range(1) == 0x100 && Range(2) == 0x1_0000 && Range(4) == 0x1_0000_0000
  {
    assert Range(0) == 1 && Range(1) == 256 * Range(0) && Range(2) == 256 * Range(1) && Range(3) == 256 * Range(2);
  }

  lemma {:induction false} OctetsLength(env: Env, vs: Values)
    requires TypedAll(env, Unsigned(1), vs)
    ensures |Octets(env, vs)| == Len(vs)
  {
    if vs.Cons? { OctetsLength(env, vs.tail); }
  }

  lemma {:induction false} OctetsBack(env: Env, vs: Values)
    requires TypedAll(env, Unsigned(1), vs)
    ensures FromOctets(Octets(env, vs)) == NormAll(vs)
  {
    if vs.Cons? {
      OctetsBack(env, vs.tail);
      assert Octets(env, vs)[1..] == Octets(env, vs.tail);
      assert Typed(env, Unsigned(1), vs.head);
    }
  }

  /** Bytes one by one are the bytes as a block. */
  lemma {:induction false} OctetsOneByOne(env: Env, vs: Values)
    requires TypedAll(env, Unsigned(1), vs)
    ensures EncodeAll(env, Unsigned(1), vs) == Some(Octets(env, vs))
  {
    if vs.Cons? {
      OctetsOneByOne(env, vs.tail);
      assert Typed(env, Unsigned(1), vs.head);
      OneDigit(vs.head.n);
    }
  }

  lemma OneDigit(n: nat)
    requires n < 256
    ensures Digits(n, 1) == [n]
  {
    assert Digits(n / 256, 0) == [];
  }

  // ---- the round trip -----------------------------------------------------------------------

  lemma RoundTripText(env: Env, max: nat, v: Value, s: Bytes)
    requires v.Text? && |v.s| <= MAX_STRING_LEN
    ensures ParseText(Digits(|v.s|, 2) + v.s + s) == Some(Parsed(v, s))
  {
    Ranges();
    Associative(Digits(|v.s|, 2), v.s, s);
    TakeDigits(|v.s|, 2, v.s + s);
    TakeConcat(v.s, s);
  }

  lemma RoundTripNumber(v: Value, w: nat, signed: bool, s: Bytes)
    requires v.Num? && if signed then IsSigned(v.n, w) else 0 <= v.n < Range(w)
    ensures ParseNumber(Digits(if signed then ToUnsigned(v.n, w) else v.n, w) + s, w, signed) == Some(Parsed(v, s))
  {
    if signed {
      SignedRoundTrip(v.n, w);
      TakeDigits(ToUnsigned(v.n, w), w, s);
    } else {
      TakeDigits(v.n, w, s);
    }
  }

  /** For every value that marshal accepts, whose slices are not absurdly long, and every suffix:
      unmarshal at that type gives the value back and leaves the suffix. */
  lemma {:induction false} RoundTrip(env: Env, ty: Ty, max: nat, v: Value, s: Bytes)
    requires Registered(env) && Typed(env, ty, v) && SlicesFit(v) && Encode(env, ty, max, v).Some?
    ensures Decode(env, ty, max, Encode(env, ty, max, v).value + s) == Some(Parsed(Norm(v), s))
    decreases v, 1
  {
    match ty
    case Unsigned(w) => RoundTripNumber(v, w, false, s);
    case Signed(w) => RoundTripNumber(v, w, true, s);
    case Bool => assert ([if v.b then 1 else 0] + s)[1..] == s;
    case Str => RoundTripText(env, max, v, s);
    case Slice(e) => RoundTripSlice(env, e, max, v, s);
    case Array(n, t) => RoundTripArray(env, n, t, max, v, s);
    case Struct(fs) => RoundTripFields(env, fs, v.vs, s);
    case Ptr(t) => RoundTrip(env, t, env.maxLen, v.v, s);
    case Iface(i) =>
      var id, body := env.ids[v.name], Encode(env, env.types(v.name), env.maxLen, v.v).value;
      Associative(Digits(id, 4), body, s);
      TakeDigits(id, 4, body + s);
      RoundTrip(env, env.types(v.name), env.maxLen, v.v, s);
  }

  lemma {:induction false} RoundTripAll(env: Env, ty: Ty, vs: Values, s: Bytes)
    requires Registered(env) && TypedAll(env, ty, vs) && AllSlicesFit(vs) && EncodeAll(env, ty, vs).Some?
    ensures DecodeAll(env, ty, Len(vs), EncodeAll(env, ty, vs).value + s) == Some(Parsed(NormAll(vs), s))
    decreases vs, 1
  {
    if vs.Cons? {
      var h, t := Encode(env, ty, env.maxLen, vs.head).value, EncodeAll(env, ty, vs.tail).value;
      Associative(h, t, s);
      RoundTrip(env, ty, env.maxLen, vs.head, t + s);
      RoundTripAll(env, ty, vs.tail, s);
    } else {
      assert [] + s == s;
    }
  }

  lemma {:induction false} RoundTripFields(env: Env, fs: Fields, vs: Values, s: Bytes)
    requires Registered(env) && TypedFields(env, fs, vs) && AllSlicesFit(vs) && EncodeFields(env, fs, vs).Some?
    ensures DecodeFields(env, fs, EncodeFields(env, fs, vs).value + s) == Some(Parsed(NormAll(vs), s))
    decreases vs, 1
  {
    match fs
    case NoFields => assert [] + s == s;
    case MoreFields(ty, max, rest) =>
      var h, t := Encode(env, ty, max, vs.head).value, EncodeFields(env, rest, vs.tail).value;
      Associative(h, t, s);
      RoundTrip(env, ty, max, vs.head, t + s);
      RoundTripFields(env, rest, vs.tail, s);
  }

  function SliceBody(env: Env, t: Ty, vs: Values): Option<Bytes>
    requires TypedAll(env, t, vs)
  {
    if t == Unsigned(1) then Some(Octets(env, vs)) else EncodeAll(env, t, vs)
  }

  lemma NoWrap(vs: Values)
    requires Len(vs) <= MAX_INT32
    ensures Wrap32(Len(vs)) == Len(vs)
  {
  }

  /** A slice is its length and its items. */
  lemma SliceForm(env: Env, e: Name, max: nat, vs: Values)
    requires Typed(env, Slice(e), Elems(vs)) && Encode(env, Slice(e), max, Elems(vs)).Some?
    ensures TypedAll(env, env.types(e), vs) && Wrap32(Len(vs)) <= max && SliceBody(env, env.types(e), vs).Some?
    ensures Encode(env, Slice(e), max, Elems(vs)).value == LengthBytes(vs) + SliceBody(env, env.types(e), vs).value
  {
  }

  lemma {:induction false} RoundTripSlice(env: Env, e: Name, max: nat, v: Value, s: Bytes)
    requires Registered(env) && Typed(env, Slice(e), v) && SlicesFit(v) && Encode(env, Slice(e), max, v).Some?
    ensures Decode(env, Slice(e), max, Encode(env, Slice(e), max, v).value + s) == Some(Parsed(Norm(v), s))
    decreases v, 0
  {
    if v.Elems? {
      NoWrap(v.vs);
      SliceForm(env, e, max, v.vs);
      RoundTripItems(env, e, max, v.vs, s);
    } else {
      TakeDigits(0, 4, s);
      assert [] + s == s;
      TakeConcat([], s);
    }
  }

  lemma {:induction false} RoundTripItems(env: Env, e: Name, max: nat, vs: Values, s: Bytes)
    requires Registered(env) && TypedAll(env, env.types(e), vs) && AllSlicesFit(vs) && Len(vs) <= max && Len(vs) <= MAX_INT32
    requires SliceBody(env, env.types(e), vs).Some?
    ensures var body := SliceBody(env, env.types(e), vs).value;
            Decode(env, Slice(e), max, Digits(Len(vs), 4) + body + s) == Some(Parsed(Elems(NormAll(vs)), s))
    decreases vs, 2
  {
    var t, n := env.types(e), Len(vs);
    var body := SliceBody(env, t, vs).value;
    Ranges();
    Associative(Digits(n, 4), body, s);
    TakeDigits(n, 4, body + s);
    if t == Unsigned(1) {
      OctetsLength(env, vs);
      OctetsBack(env, vs);
      TakeConcat(body, s);
    } else {
      RoundTripAll(env, t, vs, s);
    }
  }

  lemma {:induction false} RoundTripArray(env: Env, n: nat, t: Ty, max: nat, v: Value, s: Bytes)
    requires Registered(env) && Typed(env, Array(n, t), v) && SlicesFit(v) && Encode(env, Array(n, t), max, v).Some?
    ensures Decode(env, Array(n, t), max, Encode(env, Array(n, t), max, v).value + s) == Some(Parsed(Norm(v), s))
    decreases v, 0
  {
    if t == Unsigned(1) {
      OctetsOneByOne(env, v.vs);
      OctetsLength(env, v.vs);
      OctetsBack(env, v.vs);
      TakeConcat(Octets(env, v.vs), s);
    } else {
      RoundTripAll(env, t, v.vs, s);
    }
  }

  // ---- what unmarshal can produce -----------------------------------------------------------

  lemma {:induction false} FromOctetsSound(env: Env, b: Bytes)
    ensures var vs := FromOctets(b);
            && TypedAll(env, Unsigned(1), vs) && AllSlicesFit(vs) && NormAll(vs) == vs && Len(vs) == |b|
            && Octets(env, vs) == b
  {
    if b != [] {
      Ranges();
      FromOctetsSound(env, b[1..]);
      assert Typed(env, Unsigned(1), Num(b[0]));
      assert b == [b[0]] + b[1..];
    }
  }

  lemma {:induction false} TakeNumberBelow(b: Bytes, w: nat)
    requires TakeNumber(b, w).Some?
    ensures TakeNumber(b, w).value.value < Range(w)
    ensures Digits(TakeNumber(b, w).value.value, w) + TakeNumber(b, w).value.rest == b
  {
    DigitsOfNumber(b[..w]);
    assert b[..w] + b[w..] == b;
  }

  ghost predicate Sound(env: Env, ty: Ty, v: Value) {
    Typed(env, ty, v) && SlicesFit(v) && Norm(v) == v
  }

  ghost predicate SoundAll(env: Env, ty: Ty, vs: Values) {
    TypedAll(env, ty, vs) && AllSlicesFit(vs) && NormAll(vs) == vs
  }

  /** Whatever bytes are given: a value that comes out has the type, and no slice in it is nil or
      longer than math.MaxInt32. */
  lemma {:induction false} DecodeSound(env: Env, ty: Ty, max: nat, b: Bytes)
    requires Decode(env, ty, max, b).Some?
    ensures Sound(env, ty, Decode(env, ty, max, b).value.value)
    decreases |b|, ty, 1
  {
    match ty
    case Unsigned(w) => TakeNumberBelow(b, w);
    case Signed(w) =>
      TakeNumberBelow(b, w);
      UnsignedRoundTrip(TakeNumber(b, w).value.value, w);
    case Bool =>
    case Str =>
    case Slice(e) => DecodeSliceSound(env, e, max, b);
    case Array(n, t) => DecodeArraySound(env, n, t, max, b);
    case Struct(fs) => DecodeFieldsSound(env, fs, b);
    case Ptr(t) => DecodeSound(env, t, env.maxLen, b);
    case Iface(i) =>
      var id := TakeNumber(b, 4).value;
      DecodeSound(env, env.types(env.names[id.value]), env.maxLen, id.rest);
  }

  lemma {:induction false} DecodeSliceSound(env: Env, e: Name, max: nat, b: Bytes)
    requires Decode(env, Slice(e), max, b).Some?
    ensures Sound(env, Slice(e), Decode(env, Slice(e), max, b).value.value)
    decreases |b|, Slice(e), 0
  {
    var n := TakeNumber(b, 4).value;
    if env.types(e) == Unsigned(1) {
      FromOctetsSound(env, n.rest[..n.value]);
    } else {
      DecodeAllSound(env, env.types(e), n.value, n.rest);
    }
  }

  lemma {:induction false} DecodeArraySound(env: Env, n: nat, t: Ty, max: nat, b: Bytes)
    requires Decode(env, Array(n, t), max, b).Some?
    ensures Sound(env, Array(n, t), Decode(env, Array(n, t), max, b).value.value)
    decreases |b|, Array(n, t), 0
  {
    if t == Unsigned(1) { FromOctetsSound(env, b[..n]); } else { DecodeAllSound(env, t, n, b); }
  }

  lemma {:induction false} DecodeAllSound(env: Env, ty: Ty, n: nat, b: Bytes)
    requires DecodeAll(env, ty, n, b).Some?
    ensures SoundAll(env, ty, DecodeAll(env, ty, n, b).value.value) && Len(DecodeAll(env, ty, n, b).value.value) == n
    decreases |b|, ty, n + 2
  {
    if n > 0 {
      DecodeSound(env, ty, env.maxLen, b);
      DecodeAllSound(env, ty, n - 1, Decode(env, ty, env.maxLen, b).value.rest);
    }
  }

  lemma {:induction false} DecodeFieldsSound(env: Env, fs: Fields, b: Bytes)
    requires DecodeFields(env, fs, b).Some?
    ensures var vs := DecodeFields(env, fs, b).value.value;
            TypedFields(env, fs, vs) && AllSlicesFit(vs) && NormAll(vs) == vs
    decreases |b|, fs, 0
  {
    match fs
    case NoFields =>
    case MoreFields(ty, max, rest) =>
      DecodeSound(env, ty, max, b);
      DecodeFieldsSound(env, rest, Decode(env, ty, max, b).value.rest);
  }

  lemma {:induction false} NormFits(v: Value)
    ensures SlicesFit(Norm(v)) <==> SlicesFit(v)
  {
    match v
    case Elems(vs) => NormAllFits(vs);
    case Tuple(vs) => NormAllFits(vs);
    case To(x) => NormFits(x);
    case Dyn(_, x) => NormFits(x);
    case _ =>
  }

  lemma {:induction false} NormAllFits(vs: Values)
    ensures Len(NormAll(vs)) == Len(vs) && (AllSlicesFit(NormAll(vs)) <==> AllSlicesFit(vs))
  {
    if vs.Cons? {
      NormFits(vs.head);
      NormAllFits(vs.tail);
    }
  }

  /** The round trip holds exactly for the values whose slices have at most math.MaxInt32 elements:
      marshal checks lengths only modulo 2^32 against the maximum, unmarshal also against MaxInt32. */
  lemma RoundTripExactly(env: Env, ty: Ty, max: nat, v: Value, s: Bytes)
    requires Registered(env) && Typed(env, ty, v) && Encode(env, ty, max, v).Some?
    ensures Decode(env, ty, max, Encode(env, ty, max, v).value + s) == Some(Parsed(Norm(v), s)) <==> SlicesFit(v)
  {
    var b := Encode(env, ty, max, v).value + s;
    if SlicesFit(v) {
      RoundTrip(env, ty, max, v, s);
    } else if Decode(env, ty, max, b).Some? {
      DecodeSound(env, ty, max, b);
      NormFits(v);
    }
  }

  function Repeat(v: Value, n: nat): Values {
    if n == 0 then Nil else Cons(v, Repeat(v, n - 1))
  }

  lemma {:induction false} RepeatEmpty(env: Env, n: nat)
    ensures var t, vs := Struct(NoFields), Repeat(Tuple(Nil), n);
            Len(vs) == n && TypedAll(env, t, vs) && EncodeAll(env, t, vs) == Some([])
  {
    if n > 0 {
      RepeatEmpty(env, n - 1);
      assert Encode(env, Struct(NoFields), env.maxLen, Tuple(Nil)) == Some([]) by {
        assert EncodeFields(env, NoFields, Nil) == Some([]);
      }
      var none: Bytes := [];
      assert none + none == none;
    }
  }

  /** A slice of 2^31 empty structs marshals to four bytes that unmarshal refuses. */
  lemma LongSliceRefused(env: Env, e: Name, max: nat) returns (v: Value)
    requires env.types(e) == Struct(NoFields) && max > MAX_INT32
    ensures Typed(env, Slice(e), v) && Encode(env, Slice(e), max, v).Some?
    ensures Decode(env, Slice(e), max, Encode(env, Slice(e), max, v).value) == None
  {
    var n := MAX_INT32 + 1;
    v := Elems(Repeat(Tuple(Nil), n));
    RepeatEmpty(env, n);
    Ranges();
    assert Encode(env, Slice(e), max, v) == Some(Digits(n, 4) + []);
    TakeDigits(n, 4, []);
  }

  // ---- which values that come out go in again -----------------------------------------------

  /** No array in the value is longer than the codec's maximum slice length, which marshal checks and
      unmarshal does not. */
  predicate ArraysFit(env: Env, ty: Ty, v: Value)
    requires Typed(env, ty, v)
    decreases v
  {
    match ty
    case Slice(e) => v.NilSlice? || AllArraysFit(env, env.types(e), v.vs)
    case Array(n, t) => Wrap32(n) <= env.maxLen && AllArraysFit(env, t, v.vs)
    case Struct(fs) => FieldArraysFit(env, fs, v.vs)
    case Ptr(t) => v.NilPtr? || ArraysFit(env, t, v.v)
    case Iface(_) => v.NilIface? || ArraysFit(env, env.types(v.name), v.v)
    case _ => true
  }

  predicate AllArraysFit(env: Env, ty: Ty, vs: Values)
    requires TypedAll(env, ty, vs)
    decreases vs
  {
    vs.Nil? || (ArraysFit(env, ty, vs.head) && AllArraysFit(env, ty, vs.tail))
  }

  predicate FieldArraysFit(env: Env, fs: Fields, vs: Values)
    requires TypedFields(env, fs, vs)
    decreases vs
  {
    fs.NoFields? || (ArraysFit(env, fs.ty, vs.head) && FieldArraysFit(env, fs.rest, vs.tail))
  }

  lemma {:induction false} OctetArraysFit(env: Env, vs: Values)
    requires TypedAll(env, Unsigned(1), vs)
    ensures AllArraysFit(env, Unsigned(1), vs)
  {
    if vs.Cons? { OctetArraysFit(env, vs.tail); }
  }

  /** A value that unmarshal gave can be marshalled exactly if its arrays are within the maximum. */
  lemma {:induction false} Remarshals(env: Env, ty: Ty, max: nat, b: Bytes)
    requires RegisteredBack(env) && Decode(env, ty, max, b).Some?
    ensures var v := Decode(env, ty, max, b).value.value;
            Typed(env, ty, v) && (Encode(env, ty, max, v).Some? <==> ArraysFit(env, ty, v))
    decreases |b|, ty, 1
  {
    DecodeSound(env, ty, max, b);
    match ty
    case Str => TakeNumberBelow(b, 2); Ranges();
    case Slice(e) => RemarshalsSlice(env, e, max, b);
    case Array(n, t) =>
      if t == Unsigned(1) {
        FromOctetsSound(env, b[..n]);
        OctetsOneByOne(env, FromOctets(b[..n]));
        OctetArraysFit(env, FromOctets(b[..n]));
      } else {
        RemarshalsAll(env, t, n, b);
      }
    case Struct(fs) => RemarshalsFields(env, fs, b);
    case Ptr(t) => Remarshals(env, t, env.maxLen, b);
    case Iface(i) =>
      var id := TakeNumber(b, 4).value;
      Remarshals(env, env.types(env.names[id.value]), env.maxLen, id.rest);
    case _ =>
  }

  lemma {:induction false} RemarshalsSlice(env: Env, e: Name, max: nat, b: Bytes)
    requires RegisteredBack(env) && Decode(env, Slice(e), max, b).Some?
    ensures var v := Decode(env, Slice(e), max, b).value.value;
            Typed(env, Slice(e), v) && (Encode(env, Slice(e), max, v).Some? <==> ArraysFit(env, Slice(e), v))
    decreases |b|, Slice(e), 0
  {
    var n := TakeNumber(b, 4).value;
    DecodeSound(env, Slice(e), max, b);
    var vs := Decode(env, Slice(e), max, b).value.value.vs;
    if env.types(e) == Unsigned(1) {
      FromOctetsSound(env, n.rest[..n.value]);
      OctetArraysFit(env, vs);
      OctetsOneByOne(env, vs);
    } else {
      RemarshalsAll(env, env.types(e), n.value, n.rest);
    }
    ShortSlice(env, e, max, vs);
  }

  /** A slice within the maximum marshals exactly if its items do. */
  lemma ShortSlice(env: Env, e: Name, max: nat, vs: Values)
    requires Typed(env, Slice(e), Elems(vs)) && Len(vs) <= max && Len(vs) <= MAX_INT32
    requires env.types(e) == Unsigned(1) ==> EncodeAll(env, env.types(e), vs).Some?
    ensures Encode(env, Slice(e), max, Elems(vs)).Some? <==> EncodeAll(env, env.types(e), vs).Some?
  {
    NoWrap(vs);
  }

  lemma {:induction false} RemarshalsAll(env: Env, ty: Ty, n: nat, b: Bytes)
    requires RegisteredBack(env) && DecodeAll(env, ty, n, b).Some?
    ensures var vs := DecodeAll(env, ty, n, b).value.value;
            TypedAll(env, ty, vs) && Len(vs) == n && (EncodeAll(env, ty, vs).Some? <==> AllArraysFit(env, ty, vs))
    decreases |b|, ty, n + 2
  {
    if n > 0 {
      Remarshals(env, ty, env.maxLen, b);
      RemarshalsAll(env, ty, n - 1, Decode(env, ty, env.maxLen, b).value.rest);
    }
  }

  lemma {:induction false} RemarshalsFields(env: Env, fs: Fields, b: Bytes)
    requires RegisteredBack(env) && DecodeFields(env, fs, b).Some?
    ensures var vs := DecodeFields(env, fs, b).value.value;
            TypedFields(env, fs, vs) && (EncodeFields(env, fs, vs).Some? <==> FieldArraysFit(env, fs, vs))
    decreases |b|, fs, 1
  {
    if fs.MoreFields? {
      Remarshals(env, fs.ty, fs.maxLen, b);
      RemarshalsFields(env, fs.rest, Decode(env, fs.ty, fs.maxLen, b).value.rest);
    }
  }

  /** Bytes of an array one longer than the maximum: they unmarshal, and the value does not marshal. */
  lemma LongArrayStuck(env: Env, b: Bytes)
    requires |b| == env.maxLen + 1 && env.maxLen + 1 < 0x1_0000_0000
    ensures var ty := Array(|b|, Unsigned(1));
            var r := Decode(env, ty, env.maxLen, b);
            r.Some? && r.value.rest == [] && Typed(env, ty, r.value.value) && Encode(env, ty, env.maxLen, r.value.value) == None
  {
    FromOctetsSound(env, b[..|b|]);
  }

  // ---- one encoding per value ---------------------------------------------------------------

  /** The bytes that unmarshal to a value are the bytes that the value marshals to, whenever it marshals. */
  lemma CanonicalExactly(env: Env, ty: Ty, max: nat, b: Bytes)
    requires RegisteredBack(env) && Decode(env, ty, max, b).Some?
    ensures var r := Decode(env, ty, max, b).value;
            && Typed(env, ty, r.value) && (Encode(env, ty, max, r.value).Some? <==> ArraysFit(env, ty, r.value))
            && (ArraysFit(env, ty, r.value) ==> Encode(env, ty, max, r.value).value + r.rest == b)
  {
    Remarshals(env, ty, max, b);
    if ArraysFit(env, ty, Decode(env, ty, max, b).value.value) { Canonical(env, ty, max, b); }
  }

  /** The same types and registry without a maximum. */
  function Unlimited(env: Env): Env {
    env.(maxLen := env.maxLen + 0x1_0000_0000)
  }

  /** Raising the codec's maximum changes nothing about what was accepted before. */
  lemma {:induction false} DecodeUnlimited(env: Env, ty: Ty, max: nat, max': nat, b: Bytes)
    requires max <= max' && Decode(env, ty, max, b).Some?
    ensures Decode(Unlimited(env), ty, max', b) == Decode(env, ty, max, b)
    decreases |b|, ty, 0
  {
    var env', m, m' := Unlimited(env), env.maxLen, Unlimited(env).maxLen;
    match ty
    case Slice(e) =>
      var n := TakeNumber(b, 4).value;
      if env.types(e) != Unsigned(1) { DecodeAllUnlimited(env, env.types(e), n.value, n.rest); }
    case Array(n, t) => if t != Unsigned(1) { DecodeAllUnlimited(env, t, n, b); }
    case Struct(fs) => DecodeFieldsUnlimited(env, fs, b);
    case Ptr(t) => DecodeUnlimited(env, t, m, m', b);
    case Iface(i) =>
      var id := TakeNumber(b, 4).value;
      DecodeUnlimited(env, env.types(env.names[id.value]), m, m', id.rest);
    case _ =>
  }

  lemma {:induction false} DecodeAllUnlimited(env: Env, ty: Ty, n: nat, b: Bytes)
    requires DecodeAll(env, ty, n, b).Some?
    ensures DecodeAll(Unlimited(env), ty, n, b) == DecodeAll(env, ty, n, b)
    decreases |b|, ty, n + 1
  {
    if n > 0 {
      DecodeUnlimited(env, ty, env.maxLen, Unlimited(env).maxLen, b);
      DecodeAllUnlimited(env, ty, n - 1, Decode(env, ty, env.maxLen, b).value.rest);
    }
  }

  lemma {:induction false} DecodeFieldsUnlimited(env: Env, fs: Fields, b: Bytes)
    requires DecodeFields(env, fs, b).Some?
    ensures DecodeFields(Unlimited(env), fs, b) == DecodeFields(env, fs, b)
    decreases |b|, fs, 0
  {
    if fs.MoreFields? {
      DecodeUnlimited(env, fs.ty, fs.maxLen, fs.maxLen, b);
      DecodeFieldsUnlimited(env, fs.rest, Decode(env, fs.ty, fs.maxLen, b).value.rest);
    }
  }

  lemma {:induction false} UnlimitedFits(env: Env, ty: Ty, v: Value)
    requires env.maxLen >= 0xFFFF_FFFF && Typed(env, ty, v)
    ensures ArraysFit(env, ty, v)
    decreases v
  {
    match ty
    case Slice(e) => if v.Elems? { UnlimitedAllFit(env, env.types(e), v.vs); }
    case Array(n, t) => UnlimitedAllFit(env, t, v.vs);
    case Struct(fs) => UnlimitedFieldsFit(env, fs, v.vs);
    case Ptr(t) => if v.To? { UnlimitedFits(env, t, v.v); }
    case Iface(_) => if v.Dyn? { UnlimitedFits(env, env.types(v.name), v.v); }
    case _ =>
  }

  lemma {:induction false} UnlimitedAllFit(env: Env, ty: Ty, vs: Values)
    requires env.maxLen >= 0xFFFF_FFFF && TypedAll(env, ty, vs)
    ensures AllArraysFit(env, ty, vs)
    decreases vs
  {
    if vs.Cons? {
      UnlimitedFits(env, ty, vs.head);
      UnlimitedAllFit(env, ty, vs.tail);
    }
  }

  lemma {:induction false} UnlimitedFieldsFit(env: Env, fs: Fields, vs: Values)
    requires env.maxLen >= 0xFFFF_FFFF && TypedFields(env, fs, vs)
    ensures FieldArraysFit(env, fs, vs)
    decreases vs
  {
    if fs.MoreFields? {
      UnlimitedFits(env, fs.ty, vs.head);
      UnlimitedFieldsFit(env, fs.rest, vs.tail);
    }
  }

  /** No value has two accepted encodings: byte strings that unmarshal to the same value, with the same
      bytes left over, are the same. This holds for every value that comes out, whether or not marshal
      would take it. */
  lemma OneEncoding(env: Env, ty: Ty, max: nat, b: Bytes, b': Bytes)
    requires RegisteredBack(env) && Decode(env, ty, max, b).Some? && Decode(env, ty, max, b) == Decode(env, ty, max, b')
    ensures b == b'
  {
    var env' := Unlimited(env);
    DecodeUnlimited(env, ty, max, max, b);
    DecodeUnlimited(env, ty, max, max, b');
    DecodeSound(env', ty, max, b);
    UnlimitedFits(env', ty, Decode(env', ty, max, b).value.value);
    CanonicalExactly(env', ty, max, b);
    CanonicalExactly(env', ty, max, b');
  }

  lemma {:induction false} Canonical(env: Env, ty: Ty, max: nat, b: Bytes)
    requires RegisteredBack(env) && Decode(env, ty, max, b).Some?
    requires var v := Decode(env, ty, max, b).value.value; Typed(env, ty, v) && Encode(env, ty, max, v).Some?
    ensures var r := Decode(env, ty, max, b).value; Encode(env, ty, max, r.value).value + r.rest == b
    decreases |b|, ty, 1
  {
    match ty
    case Unsigned(w) => TakeNumberBelow(b, w);
    case Signed(w) =>
      TakeNumberBelow(b, w);
      UnsignedRoundTrip(TakeNumber(b, w).value.value, w);
    case Bool => assert b == [b[0]] + b[1..];
    case Str => CanonicalText(b);
    case Slice(e) => CanonicalSlice(env, e, max, b);
    case Array(n, t) => CanonicalArray(env, n, t, max, b);
    case Struct(fs) => CanonicalFields(env, fs, b);
    case Ptr(t) => Canonical(env, t, env.maxLen, b);
    case Iface(i) => CanonicalInterface(env, i, max, b);
  }

  lemma {:induction false} CanonicalArray(env: Env, n: nat, t: Ty, max: nat, b: Bytes)
    requires RegisteredBack(env) && Decode(env, Array(n, t), max, b).Some?
    requires var v := Decode(env, Array(n, t), max, b).value.value;
             Typed(env, Array(n, t), v) && Encode(env, Array(n, t), max, v).Some?
    ensures var r := Decode(env, Array(n, t), max, b).value; Encode(env, Array(n, t), max, r.value).value + r.rest == b
    decreases |b|, Array(n, t), 0
  {
    if t == Unsigned(1) {
      FromOctetsSound(env, b[..n]);
      OctetsOneByOne(env, FromOctets(b[..n]));
      assert b == b[..n] + b[n..];
    } else {
      CanonicalAll(env, t, n, b);
    }
  }

  lemma {:induction false} CanonicalInterface(env: Env, i: Name, max: nat, b: Bytes)
    requires RegisteredBack(env) && Decode(env, Iface(i), max, b).Some?
    requires var v := Decode(env, Iface(i), max, b).value.value; Typed(env, Iface(i), v) && Encode(env, Iface(i), max, v).Some?
    ensures var r := Decode(env, Iface(i), max, b).value; Encode(env, Iface(i), max, r.value).value + r.rest == b
    decreases |b|, Iface(i), 0
  {
    var r, id := Decode(env, Iface(i), max, b).value, TakeNumber(b, 4).value;
    TakeNumberBelow(b, 4);
    var name := env.names[id.value];
    Canonical(env, env.types(name), env.maxLen, id.rest);
    var body := Encode(env, env.types(name), env.maxLen, r.value.v).value;
    Associative(Digits(id.value, 4), body, r.rest);
  }

  lemma CanonicalText(b: Bytes)
    requires ParseText(b).Some?
    ensures var r := ParseText(b).value;
            r.value.Text? && Digits(|r.value.s|, 2) + r.value.s + r.rest == b
  {
    var n := TakeNumber(b, 2).value;
    TakeNumberBelow(b, 2);
    assert n.rest[..n.value] + n.rest[n.value..] == n.rest;
    var r := ParseText(b).value;
    Associative(Digits(n.value, 2), r.value.s, r.rest);
  }

  lemma PrintedSlice(env: Env, e: Name, max: nat, vs: Values, rest: Bytes)
    requires Typed(env, Slice(e), Elems(vs)) && SlicesFit(Elems(vs)) && Encode(env, Slice(e), max, Elems(vs)).Some?
    ensures TypedAll(env, env.types(e), vs) && SliceBody(env, env.types(e), vs).Some?
    ensures Encode(env, Slice(e), max, Elems(vs)).value + rest ==
              Digits(Len(vs), 4) + (SliceBody(env, env.types(e), vs).value + rest)
  {
    NoWrap(vs);
    SliceForm(env, e, max, vs);
    var body := SliceBody(env, env.types(e), vs).value;
    Associative(Digits(Len(vs), 4), body, rest);
  }

  lemma {:induction false} CanonicalSlice(env: Env, e: Name, max: nat, b: Bytes)
    requires RegisteredBack(env) && Decode(env, Slice(e), max, b).Some?
    requires var v := Decode(env, Slice(e), max, b).value.value; Typed(env, Slice(e), v) && Encode(env, Slice(e), max, v).Some?
    ensures var r := Decode(env, Slice(e), max, b).value; Encode(env, Slice(e), max, r.value).value + r.rest == b
    decreases |b|, Slice(e), 0
  {
    var r, n := Decode(env, Slice(e), max, b).value, TakeNumber(b, 4).value;
    TakeNumberBelow(b, 4);
    DecodeSound(env, Slice(e), max, b);
    PrintedSlice(env, e, max, r.value.vs, r.rest);
    CanonicalItems(env, e, n.value, n.rest, r);
  }

  /** What follows the length of a slice is what its items print as. */
  lemma {:induction false} CanonicalItems(env: Env, e: Name, n: nat, b: Bytes, r: Parsed<Value>)
    requires RegisteredBack(env) && r.value.Elems? && TypedAll(env, env.types(e), r.value.vs)
    requires SliceBody(env, env.types(e), r.value.vs).Some?
    requires if env.types(e) == Unsigned(1) then ParseOctets(b, n, false) == Some(r)
             else DecodeAll(env, env.types(e), n, b) == Some(Parsed(r.value.vs, r.rest))
    ensures Len(r.value.vs) == n && SliceBody(env, env.types(e), r.value.vs).value + r.rest == b
    decreases |b|, env.types(e), n + 3
  {
    if env.types(e) == Unsigned(1) {
      FromOctetsSound(env, b[..n]);
      assert b == b[..n] + b[n..];
    } else {
      DecodeAllSound(env, env.types(e), n, b);
      CanonicalAll(env, env.types(e), n, b);
    }
  }

  lemma EncodeAllCons(env: Env, ty: Ty, v: Value, vs: Values, rest: Bytes)
    requires TypedAll(env, ty, Cons(v, vs)) && EncodeAll(env, ty, Cons(v, vs)).Some?
    ensures Typed(env, ty, v) && TypedAll(env, ty, vs)
    ensures Encode(env, ty, env.maxLen, v).Some? && EncodeAll(env, ty, vs).Some?
    ensures EncodeAll(env, ty, Cons(v, vs)).value + rest ==
              Encode(env, ty, env.maxLen, v).value + (EncodeAll(env, ty, vs).value + rest)
  {
    var x, y := Encode(env, ty, env.maxLen, v).value, EncodeAll(env, ty, vs).value;
    Associative(x, y, rest);
  }

  lemma DecodeAllFirst(env: Env, ty: Ty, n: nat, b: Bytes) returns (h: Parsed<Value>, t: Parsed<Values>)
    requires DecodeAll(env, ty, n, b).Some? && n > 0
    ensures Decode(env, ty, env.maxLen, b) == Some(h) && DecodeAll(env, ty, n - 1, h.rest) == Some(t)
    ensures DecodeAll(env, ty, n, b).value == Parsed(Cons(h.value, t.value), t.rest)
    ensures |h.rest| <= |b|
  {
    h := Decode(env, ty, env.maxLen, b).value;
    t := DecodeAll(env, ty, n - 1, h.rest).value;
  }

  lemma {:induction false} CanonicalAll(env: Env, ty: Ty, n: nat, b: Bytes)
    requires RegisteredBack(env) && DecodeAll(env, ty, n, b).Some?
    requires var vs := DecodeAll(env, ty, n, b).value.value; TypedAll(env, ty, vs) && EncodeAll(env, ty, vs).Some?
    ensures var r := DecodeAll(env, ty, n, b).value; EncodeAll(env, ty, r.value).value + r.rest == b
    decreases |b|, ty, n + 2
  {
    if n == 0 {
      assert [] + b == b;
    } else {
      var h, t := DecodeAllFirst(env, ty, n, b);
      Canonical(env, ty, env.maxLen, b);
      CanonicalAll(env, ty, n - 1, h.rest);
      EncodeAllCons(env, ty, h.value, t.value, t.rest);
    }
  }

  lemma {:induction false} CanonicalFields(env: Env, fs: Fields, b: Bytes)
    requires RegisteredBack(env) && DecodeFields(env, fs, b).Some?
    requires var vs := DecodeFields(env, fs, b).value.value; TypedFields(env, fs, vs) && EncodeFields(env, fs, vs).Some?
    ensures var r := DecodeFields(env, fs, b).value; EncodeFields(env, fs, r.value).value + r.rest == b
    decreases |b|, fs, 1
  {
    match fs
    case NoFields => assert [] + b == b;
    case MoreFields(ty, max, rest) =>
      var h := Decode(env, ty, max, b).value;
      Canonical(env, ty, max, b);
      CanonicalFields(env, rest, h.rest);
      var r := DecodeFields(env, fs, b).value;
      var x, y := Encode(env, ty, max, r.value.head).value, EncodeFields(env, rest, r.value.tail).value;
      Associative(x, y, r.rest);
  }

  // ---- the top level ------------------------------------------------------------------------

  /** Unmarshal: nothing may be left over. */
  function Unmarshal(env: Env, ty: Ty, b: Bytes): Option<Value> {
    var r := Decode(env, ty, env.maxLen, b);
    if r.Some? && r.value.rest == [] then Some(r.value.value) else None
  }

  /** Unmarshal of exactly the marshalled bytes gives the value, exactly if its slices have at most math.MaxInt32
      elements; with anything after them it fails. */
  lemma UnmarshalConsumesExactly(env: Env, ty: Ty, v: Value, s: Bytes)
    requires Registered(env) && Typed(env, ty, v) && Encode(env, ty, env.maxLen, v).Some?
    ensures SlicesFit(v) ==> Unmarshal(env, ty, Encode(env, ty, env.maxLen, v).value + s) == if s == [] then Some(Norm(v)) else None
    ensures !SlicesFit(v) ==> Unmarshal(env, ty, Encode(env, ty, env.maxLen, v).value + s) != Some(Norm(v))
  {
    var b := Encode(env, ty, env.maxLen, v).value + s;
    if SlicesFit(v) {
      RoundTrip(env, ty, env.maxLen, v, s);
    } else if Decode(env, ty, env.maxLen, b).Some? {
      DecodeSound(env, ty, env.maxLen, b);
      NormFits(v);
    }
  }

  // ---- with the version in front ------------------------------------------------------------

  /** Manager.Marshal: the version in two bytes, then the value; nothing above the maximum size. */
  function ManagedMarshal(codecs: map<nat, Env>, version: nat, ty: Ty, v: Value, maxSize: nat): Option<Bytes>
    requires version in codecs ==> Typed(codecs[version], ty, v)
  {
    if version !in codecs then None
    else
      var e := Join(Some(Digits(version, 2)), Encode(codecs[version], ty, codecs[version].maxLen, v));
      if e.Some? && |e.value| <= maxSize then e else None
  }

  /** Manager.Unmarshal: the version selects the codec for the rest. */
  function ManagedUnmarshal(codecs: map<nat, Env>, ty: Ty, b: Bytes, maxSize: nat): Option<(nat, Value)> {
    var n := TakeNumber(b, 2);
    if |b| > maxSize || n.None? || n.value.value !in codecs then None
    else
      var v := Unmarshal(codecs[n.value.value], ty, n.value.rest);
      if v.None? then None else Some((n.value.value, v.value))
  }

  /** What the manager marshals it unmarshals, at the same version, exactly if the slices have at most
      math.MaxInt32 elements. */
  lemma ManagedRoundTrip(codecs: map<nat, Env>, version: nat, ty: Ty, v: Value, maxSize: nat)
    requires version in codecs && version < 0x1_0000 && Registered(codecs[version]) && Typed(codecs[version], ty, v)
    requires ManagedMarshal(codecs, version, ty, v, maxSize).Some?
    ensures ManagedUnmarshal(codecs, ty, ManagedMarshal(codecs, version, ty, v, maxSize).value, maxSize) == Some((version, Norm(v)))
            <==> SlicesFit(v)
  {
    var env := codecs[version];
    var e := Encode(env, ty, env.maxLen, v).value;
    Ranges();
    TakeDigits(version, 2, e);
    UnmarshalConsumesExactly(env, ty, v, []);
    assert e + [] == e;
  }
}
