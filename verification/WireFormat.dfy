/** What the bytes of the codec are: the layout of utils/wrappers/packing.go and of each kind of value in
codec/reflectcodec/type_codec.go, said of the bytes themselves. */
module WireFormat {
  import opened Options
  import opened ByteStrings
  import opened BigEndian
  import opened Codec

  /** b is what a value of the type is written as, and the value can be written: strings have at most 65535 bytes and
      two bytes of length, slices at most the maximum and four bytes of length, interfaces four bytes of type ID;
      pointers and interfaces are not nil; the items of slices, arrays and structs follow each other. Lengths are
      taken modulo 2^32. */
  ghost predicate Written(env: Env, ty: Ty, max: nat, v: Value, b: Bytes)
    requires Typed(env, ty, v)
    decreases v
  {
    match ty
    case Unsigned(w) => Spells(b, v.n, w)
    case Signed(w) => Spells(b, if v.n < 0 then v.n + Range(w) else v.n, w)
    case Bool => b == [if v.b then 1 else 0]
    case Str => |v.s| <= 65535 && |b| == 2 + |v.s| && Spells(b[..2], |v.s|, 2) && b[2..] == v.s
    case Slice(e) =>
      if v.NilSlice? then b == [0, 0, 0, 0]
      else
        && Len(v.vs) % 0x1_0000_0000 <= max && |b| >= 4
        && Spells(b[..4], Len(v.vs) % 0x1_0000_0000, 4) && WrittenAll(env, env.types(e), v.vs, b[4..])
    case Array(n, t) => n % 0x1_0000_0000 <= env.maxLen && WrittenAll(env, t, v.vs, b)
    case Struct(fs) => WrittenFields(env, fs, v.vs, b)
    case Ptr(t) => v.To? && Written(env, t, env.maxLen, v.v, b)
    case Iface(_) =>
      && v.Dyn? && v.name in env.ids && |b| >= 4
      && Spells(b[..4], env.ids[v.name], 4) && Written(env, env.types(v.name), env.maxLen, v.v, b[4..])
  }

  ghost predicate WrittenAll(env: Env, ty: Ty, vs: Values, b: Bytes)
    requires TypedAll(env, ty, vs)
    decreases vs
  {
    if vs.Nil? then b == []
    else exists k :: 0 <= k <= |b| && Written(env, ty, env.maxLen, vs.head, b[..k]) && WrittenAll(env, ty, vs.tail, b[k..])
  }

  /** Each field under its own maximum. */
  ghost predicate WrittenFields(env: Env, fs: Fields, vs: Values, b: Bytes)
    requires TypedFields(env, fs, vs)
    decreases vs
  {
    match fs
    case NoFields => b == []
    case MoreFields(ty, max, rest) =>
      exists k :: 0 <= k <= |b| && Written(env, ty, max, vs.head, b[..k]) && WrittenFields(env, rest, vs.tail, b[k..])
  }

  /** marshal writes exactly these bytes, and fails exactly if the value cannot be written. */
  lemma {:induction false} EncodeWrites(env: Env, ty: Ty, max: nat, v: Value, b: Bytes)
    requires Typed(env, ty, v)
    ensures Encode(env, ty, max, v) == Some(b) <==> Written(env, ty, max, v, b)
    decreases v, 1
  {
    match ty
    case Unsigned(w) => SpellsDigits(b, v.n, w);
    case Signed(w) => SignedWrites(v.n, w, b);
    case Str => TextWrites(v.s, b);
    case Slice(e) => SliceWrites(env, e, max, v, b);
    case Array(n, t) => EncodeAllWrites(env, t, v.vs, b);
    case Struct(fs) => EncodeFieldsWrites(env, fs, v.vs, b);
    case Ptr(t) => if v.To? { EncodeWrites(env, t, env.maxLen, v.v, b); }
    case Iface(_) =>
      if v.Dyn? && v.name in env.ids {
        if |b| >= 4 { EncodeWrites(env, env.types(v.name), env.maxLen, v.v, b[4..]); }
        AfterDigits(env.ids[v.name], 4, Encode(env, env.types(v.name), env.maxLen, v.v), b);
      }
    case Bool =>
  }

  lemma SignedWrites(n: int, w: nat, b: Bytes)
    requires IsSigned(n, w)
    ensures b == Digits(ToUnsigned(n, w), w) <==> Spells(b, if n < 0 then n + Range(w) else n, w)
  {
    var u := if n < 0 then n + Range(w) else n;
    Residue(u, Range(w), if n < 0 then -1 else 0);
    SpellsDigits(b, u, w);
  }

  /** A number in front of something. */
  lemma AfterDigits(n: nat, w: nat, rest: Option<Bytes>, b: Bytes)
    ensures Join(Some(Digits(n, w)), rest) == Some(b) <==> |b| >= w && Spells(b[..w], n, w) && rest == Some(b[w..])
  {
    if |b| >= w {
      SpellsDigits(b[..w], n, w);
      assert b == b[..w] + b[w..];
    }
    if rest.Some? && b == Digits(n, w) + rest.value { assert b[..w] == Digits(n, w) && b[w..] == rest.value; }
  }

  lemma TextWrites(s: Bytes, b: Bytes)
    ensures b == Digits(|s|, 2) + s <==> |b| == 2 + |s| && Spells(b[..2], |s|, 2) && b[2..] == s
  {
    AfterDigits(|s|, 2, Some(s), b);
  }

  lemma {:induction false} SliceWrites(env: Env, e: Name, max: nat, v: Value, b: Bytes)
    requires Typed(env, Slice(e), v)
    ensures Encode(env, Slice(e), max, v) == Some(b) <==> Written(env, Slice(e), max, v, b)
    decreases v, 0
  {
    if v.NilSlice? {
      assert Digits(0, 4) == [0, 0, 0, 0] by { forall i: nat | i < 4 ensures Digits(0, 4)[i] == 0 { DigitAt(0, 4, i); } }
    } else {
      var t := env.types(e);
      if |b| >= 4 { EncodeAllWrites(env, t, v.vs, b[4..]); }
      if t == Unsigned(1) { OctetsOneByOne(env, v.vs); }
      AfterDigits(Wrap32(Len(v.vs)), 4, EncodeAll(env, t, v.vs), b);
    }
  }

  lemma {:induction false} EncodeAllWrites(env: Env, ty: Ty, vs: Values, b: Bytes)
    requires TypedAll(env, ty, vs)
    ensures EncodeAll(env, ty, vs) == Some(b) <==> WrittenAll(env, ty, vs, b)
    decreases vs, 0
  {
    if vs.Cons? {
      forall k | 0 <= k <= |b|
        ensures Written(env, ty, env.maxLen, vs.head, b[..k]) <==> Encode(env, ty, env.maxLen, vs.head) == Some(b[..k])
        ensures WrittenAll(env, ty, vs.tail, b[k..]) <==> EncodeAll(env, ty, vs.tail) == Some(b[k..])
      {
        EncodeWrites(env, ty, env.maxLen, vs.head, b[..k]);
        EncodeAllWrites(env, ty, vs.tail, b[k..]);
      }
      Joined(Encode(env, ty, env.maxLen, vs.head), EncodeAll(env, ty, vs.tail), b);
    }
  }

  lemma {:induction false} EncodeFieldsWrites(env: Env, fs: Fields, vs: Values, b: Bytes)
    requires TypedFields(env, fs, vs)
    ensures EncodeFields(env, fs, vs) == Some(b) <==> WrittenFields(env, fs, vs, b)
    decreases vs, 0
  {
    match fs
    case NoFields =>
    case MoreFields(ty, max, rest) =>
      forall k | 0 <= k <= |b|
        ensures Written(env, ty, max, vs.head, b[..k]) <==> Encode(env, ty, max, vs.head) == Some(b[..k])
        ensures WrittenFields(env, rest, vs.tail, b[k..]) <==> EncodeFields(env, rest, vs.tail) == Some(b[k..])
      {
        EncodeWrites(env, ty, max, vs.head, b[..k]);
        EncodeFieldsWrites(env, rest, vs.tail, b[k..]);
      }
      Joined(Encode(env, ty, max, vs.head), EncodeFields(env, rest, vs.tail), b);
  }

  lemma Joined(x: Option<Bytes>, y: Option<Bytes>, b: Bytes)
    ensures Join(x, y) == Some(b) <==> exists k :: 0 <= k <= |b| && x == Some(b[..k]) && y == Some(b[k..])
  {
    if Join(x, y) == Some(b) {
      var k := |x.value|;
      assert b[..k] == x.value && b[k..] == y.value;
    }
    if k :| 0 <= k <= |b| && x == Some(b[..k]) && y == Some(b[k..]) { assert b == b[..k] + b[k..]; }
  }

  /** The manager writes the version in two bytes in front, and fails exactly if there is no codec for it, the value
      cannot be written, or the whole is above the maximum size. */
  lemma ManagedWrites(codecs: map<nat, Env>, version: nat, ty: Ty, v: Value, maxSize: nat, b: Bytes)
    requires version in codecs ==> Typed(codecs[version], ty, v)
    ensures ManagedMarshal(codecs, version, ty, v, maxSize) == Some(b) <==>
              && version in codecs && 2 <= |b| <= maxSize
              && Spells(b[..2], version, 2) && Written(codecs[version], ty, codecs[version].maxLen, v, b[2..])
  {
    if version in codecs {
      var env := codecs[version];
      if |b| >= 2 { EncodeWrites(env, ty, env.maxLen, v, b[2..]); }
      AfterDigits(version, 2, Encode(env, ty, env.maxLen, v), b);
    }
  }
}
