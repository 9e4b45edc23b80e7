/** marshal and unmarshal of codec/reflectcodec/type_codec.go on a packer, against the printer and the
parser of Codec. */
module ReflectCodec {
  import opened Options
  import opened ByteStrings
  import opened BigEndian
  import opened Codec
  import opened Packing
  import opened WireFormat

  // ---- marshal ------------------------------------------------------------------------------

  /** The encoding exists and fits behind `n` bytes. */
  predicate Fits(e: Option<Bytes>, n: nat, maxSize: nat) {
    e.Some? && n + |e.value| <= maxSize
  }

  /** Succeeds exactly when the value has an encoding that fits, and then appends it. */
  method Marshal(env: Env, ty: Ty, max: nat, v: Value, p: Packer) returns (ok: bool)
    requires IdsFit(env) && Typed(env, ty, v) && p.Writable()
    modifies p
    ensures ok <==> Fits(Encode(env, ty, max, v), old(|p.bytes|), p.maxSize)
    ensures ok ==> p.Writable() && p.bytes == old(p.bytes) + Encode(env, ty, max, v).value
    decreases v, 2
  {
    match ty
    case Unsigned(w) =>
      p.PackNumber(v.n, w);
      ok := !p.err;
    case Signed(w) =>
      p.PackNumber(ToUnsigned(v.n, w), w);
      ok := !p.err;
    case Bool =>
      p.PackBool(v.b);
      ok := !p.err;
    case Str =>
      p.PackStr(v.s);
      ok := !p.err;
    case Slice(e) =>
      ok := MarshalSlice(env, e, max, v, p);
    case Array(n, t) =>
      if Wrap32(n) > env.maxLen {
        return false;
      }
      ok := MarshalAll(env, t, v.vs, p);
    case Struct(fs) =>
      ok := MarshalFields(env, fs, v.vs, p);
    case Ptr(t) =>
      if v.NilPtr? {
        return false;
      }
      ok := Marshal(env, t, env.maxLen, v.v, p);
    case Iface(i) =>
      ok := MarshalInterface(env, i, max, v, p);
  }

  method MarshalInterface(env: Env, i: Name, max: nat, v: Value, p: Packer) returns (ok: bool)
    requires IdsFit(env) && Typed(env, Iface(i), v) && p.Writable()
    modifies p
    ensures ok <==> Fits(Encode(env, Iface(i), max, v), old(|p.bytes|), p.maxSize)
    ensures ok ==> p.Writable() && p.bytes == old(p.bytes) + Encode(env, Iface(i), max, v).value
    decreases v, 1
  {
    if v.NilIface? || v.name !in env.ids {
      return false;
    }
    p.PackNumber(env.ids[v.name], 4);
    if p.err {
      return false;
    }
    ok := Marshal(env, env.types(v.name), env.maxLen, v.v, p);
  }

  method MarshalSlice(env: Env, e: Name, max: nat, v: Value, p: Packer) returns (ok: bool)
    requires IdsFit(env) && Typed(env, Slice(e), v) && p.Writable()
    modifies p
    ensures ok <==> Fits(Encode(env, Slice(e), max, v), old(|p.bytes|), p.maxSize)
    ensures ok ==> p.Writable() && p.bytes == old(p.bytes) + Encode(env, Slice(e), max, v).value
    decreases v, 1
  {
    Ranges();
    if v.NilSlice? {
      p.PackNumber(0, 4);
      return !p.err;
    }
    if Wrap32(Len(v.vs)) > max {
      return false;
    }
    p.PackNumber(Wrap32(Len(v.vs)), 4);
    if p.err {
      return false;
    }
    ok := MarshalItems(env, env.types(e), v.vs, p);
  }

  /** Bytes as a block, anything else one by one. */
  method MarshalItems(env: Env, t: Ty, vs: Values, p: Packer) returns (ok: bool)
    requires IdsFit(env) && TypedAll(env, t, vs) && p.Writable()
    modifies p
    ensures var e := if t == Unsigned(1) then Some(Octets(env, vs)) else EncodeAll(env, t, vs);
            (ok <==> Fits(e, old(|p.bytes|), p.maxSize)) && (ok ==> p.Writable() && p.bytes == old(p.bytes) + e.value)
    decreases vs, 1
  {
    if t == Unsigned(1) {
      p.PackFixedBytes(Octets(env, vs));
      return !p.err;
    }
    ok := MarshalAll(env, t, vs, p);
  }

  /** The loop over the elements of a slice or an array. */
  method MarshalAll(env: Env, ty: Ty, vs: Values, p: Packer) returns (ok: bool)
    requires IdsFit(env) && TypedAll(env, ty, vs) && p.Writable()
    modifies p
    ensures ok <==> Fits(EncodeAll(env, ty, vs), old(|p.bytes|), p.maxSize)
    ensures ok ==> p.Writable() && p.bytes == old(p.bytes) + EncodeAll(env, ty, vs).value
    decreases vs, 0
  {
    var left := vs;
    ghost var done: Bytes := [];
    JoinEmpty(EncodeAll(env, ty, vs));
    while left.Cons?
      invariant p.Writable() && TypedAll(env, ty, left) && p.bytes == old(p.bytes) + done
      invariant left == vs || left < vs
      invariant EncodeAll(env, ty, vs) == Join(Some(done), EncodeAll(env, ty, left))
      decreases left
    {
      ok := Marshal(env, ty, env.maxLen, left.head, p);
      if !ok {
        return;
      }
      ghost var h := Encode(env, ty, env.maxLen, left.head).value;
      JoinAssociative(done, h, EncodeAll(env, ty, left.tail));
      done, left := done + h, left.tail;
    }
    ok := true;
  }

  lemma JoinEmpty(c: Option<Bytes>)
    ensures Join(Some([]), c) == c
  {
    if c.Some? { assert [] + c.value == c.value; }
  }

  lemma JoinAssociative(a: Bytes, b: Bytes, c: Option<Bytes>)
    ensures Join(Some(a), Join(Some(b), c)) == Join(Some(a + b), c)
  {
    if c.Some? { assert a + (b + c.value) == a + b + c.value; }
  }

  method MarshalFields(env: Env, fs: Fields, vs: Values, p: Packer) returns (ok: bool)
    requires IdsFit(env) && TypedFields(env, fs, vs) && p.Writable()
    modifies p
    ensures ok <==> Fits(EncodeFields(env, fs, vs), old(|p.bytes|), p.maxSize)
    ensures ok ==> p.Writable() && p.bytes == old(p.bytes) + EncodeFields(env, fs, vs).value
    decreases vs, 0
  {
    var fields, left := fs, vs;
    ghost var done: Bytes := [];
    JoinEmpty(EncodeFields(env, fs, vs));
    while fields.MoreFields?
      invariant p.Writable() && TypedFields(env, fields, left) && p.bytes == old(p.bytes) + done
      invariant left == vs || left < vs
      invariant EncodeFields(env, fs, vs) == Join(Some(done), EncodeFields(env, fields, left))
      decreases fields
    {
      ok := Marshal(env, fields.ty, fields.maxLen, left.head, p);
      if !ok {
        return;
      }
      ghost var h := Encode(env, fields.ty, fields.maxLen, left.head).value;
      JoinAssociative(done, h, EncodeFields(env, fields.rest, left.tail));
      done, left, fields := done + h, left.tail, fields.rest;
    }
    ok := true;
  }

  // ---- unmarshal ----------------------------------------------------------------------------

  /** What reading from `b` gave: an error exactly when parsing fails, else the parsed value. */
  predicate Reads<T(==)>(r: Option<T>, parsed: Option<Parsed<T>>) {
    (r.Some? <==> parsed.Some?) && (r.Some? ==> r.value == parsed.value.value)
  }

  method Unmarshal(env: Env, p: Packer, ty: Ty, max: nat) returns (r: Option<Value>)
    requires p.Readable()
    modifies p`offset, p`err
    ensures Reads(r, Decode(env, ty, max, old(p.Left())))
    ensures r.Some? ==> p.Readable() && p.Left() == Decode(env, ty, max, old(p.Left())).value.rest
    decreases |p.bytes| - p.offset, ty, 1
  {
    match ty
    case Unsigned(w) =>
      var n := p.UnpackNumber(w);
      r := if p.err then None else Some(Num(n));
    case Signed(w) =>
      var n := p.UnpackNumber(w);
      r := if p.err then None else Some(Num(ToSigned(n, w)));
    case Bool =>
      var b := p.UnpackBool();
      r := if p.err then None else Some(Flag(b));
    case Str =>
      var s := p.UnpackStr();
      r := if p.err then None else Some(Text(s));
    case Slice(e) =>
      r := UnmarshalSlice(env, p, e, max);
    case Array(n, t) =>
      if t == Unsigned(1) {
        var b := p.UnpackFixedBytes(n);
        return if p.err then None else Some(Tuple(FromOctets(b)));
      }
      var vs := UnmarshalAll(env, p, t, n);
      r := if vs.None? then None else Some(Tuple(vs.value));
    case Struct(fs) =>
      var vs := UnmarshalFields(env, p, fs);
      r := if vs.None? then None else Some(Tuple(vs.value));
    case Ptr(t) =>
      var v := Unmarshal(env, p, t, env.maxLen);
      r := if v.None? then None else Some(To(v.value));
    case Iface(i) =>
      r := UnmarshalInterface(env, p, i, max);
  }

  method UnmarshalInterface(env: Env, p: Packer, i: Name, max: nat) returns (r: Option<Value>)
    requires p.Readable()
    modifies p`offset, p`err
    ensures Reads(r, Decode(env, Iface(i), max, old(p.Left())))
    ensures r.Some? ==> p.Readable() && p.Left() == Decode(env, Iface(i), max, old(p.Left())).value.rest
    decreases |p.bytes| - p.offset, Iface(i), 0
  {
    var id := p.UnpackNumber(4);
    if p.err || id !in env.names || !env.implements(env.names[id], i) {
      return None;
    }
    var v := Unmarshal(env, p, env.types(env.names[id]), env.maxLen);
    r := if v.None? then None else Some(Dyn(env.names[id], v.value));
  }

  method UnmarshalSlice(env: Env, p: Packer, e: Name, max: nat) returns (r: Option<Value>)
    requires p.Readable()
    modifies p`offset, p`err
    ensures Reads(r, Decode(env, Slice(e), max, old(p.Left())))
    ensures r.Some? ==> p.Readable() && p.Left() == Decode(env, Slice(e), max, old(p.Left())).value.rest
    decreases |p.bytes| - p.offset, Slice(e), 0
  {
    var n := p.UnpackNumber(4);
    if p.err || n > max || n > MAX_INT32 {
      return None;
    }
    if env.types(e) == Unsigned(1) {
      var b := p.UnpackFixedBytes(n);
      return if p.err then None else Some(Elems(FromOctets(b)));
    }
    var vs := UnmarshalAll(env, p, env.types(e), n);
    r := if vs.None? then None else Some(Elems(vs.value));
  }

  function Append(vs: Values, v: Value): Values {
    if vs.Nil? then Cons(v, Nil) else Cons(vs.head, Append(vs.tail, v))
  }

  function Concat(a: Values, b: Values): Values {
    if a.Nil? then b else Cons(a.head, Concat(a.tail, b))
  }

  lemma {:induction false} ConcatAppend(a: Values, v: Value, b: Values)
    ensures Concat(Append(a, v), b) == Concat(a, Cons(v, b))
  {
    if a.Cons? { ConcatAppend(a.tail, v, b); }
  }

  lemma {:induction false} ConcatNil(a: Values)
    ensures Concat(a, Nil) == a
  {
    if a.Cons? { ConcatNil(a.tail); }
  }

  /** The elements read so far, and what parsing the rest would add. */
  function Prefixed(done: Values, rest: Option<Parsed<Values>>): Option<Parsed<Values>> {
    if rest.None? then None else Some(Parsed(Concat(done, rest.value.value), rest.value.rest))
  }

  method UnmarshalAll(env: Env, p: Packer, ty: Ty, n: nat) returns (r: Option<Values>)
    requires p.Readable()
    modifies p`offset, p`err
    ensures Reads(r, DecodeAll(env, ty, n, old(p.Left())))
    ensures r.Some? ==> p.Readable() && p.Left() == DecodeAll(env, ty, n, old(p.Left())).value.rest
    decreases |p.bytes| - p.offset, ty, 2
  {
    var done, i := Nil, 0;
    ghost var all := DecodeAll(env, ty, n, p.Left());
    while i < n
      invariant i <= n && p.Readable() && old(p.offset) <= p.offset
      invariant all == Prefixed(done, DecodeAll(env, ty, n - i, p.Left()))
    {
      ghost var b := p.Left();
      var v := Unmarshal(env, p, ty, env.maxLen);
      if v.None? {
        return None;
      }
      PrefixedOneMore(env, ty, n - i, done, b);
      done, i := Append(done, v.value), i + 1;
    }
    ConcatNil(done);
    r := Some(done);
  }

  lemma PrefixedOneMore(env: Env, ty: Ty, n: nat, done: Values, b: Bytes)
    requires n > 0 && Decode(env, ty, env.maxLen, b).Some?
    ensures var h := Decode(env, ty, env.maxLen, b).value;
            Prefixed(done, DecodeAll(env, ty, n, b)) == Prefixed(Append(done, h.value), DecodeAll(env, ty, n - 1, h.rest))
  {
    var h := Decode(env, ty, env.maxLen, b).value;
    var t := DecodeAll(env, ty, n - 1, h.rest);
    if t.Some? { ConcatAppend(done, h.value, t.value.value); }
  }

  method UnmarshalFields(env: Env, p: Packer, fs: Fields) returns (r: Option<Values>)
    requires p.Readable()
    modifies p`offset, p`err
    ensures Reads(r, DecodeFields(env, fs, old(p.Left())))
    ensures r.Some? ==> p.Readable() && p.Left() == DecodeFields(env, fs, old(p.Left())).value.rest
    decreases |p.bytes| - p.offset, fs, 2
  {
    var done, fields := Nil, fs;
    ghost var all := DecodeFields(env, fs, p.Left());
    while fields.MoreFields?
      invariant p.Readable() && old(p.offset) <= p.offset && (fields == fs || fields < fs)
      invariant all == Prefixed(done, DecodeFields(env, fields, p.Left()))
      decreases fields
    {
      ghost var b := p.Left();
      var v := Unmarshal(env, p, fields.ty, fields.maxLen);
      if v.None? {
        return None;
      }
      PrefixedField(env, fields, done, b);
      done, fields := Append(done, v.value), fields.rest;
    }
    ConcatNil(done);
    r := Some(done);
  }

  lemma PrefixedField(env: Env, fs: Fields, done: Values, b: Bytes)
    requires fs.MoreFields? && Decode(env, fs.ty, fs.maxLen, b).Some?
    ensures var h := Decode(env, fs.ty, fs.maxLen, b).value;
            Prefixed(done, DecodeFields(env, fs, b)) == Prefixed(Append(done, h.value), DecodeFields(env, fs.rest, h.rest))
  {
    var h := Decode(env, fs.ty, fs.maxLen, b).value;
    var t := DecodeFields(env, fs.rest, h.rest);
    if t.Some? { ConcatAppend(done, h.value, t.value.value); }
  }

  /** The entry points: what Marshal wrote, Unmarshal reads; it refuses left-over bytes. */
  method UnmarshalBytes(env: Env, ty: Ty, b: Bytes) returns (r: Option<Value>)
    ensures r == Codec.Unmarshal(env, ty, b)
  {
    var p := new Packer(0, b);
    assert p.Left() == b;
    r := Unmarshal(env, p, ty, env.maxLen);
    if r.Some? && p.offset != |b| {
      return None;
    }
  }

  /** Manager.Unmarshal, the size check and the version included. */
  method UnmarshalVersioned(codecs: map<nat, Env>, ty: Ty, b: Bytes, maxSize: nat) returns (r: Option<(nat, Value)>)
    ensures r == ManagedUnmarshal(codecs, ty, b, maxSize)
  {
    if |b| > maxSize {
      return None;
    }
    var p := new Packer(0, b);
    assert p.Left() == b;
    var version := p.UnpackNumber(2);
    if p.err || version !in codecs {
      return None;
    }
    var v := UnmarshalBytes(codecs[version], ty, b[p.offset..]);
    r := if v.None? then None else Some((version, v.value));
  }

  /** Manager.Marshal: an error exactly when the version is unknown, the value has no encoding, or the
      version and the encoding together exceed the maximum size. */
  method MarshalVersioned(codecs: map<nat, Env>, version: nat, ty: Ty, v: Value, maxSize: nat) returns (r: Option<Bytes>)
    requires version < 0x1_0000 && (version in codecs ==> IdsFit(codecs[version]) && Typed(codecs[version], ty, v))
    ensures r == ManagedMarshal(codecs, version, ty, v, maxSize)
    ensures r.Some? ==>
              && version in codecs && 2 <= |r.value| <= maxSize && Spells(r.value[..2], version, 2)
              && Written(codecs[version], ty, codecs[version].maxLen, v, r.value[2..])
  {
    r := PackVersioned(codecs, version, ty, v, maxSize);
    if r.Some? { ManagedWrites(codecs, version, ty, v, maxSize, r.value); }
  }

  method PackVersioned(codecs: map<nat, Env>, version: nat, ty: Ty, v: Value, maxSize: nat) returns (r: Option<Bytes>)
    requires version < 0x1_0000 && (version in codecs ==> IdsFit(codecs[version]) && Typed(codecs[version], ty, v))
    ensures r == ManagedMarshal(codecs, version, ty, v, maxSize)
  {
    if version !in codecs {
      return None;
    }
    var p := new Packer(maxSize, []);
    Ranges();
    p.PackNumber(version, 2);
    if p.err {
      return None;
    }
    assert [] + Digits(version, 2) == Digits(version, 2);
    var ok := Marshal(codecs[version], ty, codecs[version].maxLen, v, p);
    r := if ok then Some(p.bytes) else None;
  }
}
