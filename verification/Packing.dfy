/** The packer of utils/wrappers/packing.go: a byte buffer with an offset, for writing and reading. */
module Packing {
  import opened Options
  import opened ByteStrings
  import opened BigEndian
  import opened Codec

  class Packer {
    const maxSize: nat
    var bytes: Bytes
    var offset: nat
    var err: bool

    constructor (maxSize: nat, bytes: Bytes)
      ensures this.maxSize == maxSize && this.bytes == bytes && offset == 0 && !err
    {
      this.maxSize, this.bytes, offset, err := maxSize, bytes, 0, false;
    }

    // ---- writing ----

    /** Writing goes on at the end of the buffer. */
    ghost predicate Writable()
      reads this
    {
      !err && offset == |bytes| && |bytes| <= maxSize
    }

    /** Room for n more bytes; the new bytes hold whatever the underlying array held. */
    method Expand(n: nat)
      requires Writable()
      modifies `bytes, `err
      ensures if offset + n <= maxSize
              then !err && |bytes| == offset + n && bytes[..offset] == old(bytes)
              else err && bytes == old(bytes)
    {
      var needed := n + offset;
      if needed <= |bytes| {
        return;
      }
      if needed > maxSize {
        err := true;
        return;
      }
      var stale: Bytes := *;
      if |stale| != n {
        stale := seq(n, _ => 0);
      }
      bytes := bytes + stale;
    }

    method PackFixedBytes(b: Bytes)
      requires Writable()
      modifies `bytes, `offset, `err
      ensures err <==> old(|bytes|) + |b| > maxSize
      ensures !err ==> Writable() && bytes == old(bytes) + b
    {
      Expand(|b|);
      if err {
        return;
      }
      bytes := bytes[..offset] + b + bytes[offset + |b|..];
      offset := offset + |b|;
    }

    /** PackByte, PackShort, PackInt and PackLong, by width. */
    method PackNumber(n: nat, w: nat)
      requires Writable() && n < Range(w)
      modifies `bytes, `offset, `err
      ensures err <==> old(|bytes|) + w > maxSize
      ensures !err ==> Writable() && bytes == old(bytes) + Digits(n, w) && Spells(bytes[old(|bytes|)..], n, w)
    {
      SpellsDigits(Digits(n, w), n, w);
      Expand(w);
      if err {
        return;
      }
      bytes := bytes[..offset] + Digits(n, w) + bytes[offset + w..];
      assert bytes[offset..] == Digits(n, w);
      offset := offset + w;
    }

    method PackBool(b: bool)
      requires Writable()
      modifies `bytes, `offset, `err
      ensures err <==> old(|bytes|) + 1 > maxSize
      ensures !err ==> Writable() && bytes == old(bytes) + [if b then 1 else 0]
    {
      OneDigit(if b then 1 else 0);
      Ranges();
      PackNumber(if b then 1 else 0, 1);
    }

    method PackStr(s: Bytes)
      requires Writable()
      modifies `bytes, `offset, `err
      ensures err <==> |s| > MAX_STRING_LEN || old(|bytes|) + 2 + |s| > maxSize
      ensures !err ==> Writable() && bytes == old(bytes) + (Digits(|s|, 2) + s)
    {
      if |s| > MAX_STRING_LEN {
        err := true;
        return;
      }
      Ranges();
      PackNumber(|s|, 2);
      if !err {
        PackFixedBytes(s);
      }
    }

    // ---- reading ----

    ghost predicate Readable()
      reads this
    {
      !err && offset <= |bytes|
    }

    ghost function Left(): Bytes
      requires Readable()
      reads this
    {
      bytes[offset..]
    }

    method CheckSpace(n: nat)
      requires Readable()
      modifies `err
      ensures err <==> |bytes| - offset < n
    {
      if |bytes| - offset < n {
        err := true;
      }
    }

    method UnpackFixedBytes(n: nat) returns (b: Bytes)
      requires Readable()
      modifies `offset, `err
      ensures err <==> Take(old(Left()), n).None?
      ensures !err ==> Readable() && Take(old(Left()), n) == Some(Parsed(b, Left()))
    {
      CheckSpace(n);
      if err {
        return [];
      }
      b := bytes[offset..offset + n];
      offset := offset + n;
      assert old(Left())[..n] == b && old(Left())[n..] == Left();
    }

    method UnpackNumber(w: nat) returns (n: nat)
      requires Readable()
      modifies `offset, `err
      ensures err <==> TakeNumber(old(Left()), w).None?
      ensures !err ==> Readable() && TakeNumber(old(Left()), w) == Some(Parsed(n, Left()))
      ensures !err ==> w <= |old(Left())| && n == Weighted(old(Left())[..w])
    {
      CheckSpace(w);
      if err {
        return 0;
      }
      n := Number(bytes[offset..offset + w]);
      NumberIsWeighted(bytes[offset..offset + w]);
      assert old(Left())[..w] == bytes[offset..offset + w];
      offset := offset + w;
    }

    method UnpackBool() returns (b: bool)
      requires Readable()
      modifies `offset, `err
      ensures err <==> ParseBool(old(Left())).None?
      ensures !err ==> Readable() && ParseBool(old(Left())) == Some(Parsed(Flag(b), Left()))
    {
      var n := UnpackNumber(1);
      if err {
        return false;
      }
      FirstByte(old(Left()));
      if n == 0 {
        return false;
      } else if n == 1 {
        return true;
      }
      err := true;
      return false;
    }

    method UnpackStr() returns (s: Bytes)
      requires Readable()
      modifies `offset, `err
      ensures err <==> ParseText(old(Left())).None?
      ensures !err ==> Readable() && ParseText(old(Left())) == Some(Parsed(Text(s), Left()))
    {
      var n := UnpackNumber(2);
      if err {
        return [];
      }
      s := UnpackFixedBytes(n);
    }
  }

  lemma FirstByte(b: Bytes)
    requires b != []
    ensures Number(b[..1]) == b[0]
  {
    assert b[..1][..0] == [];
    assert Number(b[..1][..0]) == 0;
  }
}
