/** Fixed-width integers as the packer of utils/wrappers/packing.go writes them. */
module BigEndian {
  import opened ByteStrings

  /** Values of `w` bytes: 256 to the power w. */
  function Range(w: nat): (r: nat)
    ensures r >= 1
  {
    if w == 0 then 1 else 256 * Range(w - 1)
  }

  function Digits(n: nat, w: nat): (b: Bytes)
    ensures |b| == w
  {
    if w == 0 then [] else Digits(n / 256, w - 1) + [n % 256]
  }

  function Number(b: Bytes): nat {
    if b == [] then 0 else 256 * Number(b[..|b| - 1]) + b[|b| - 1]
  }

  lemma {:induction false} NumberOfDigits(n: nat, w: nat)
    requires n < Range(w)
    ensures Number(Digits(n, w)) == n
  {
    if w > 0 {
      NumberOfDigits(n / 256, w - 1);
      assert Digits(n, w)[..w - 1] == Digits(n / 256, w - 1);
    }
  }

  lemma {:induction false} DigitsOfNumber(b: Bytes)
    ensures Number(b) < Range(|b|) && Digits(Number(b), |b|) == b
  {
    if b != [] { DigitsOfNumber(b[..|b| - 1]); }
  }

  /** The digit at i has the weight 256 to the power w - 1 - i: the most significant byte comes first. */
  lemma {:induction false} DigitAt(n: nat, w: nat, i: nat)
    requires i < w
    ensures Digits(n, w)[i] == (n / Range(w - 1 - i)) % 256
  {
    if i < w - 1 {
      DigitAt(n / 256, w - 1, i);
      DivideTwice(n, Range(w - 2 - i));
    } else {
      assert n / 1 == n;
    }
  }

  lemma DivideTwice(n: nat, b: nat)
    requires b > 0
    ensures (n / 256) / b == n / (256 * b)
  {
    var q, s := n / 256, n / 256 / b;
    var r := 256 * (q % b) + n % 256;
    assert q == b * s + q % b;
    assert 256 * (b * s) == (256 * b) * s;
    Quotient(n, 256 * b, s, r);
  }

  lemma Quotient(n: nat, m: nat, q: nat, r: nat)
    requires n == m * q + r && r < m
    ensures n / m == q
  {
    var d := n / m;
    assert n == m * d + n % m;
    Larger(m, d, q);
    Larger(m, q, d);
  }

  lemma Larger(m: nat, x: nat, y: nat)
    ensures x < y ==> m * x + m <= m * y
  {
    if x < y {
      assert m * y == m * x + m * (y - x);
      assert m * (y - x - 1) >= 0;
      assert m * (y - x) == m + m * (y - x - 1);
    }
  }

  /** The number in w bytes, most significant byte first. */
  predicate Spells(b: Bytes, n: nat, w: nat) {
    |b| == w && forall i :: 0 <= i < w ==> b[i] == (n / Range(w - 1 - i)) % 256
  }

  lemma SpellsDigits(b: Bytes, n: nat, w: nat)
    ensures Spells(b, n, w) <==> b == Digits(n, w)
  {
    var d := Digits(n, w);
    forall i | 0 <= i < w
      ensures d[i] == (n / Range(w - 1 - i)) % 256
    {
      DigitAt(n, w, i);
    }
    if Spells(b, n, w) { assert forall i :: 0 <= i < w ==> b[i] == d[i]; }
  }

  /** Each byte times its weight, the first byte weighing most. */
  function Weighted(b: Bytes): nat {
    if b == [] then 0 else b[0] * Range(|b| - 1) + Weighted(b[1..])
  }

  lemma {:induction false} NumberIsWeighted(b: Bytes)
    ensures Number(b) == Weighted(b)
  {
    if b != [] {
      WeightedLast(b);
      NumberIsWeighted(b[..|b| - 1]);
    }
  }

  lemma {:induction false} WeightedLast(b: Bytes)
    requires b != []
    ensures Weighted(b) == 256 * Weighted(b[..|b| - 1]) + b[|b| - 1]
  {
    if |b| == 1 {
      assert b[..0] == [] && b[1..] == [];
      assert b[0] * Range(0) == b[0];
    } else {
      var c := b[..|b| - 1];
      WeightedLast(b[1..]);
      assert b[1..][..|b| - 2] == c[1..];
      var r := Range(|b| - 2);
      assert b[0] * (256 * r) == 256 * (b[0] * r);
    }
  }

  /** uint8(x), uint16(x), … of a signed x: the residue modulo the range. */
  function ToUnsigned(x: int, w: nat): (u: nat)
    ensures u < Range(w)
  {
    x % Range(w)
  }

  predicate IsSigned(x: int, w: nat) {
    0 <= 2 * x + Range(w) && 2 * x < Range(w)
  }

  /** int8(u), int16(u), … of an unsigned u: two's complement. */
  function ToSigned(u: nat, w: nat): int {
    if 2 * u < Range(w) then u else u - Range(w)
  }

  /** Sign and truncation undo each other. */
  lemma SignedRoundTrip(x: int, w: nat)
    requires IsSigned(x, w)
    ensures ToSigned(ToUnsigned(x, w), w) == x
  {
    if x < 0 {
      Residue(x + Range(w), Range(w), -1);
      assert (x + Range(w)) - Range(w) == x;
    } else {
      Residue(x, Range(w), 0);
    }
  }

  lemma Residue(x: int, m: nat, k: int)
    requires 0 <= x < m && (k == 0 || k == -1)
    ensures (x + k * m) % m == x
  {
    var y := x + k * m;
    assert y == (y / m) * m + y % m;
  }

  lemma UnsignedRoundTrip(u: nat, w: nat)
    requires u < Range(w)
    ensures IsSigned(ToSigned(u, w), w) && ToUnsigned(ToSigned(u, w), w) == u
  {
    if 2 * u < Range(w) { Residue(u, Range(w), 0); } else { Residue(u, Range(w), -1); }
  }
}
