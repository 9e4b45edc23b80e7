/** Comparing two IDs on a range of bits, ids/bits.go, against the bit by bit definition of ids/id.go. */
module Bits {
  const NUM_BITS := 256

  type byte8 = bv8
  type Id = s: seq<byte8> | |s| == 32 witness seq(32, _ => 0)

  const ZERO_ID: Id :=
    [0, 0, 0, 0, 0, 0, 0, 0, 0, 0, 0, 0, 0, 0, 0, 0, 0, 0, 0, 0, 0, 0, 0, 0, 0, 0, 0, 0, 0, 0, 0, 0]

  /** The j-th bit of a byte, least significant first. */
  function BitOf(b: byte8, j: nat): bool
    requires j < 8
  {
    (b >> j) & 1 == 1
  }

  /** ID.Bit */
  function Bit(id: Id, i: nat): bool
    requires i < NUM_BITS
  {
    BitOf(id[i / 8], i % 8)
  }

  ghost predicate SameBits(a: Id, b: Id, start: nat, stop: nat)
    requires stop <= NUM_BITS
  {
    forall i :: start <= i < stop ==> Bit(a, i) == Bit(b, i)
  }

  // ---- masks --------------------------------------------------------------------------------

  /** The byte with only bit j set. */
  function Single(j: nat): byte8
    requires j < 8
  {
    if j == 0 then 0x01 else if j == 1 then 0x02 else if j == 2 then 0x04 else if j == 3 then 0x08
    else if j == 4 then 0x10 else if j == 5 then 0x20 else if j == 6 then 0x40 else 0x80
  }

  /** Bits s to 7. */
  function From(s: nat): byte8
    requires s <= 8
  {
    if s == 0 then 0xFF else if s == 1 then 0xFE else if s == 2 then 0xFC else if s == 3 then 0xF8
    else if s == 4 then 0xF0 else if s == 5 then 0xE0 else if s == 6 then 0xC0 else if s == 7 then 0x80 else 0
  }

  /** Bits 0 to t. */
  function UpTo(t: nat): byte8
    requires t < 8
  {
    if t == 0 then 0x01 else if t == 1 then 0x03 else if t == 2 then 0x07 else if t == 3 then 0x0F
    else if t == 4 then 0x1F else if t == 5 then 0x3F else if t == 6 then 0x7F else 0xFF
  }

  lemma FromStep(s: nat)
    requires s < 8
    ensures From(s) == Single(s) | From(s + 1)
  {
  }

  lemma UpToKeeps(s: nat, t: nat)
    requires s < 8 && t < 8
    ensures Single(s) & UpTo(t) == if s <= t then Single(s) else 0
  {
  }

  lemma MaskStep(z: byte8, s: nat, t: nat)
    requires s < 8 && t < 8
    ensures z & (From(s) & UpTo(t)) == 0 <==> (s <= t ==> z & Single(s) == 0) && z & (From(s + 1) & UpTo(t)) == 0
  {
    FromStep(s);
    UpToKeeps(s, t);
  }

  predicate Clear(z: byte8, j: nat)
    requires j < 8
  {
    z & Single(j) == 0
  }

  /** The masked byte is zero exactly when its bits s to t are. */
  lemma {:induction false} MaskedZero(z: byte8, s: nat, t: nat)
    requires s <= 8 && t < 8
    ensures z & (From(s) & UpTo(t)) == 0 <==> forall j :: s <= j <= t ==> Clear(z, j)
    decreases 8 - s
  {
    if s < 8 {
      MaskedZero(z, s + 1, t);
      MaskStep(z, s, t);
      assert z & Single(s) == 0 <==> Clear(z, s);
    }
  }

  /** Bits lo to hi of the two bytes agree. */
  ghost predicate Agree(x: byte8, y: byte8, lo: nat, hi: nat)
    requires hi < 8
  {
    forall j :: lo <= j <= hi ==> BitOf(x, j) == BitOf(y, j)
  }

  lemma XorAt(x: byte8, y: byte8, j: nat)
    requires j < 8
    ensures BitOf(x, j) == BitOf(y, j) <==> (x ^ y) & Single(j) == 0
  {
    XorMasked(x, y, Single(j));
  }

  lemma XorMasked(x: byte8, y: byte8, m: byte8)
    ensures (x ^ y) & m == 0 <==> m & x == m & y
    ensures m & x == x & m && m & y == y & m
  {
  }

  lemma AgreeIsClear(x: byte8, y: byte8, z: byte8, s: nat, t: nat)
    requires t < 8 && z == x ^ y
    ensures Agree(x, y, s, t) <==> forall j :: s <= j <= t ==> Clear(z, j)
  {
    if Agree(x, y, s, t) {
      forall j | s <= j <= t
        ensures Clear(z, j)
      {
        assert BitOf(x, j) == BitOf(y, j);
        XorAt(x, y, j);
      }
    }
    if forall j :: s <= j <= t ==> Clear(z, j) {
      forall j | s <= j <= t
        ensures BitOf(x, j) == BitOf(y, j)
      {
        assert Clear(z, j);
        XorAt(x, y, j);
      }
    }
  }

  lemma MaskedEqual(x: byte8, y: byte8, s: nat, t: nat)
    requires s < 8 && t < 8
    ensures (From(s) & UpTo(t)) & x == (From(s) & UpTo(t)) & y <==> Agree(x, y, s, t)
  {
    XorMasked(x, y, From(s) & UpTo(t));
    MaskedZero(x ^ y, s, t);
    AgreeIsClear(x, y, x ^ y, s, t);
  }

  // ---- the masks of the code: Go ints --------------------------------------------------------

  /** -1 << startBit */
  function StartMask(s: nat): bv64
    requires s < 8
  {
    (0xFFFF_FFFF_FFFF_FFFF as bv64) << s
  }

  /** (1 << (stopBit + 1)) - 1 */
  function StopMask(t: nat): bv64
    requires t < 8
  {
    ((1 as bv64) << (t + 1)) - 1
  }

  lemma StartMaskIs(s: nat, x: byte8)
    requires s < 8
    ensures StartMask(s) & (x as bv64) == (From(s) & x) as bv64
  {
    if s == 0 {
    } else if s == 1 {
    } else if s == 2 {
    } else if s == 3 {
    } else if s == 4 {
    } else if s == 5 {
    } else if s == 6 {
    } else {
    }
  }

  lemma StopMaskIs(t: nat)
    requires t < 8
    ensures StopMask(t) == UpTo(t) as bv64
  {
    if t == 0 {
    } else if t == 1 {
    } else if t == 2 {
    } else if t == 3 {
    } else if t == 4 {
    } else if t == 5 {
    } else if t == 6 {
    } else {
    }
  }

  // ---- ranges -------------------------------------------------------------------------------

  lemma SameInByte(a: Id, b: Id, k: nat, lo: nat, hi: nat)
    requires k < 32 && lo <= hi < 8
    ensures SameBits(a, b, 8 * k + lo, 8 * k + hi + 1) <==> Agree(a[k], b[k], lo, hi)
  {
    if SameBits(a, b, 8 * k + lo, 8 * k + hi + 1) {
      forall j | lo <= j <= hi
        ensures BitOf(a[k], j) == BitOf(b[k], j)
      {
        assert Bit(a, 8 * k + j) == Bit(b, 8 * k + j);
      }
    }
    if Agree(a[k], b[k], lo, hi) {
      forall i | 8 * k + lo <= i < 8 * k + hi + 1
        ensures Bit(a, i) == Bit(b, i)
      {
        assert BitOf(a[k], i - 8 * k) == BitOf(b[k], i - 8 * k);
      }
    }
  }

  lemma WholeByte(x: byte8, y: byte8)
    ensures x == y <==> Agree(x, y, 0, 7)
  {
    MaskedEqual(x, y, 0, 7);
  }

  lemma {:induction false} SameBytes(a: Id, b: Id, p: nat, q: nat)
    requires p <= q <= 32
    ensures SameBits(a, b, 8 * p, 8 * q) <==> a[p..q] == b[p..q]
    decreases q - p
  {
    if p < q {
      SameBytes(a, b, p + 1, q);
      SameInByte(a, b, p, 0, 7);
      WholeByte(a[p], b[p]);
      assert a[p..q] == [a[p]] + a[p + 1..q] && b[p..q] == [b[p]] + b[p + 1..q];
    }
  }

  // ---- EqualSubset --------------------------------------------------------------------------

  /** What Go makes of a call: an answer, or an index out of range. */
  datatype Outcome = Answer(yes: bool) | Panics

  /** Division and remainder by eight, truncated toward zero. */
  function Quo(x: int): int {
    if x >= 0 then x / 8 else -(-x / 8)
  }

  function Rem(x: int): int {
    if x >= 0 then x % 8 else -(-x % 8)
  }

  function EqualSubset(start: int, end: int, id1: Id, id2: Id): Outcome {
    var stop := end - 1;
    if start > stop || stop < 0 then Answer(true)
    else if stop >= NUM_BITS then Answer(false)
    else
      var p, q := Quo(start), stop / 8;
      if p + 1 < 0 then Panics
      else if p + 1 < q && id1[p + 1..q] != id2[p + 1..q] then Answer(false)
      else if p < 0 then Panics
      else Answer(EqualEnds(p, q, Rem(start), stop % 8, id1, id2))
  }

  predicate StartEqual(startBit: nat, x: byte8, y: byte8)
    requires startBit < 8
  {
    StartMask(startBit) & (x as bv64) == StartMask(startBit) & (y as bv64)
  }

  predicate StopEqual(stopBit: nat, x: byte8, y: byte8)
    requires stopBit < 8
  {
    StopMask(stopBit) & (x as bv64) == StopMask(stopBit) & (y as bv64)
  }

  predicate BothEqual(startBit: nat, stopBit: nat, x: byte8, y: byte8)
    requires startBit < 8 && stopBit < 8
  {
    var mask := StartMask(startBit) & StopMask(stopBit);
    mask & (x as bv64) == mask & (y as bv64)
  }

  /** The masked comparison of the first and the last byte. As a uint a negative start bit is a huge shift,
      which leaves an empty mask and nothing to compare in the first byte. */
  predicate EqualEnds(startIndex: nat, stopIndex: nat, startBit: int, stopBit: nat, id1: Id, id2: Id)
    requires startIndex <= stopIndex < 32 && startBit < 8 && stopBit < 8
  {
    if startIndex == stopIndex then startBit < 0 || BothEqual(startBit, stopBit, id1[startIndex], id2[startIndex])
    else
      (startBit < 0 || StartEqual(startBit, id1[startIndex], id2[startIndex])) &&
      StopEqual(stopBit, id1[stopIndex], id2[stopIndex])
  }

  /** The three masked comparisons, bit by bit. */
  lemma StartCompares(x: byte8, y: byte8, s: nat)
    requires s < 8
    ensures StartEqual(s, x, y) <==> Agree(x, y, s, 7)
  {
    StartMaskIs(s, x);
    StartMaskIs(s, y);
    MaskedEqual(x, y, s, 7);
  }

  lemma StopCompares(x: byte8, y: byte8, t: nat)
    requires t < 8
    ensures StopEqual(t, x, y) <==> Agree(x, y, 0, t)
  {
    StopMaskIs(t);
    MaskedEqual(x, y, 0, t);
  }

  lemma BothCompare(x: byte8, y: byte8, s: nat, t: nat)
    requires s < 8 && t < 8
    ensures BothEqual(s, t, x, y) <==> Agree(x, y, s, t)
  {
    BothMasksAre(s, t, x);
    BothMasksAre(s, t, y);
    MaskedEqual(x, y, s, t);
  }

  lemma BothMasksAre(s: nat, t: nat, x: byte8)
    requires s < 8 && t < 8
    ensures (StartMask(s) & StopMask(t)) & (x as bv64) == ((From(s) & UpTo(t)) & x) as bv64
  {
    StopMaskIs(t);
    StartMaskIs(s, UpTo(t));
  }

  /** For a start of zero or more, EqualSubset is the comparison of all the bits in the range; a range
      that does not end within the ID is never equal, unless it is empty. */
  lemma EqualSubsetIs(start: nat, stop: int, a: Id, b: Id)
    ensures EqualSubset(start, stop, a, b) ==
            Answer(start >= stop || (stop <= NUM_BITS && SameBits(a, b, start, stop)))
  {
    if start < stop <= NUM_BITS {
      var p, q, s, t := start / 8, (stop - 1) / 8, start % 8, (stop - 1) % 8;
      if p == q {
        BothCompare(a[p], b[p], s, t);
        SameInByte(a, b, p, s, t);
      } else {
        StartCompares(a[p], b[p], s);
        StopCompares(a[q], b[q], t);
        SameInThree(a, b, p, s, q, t);
      }
    }
  }

  /** For a negative start: within eight bits below zero the first byte is not looked at; further down it
      panics, but for a difference that is found before the first byte is. */
  lemma NegativeStart(start: int, stop: int, a: Id, b: Id)
    requires start < 0
    ensures EqualSubset(start, stop, a, b) ==
            if stop <= 0 then Answer(true)
            else if stop > NUM_BITS then Answer(false)
            else if start > -8 then Answer(stop <= 8 || SameBits(a, b, 8, stop))
            else if start > -16 && a[..(stop - 1) / 8] != b[..(stop - 1) / 8] then Answer(false)
            else Panics
  {
    if 0 < stop <= NUM_BITS && start > -8 {
      var q, t := (stop - 1) / 8, (stop - 1) % 8;
      assert Rem(start) < 0 && Quo(start) == 0;
      if q > 0 {
        StopCompares(a[q], b[q], t);
        SameBytes(a, b, 1, q);
        SameInByte(a, b, q, 0, t);
      }
    }
  }

  /** So with a negative start two IDs may be called equal that differ in the range. */
  lemma NegativeStartMisses()
    ensures EqualSubset(-1, 1, ZERO_ID, ZERO_ID[0 := 1]) == Answer(true) && Bit(ZERO_ID, 0) != Bit(ZERO_ID[0 := 1], 0)
  {
    NegativeStart(-1, 1, ZERO_ID, ZERO_ID[0 := 1]);
  }

  /** A range over several bytes: the end of the first, the bytes between, the start of the last. */
  lemma SameInThree(a: Id, b: Id, p: nat, s: nat, q: nat, t: nat)
    requires p < q < 32 && s < 8 && t < 8
    ensures SameBits(a, b, 8 * p + s, 8 * q + t + 1) <==>
              Agree(a[p], b[p], s, 7) && a[p + 1..q] == b[p + 1..q] && Agree(a[q], b[q], 0, t)
  {
    SameInByte(a, b, p, s, 7);
    SameBytes(a, b, p + 1, q);
    SameInByte(a, b, q, 0, t);
  }

  // ---- FirstDifferenceSubset ----------------------------------------------------------------

  /** The least bit set, from j on; 8 if there is none. */
  function TrailingZeros(z: byte8, j: nat): (n: nat)
    requires j <= 8
    ensures j <= n <= 8 && (forall i :: j <= i < n ==> Clear(z, i)) && (n < 8 ==> !Clear(z, n))
    decreases 8 - j
  {
    if j == 8 || !Clear(z, j) then j else TrailingZeros(z, j + 1)
  }

  /** bits.TrailingZeros8(uint8(bd)) */
  function TrailingZeros8(bd: bv64): nat {
    TrailingZeros((bd & 0xFF) as byte8, 0)
  }

  /** The bits s to t in which the two bytes differ. */
  function Differing(x: byte8, y: byte8, s: nat, t: nat): byte8
    requires s < 8 && t < 8
  {
    (From(s) & UpTo(t)) & (x ^ y)
  }

  lemma DifferingAt(x: byte8, y: byte8, s: nat, t: nat, i: nat)
    requires s < 8 && t < 8 && i < 8
    ensures Clear(Differing(x, y, s, t), i) <==> !(s <= i <= t) || BitOf(x, i) == BitOf(y, i)
  {
    XorAt(x, y, i);
  }

  /** The first difference of two bytes within bits s to t. */
  lemma FirstInByte(x: byte8, y: byte8, s: nat, t: nat, z: byte8, n: nat)
    requires s <= t < 8 && !Agree(x, y, s, t) && z == Differing(x, y, s, t) && n == TrailingZeros(z, 0)
    ensures s <= n <= t && BitOf(x, n) != BitOf(y, n)
  {
    var i :| s <= i <= t && BitOf(x, i) != BitOf(y, i);
    DifferingAt(x, y, s, t, i);
    assert !Clear(z, i);
    DifferingAt(x, y, s, t, n);
  }

  lemma AgreeBefore(x: byte8, y: byte8, s: nat, t: nat, z: byte8, n: nat)
    requires s <= n <= t < 8 && z == Differing(x, y, s, t) && n == TrailingZeros(z, 0)
    ensures n > s ==> Agree(x, y, s, n - 1)
  {
    forall i | s <= i <= n - 1
      ensures BitOf(x, i) == BitOf(y, i)
    {
      assert Clear(z, i);
      DifferingAt(x, y, s, t, i);
    }
  }

  /** What FirstDifferenceSubset must return for the bits start to stop. */
  ghost predicate FirstDifference(a: Id, b: Id, start: nat, stop: nat, index: nat)
    requires stop <= NUM_BITS
  {
    start <= index < stop && Bit(a, index) != Bit(b, index) && SameBits(a, b, start, index)
  }

  lemma FirstFromByte(a: Id, b: Id, k: nat, s: nat, t: nat, z: byte8, n: nat)
    requires k < 32 && s <= t < 8 && !Agree(a[k], b[k], s, t) && z == Differing(a[k], b[k], s, t) && n == TrailingZeros(z, 0)
    ensures s <= n <= t && FirstDifference(a, b, 8 * k + s, 8 * k + t + 1, 8 * k + n)
  {
    FirstInByte(a[k], b[k], s, t, z, n);
    AgreeBefore(a[k], b[k], s, t, z, n);
    if n > s { SameInByte(a, b, k, s, n - 1); }
  }

  lemma StartXor(x: byte8, y: byte8, s: nat)
    requires s < 8
    ensures TrailingZeros8((StartMask(s) & (x as bv64)) ^ (StartMask(s) & (y as bv64))) == TrailingZeros(Differing(x, y, s, 7), 0)
  {
    StartMaskIs(s, x);
    StartMaskIs(s, y);
  }

  lemma StopXor(x: byte8, y: byte8, t: nat)
    requires t < 8
    ensures TrailingZeros8((StopMask(t) & (x as bv64)) ^ (StopMask(t) & (y as bv64))) == TrailingZeros(Differing(x, y, 0, t), 0)
  {
    StopMaskIs(t);
  }

  lemma BothXor(x: byte8, y: byte8, s: nat, t: nat)
    requires s < 8 && t < 8
    ensures var m := StartMask(s) & StopMask(t);
            TrailingZeros8((m & (x as bv64)) ^ (m & (y as bv64))) == TrailingZeros(Differing(x, y, s, t), 0)
  {
    BothMasksAre(s, t, x);
    BothMasksAre(s, t, y);
  }

  lemma StartFinds(a: Id, b: Id, k: nat, s: nat, n: nat)
    requires k < 32 && s < 8 && !Agree(a[k], b[k], s, 7)
    requires n == TrailingZeros8((StartMask(s) & (a[k] as bv64)) ^ (StartMask(s) & (b[k] as bv64)))
    ensures FirstDifference(a, b, 8 * k + s, 8 * k + 8, 8 * k + n)
  {
    StartXor(a[k], b[k], s);
    FirstFromByte(a, b, k, s, 7, Differing(a[k], b[k], s, 7), n);
  }

  lemma StopFinds(a: Id, b: Id, k: nat, t: nat, n: nat)
    requires k < 32 && t < 8 && !Agree(a[k], b[k], 0, t)
    requires n == TrailingZeros8((StopMask(t) & (a[k] as bv64)) ^ (StopMask(t) & (b[k] as bv64)))
    ensures FirstDifference(a, b, 8 * k, 8 * k + t + 1, 8 * k + n)
  {
    StopXor(a[k], b[k], t);
    FirstFromByte(a, b, k, 0, t, Differing(a[k], b[k], 0, t), n);
  }

  lemma BothFind(a: Id, b: Id, k: nat, s: nat, t: nat, n: nat)
    requires k < 32 && s <= t < 8 && !Agree(a[k], b[k], s, t)
    requires var m := StartMask(s) & StopMask(t); n == TrailingZeros8((m & (a[k] as bv64)) ^ (m & (b[k] as bv64)))
    ensures FirstDifference(a, b, 8 * k + s, 8 * k + t + 1, 8 * k + n)
  {
    BothXor(a[k], b[k], s, t);
    FirstFromByte(a, b, k, s, t, Differing(a[k], b[k], s, t), n);
  }

  lemma ByteFinds(a: Id, b: Id, k: nat, n: nat)
    requires k < 32 && a[k] != b[k] && n == TrailingZeros8((a[k] as bv64) ^ (b[k] as bv64))
    ensures FirstDifference(a, b, 8 * k, 8 * k + 8, 8 * k + n)
  {
    WholeByte(a[k], b[k]);
    FirstFromByte(a, b, k, 0, 7, Differing(a[k], b[k], 0, 7), n);
  }

  /** A difference in the first byte. */
  method DifferenceInStart(k: nat, s: nat, id1: Id, id2: Id) returns (index: nat, found: bool)
    requires k < 32 && s < 8
    ensures !found <==> Agree(id1[k], id2[k], s, 7)
    ensures found ==> FirstDifference(id1, id2, 8 * k + s, 8 * k + 8, index)
  {
    StartCompares(id1[k], id2[k], s);
    if StartEqual(s, id1[k], id2[k]) {
      return 0, false;
    }
    var n := TrailingZeros8((StartMask(s) & (id1[k] as bv64)) ^ (StartMask(s) & (id2[k] as bv64)));
    StartFinds(id1, id2, k, s, n);
    return n + k * 8, true;
  }

  /** A difference in the last byte. */
  method DifferenceInStop(k: nat, t: nat, id1: Id, id2: Id) returns (index: nat, found: bool)
    requires k < 32 && t < 8
    ensures !found <==> Agree(id1[k], id2[k], 0, t)
    ensures found ==> FirstDifference(id1, id2, 8 * k, 8 * k + t + 1, index)
  {
    StopCompares(id1[k], id2[k], t);
    if StopEqual(t, id1[k], id2[k]) {
      return 0, false;
    }
    var n := TrailingZeros8((StopMask(t) & (id1[k] as bv64)) ^ (StopMask(t) & (id2[k] as bv64)));
    StopFinds(id1, id2, k, t, n);
    return n + k * 8, true;
  }

  /** The range lies within one byte: both masks apply. */
  method DifferenceInByte(k: nat, s: nat, t: nat, id1: Id, id2: Id) returns (index: nat, found: bool)
    requires k < 32 && s <= t < 8
    ensures !found <==> Agree(id1[k], id2[k], s, t)
    ensures found ==> FirstDifference(id1, id2, 8 * k + s, 8 * k + t + 1, index)
  {
    BothCompare(id1[k], id2[k], s, t);
    if BothEqual(s, t, id1[k], id2[k]) {
      return 0, false;
    }
    var mask := StartMask(s) & StopMask(t);
    var n := TrailingZeros8((mask & (id1[k] as bv64)) ^ (mask & (id2[k] as bv64)));
    BothFind(id1, id2, k, s, t, n);
    return n + k * 8, true;
  }

  /** The loop over the bytes in between. */
  method DifferenceBetween(p: nat, q: nat, id1: Id, id2: Id) returns (index: nat, found: bool)
    requires p <= q <= 32
    ensures !found <==> id1[p..q] == id2[p..q]
    ensures found ==> FirstDifference(id1, id2, 8 * p, 8 * q, index)
  {
    for i := p to q
      invariant id1[p..i] == id2[p..i]
    {
      if id1[i] != id2[i] {
        var n := TrailingZeros8((id1[i] as bv64) ^ (id2[i] as bv64));
        FirstInBetween(id1, id2, p, i, q, n);
        return n + i * 8, true;
      }
      OneByteMore(id1, p, i);
      OneByteMore(id2, p, i);
    }
    return 0, false;
  }

  lemma OneByteMore(a: Id, p: nat, i: nat)
    requires p <= i < 32
    ensures a[p..i + 1] == a[p..i] + [a[i]]
  {
  }

  lemma FirstInBetween(a: Id, b: Id, p: nat, i: nat, q: nat, n: nat)
    requires p <= i < q <= 32 && a[p..i] == b[p..i] && a[i] != b[i] && n == TrailingZeros8((a[i] as bv64) ^ (b[i] as bv64))
    ensures FirstDifference(a, b, 8 * p, 8 * q, 8 * i + n) && a[p..q] != b[p..q]
  {
    ByteFinds(a, b, i, n);
    SameBytes(a, b, p, i);
    assert a[p..q][i - p] == a[i] && b[p..q][i - p] == b[i];
  }

  /** The range that is looked at: with a start within eight bits below zero the first byte is left out. */
  function FirstLooked(start: int): nat {
    if start >= 0 then start else 8
  }

  /** The least index in the range at which the two IDs differ; none exactly when the range is empty, does
      not end within the ID, or agrees throughout. With a start further than seven below zero it panics. */
  method FirstDifferenceSubset(start: int, end: int, id1: Id, id2: Id) returns (index: nat, found: bool, panics: bool)
    ensures panics <==> start <= -8 && 0 < end <= NUM_BITS
    ensures found ==> !panics && FirstLooked(start) < end <= NUM_BITS && FirstDifference(id1, id2, FirstLooked(start), end, index)
    ensures !panics ==> (!found <==> FirstLooked(start) >= end || end > NUM_BITS || SameBits(id1, id2, FirstLooked(start), end))
  {
    index, found, panics := 0, false, false;
    var stop := end - 1;
    if start > stop || stop < 0 || stop >= NUM_BITS {
      return;
    }
    var p, q := Quo(start), stop / 8;
    if p < 0 {
      panics := true;
    } else if start >= 0 {
      index, found := DifferenceFrom(p, q, start % 8, stop % 8, id1, id2);
    } else if q > 0 {
      index, found := DifferenceAfter(q, stop % 8, id1, id2);
    }
  }

  /** The first byte is masked away altogether. */
  method DifferenceAfter(q: nat, t: nat, id1: Id, id2: Id) returns (index: nat, found: bool)
    requires 0 < q < 32 && t < 8
    ensures found ==> FirstDifference(id1, id2, 8, 8 * q + t + 1, index)
    ensures !found <==> SameBits(id1, id2, 8, 8 * q + t + 1)
  {
    SameBytes(id1, id2, 1, q);
    SameInByte(id1, id2, q, 0, t);
    index, found := DifferenceBetween(1, q, id1, id2);
    if found {
      return;
    }
    index, found := DifferenceInStop(q, t, id1, id2);
  }

  method DifferenceFrom(p: nat, q: nat, s: nat, t: nat, id1: Id, id2: Id) returns (index: nat, found: bool)
    requires p <= q < 32 && s < 8 && t < 8 && (p == q ==> s <= t)
    ensures found ==> FirstDifference(id1, id2, 8 * p + s, 8 * q + t + 1, index)
    ensures !found <==> SameBits(id1, id2, 8 * p + s, 8 * q + t + 1)
  {
    if p == q {
      index, found := DifferenceInByte(p, s, t, id1, id2);
      SameInByte(id1, id2, p, s, t);
      return;
    }
    SameInThree(id1, id2, p, s, q, t);
    index, found := DifferenceInStart(p, s, id1, id2);
    if found {
      return;
    }
    SameInByte(id1, id2, p, s, 7);
    index, found := DifferenceBetween(p + 1, q, id1, id2);
    if found {
      return;
    }
    SameBytes(id1, id2, p + 1, q);
    index, found := DifferenceInStop(q, t, id1, id2);
  }
}
