// Bit-level facts about the 128-bit bitmap behind the replay window.
//
// The solver is quick at constant shifts of bit-vectors and slow when they are mixed with integers
// or with each other, so each step has a predicate of its own and hides the ones it does not need.
module Bits {

  // Whether bit `i` of `b` is set.
  predicate Bit(b: bv128, i: nat)
    requires i < 128
  {
    (b >> i) & 1 == 1
  }

  // The bitmap after it moves up by `d` and its lowest bit is set.
  function Shifted(b: bv128, d: nat): bv128
    requires d < 128
  {
    (b << d) | 1
  }

  // The bitmap after bit `d` is set.
  function WithBit(b: bv128, d: nat): bv128
    requires d < 128
  {
    b | ((1 as bv128) << d)
  }

  predicate MaskIsZero(b: bv128, i: nat)
    requires i < 128
  {
    b & ((1 as bv128) << i) == 0
  }

  // ── Shift amounts as bv8 ─────────────────────────────────────────────

  function Amount(n: nat): bv8
    requires n < 256
  {
    n as bv8
  }

  function Value(x: bv8): nat {
    x as int
  }

  lemma ConversionValue(n: nat)
    requires n < 256
    ensures Value(n as bv8) == n
  {
  }

  lemma AmountValue(n: nat)
    requires n < 256
    ensures Value(Amount(n)) == n
  {
    hide Value;
    ConversionValue(n);
  }

  lemma ValueAmount(x: bv8)
    ensures Value(x) < 256
    ensures Amount(Value(x)) == x
  {
  }

  lemma Order(x: bv8, y: bv8)
    ensures x < y <==> Value(x) < Value(y)
  {
  }

  lemma Succ(x: bv8)
    requires x < 255
    ensures Value(x + 1) == Value(x) + 1
  {
  }

  lemma AmountLess(n: nat, m: nat)
    requires n < m < 256
    ensures Amount(n) < Amount(m)
  {
    hide *;
    AmountValue(n);
    AmountValue(m);
    Order(Amount(n), Amount(m));
  }

  lemma AmountSmall(n: nat)
    requires n < 128
    ensures Amount(n) < 128
  {
  }

  lemma AmountZero(n: nat)
    requires n < 256
    ensures Amount(n) == 0 <==> n == 0
  {
    if n != 0 { AmountLess(0, n); }
  }

  lemma AmountSucc(n: nat)
    requires n < 255
    ensures Amount(n + 1) == Amount(n) + 1
  {
    AmountLess(n, 255);
    assert Amount(n) < 255;
    hide *;
    var x := Amount(n);
    AmountValue(n);
    Succ(x);
    ValueAmount(x + 1);
  }

  lemma {:induction false} AmountPlus(n: nat, m: nat)
    requires n + m < 256
    ensures Amount(n + m) == Amount(n) + Amount(m)
  {
    hide Amount;
    AmountZero(m);
    if m == 0 {
    } else {
      AmountPlus(n, m - 1);
      AmountSucc(n + (m - 1));
      AmountSucc(m - 1);
    }
  }

  // ── The predicates over bv8 ──────────────────────────────────────────

  predicate BitAt(b: bv128, i: bv8)
    requires i < 128
  {
    (b >> i) & 1 == 1
  }

  predicate ShiftedBit(b: bv128, d: bv8, i: bv8)
    requires d < 128 && i < 128
  {
    ((b << d) >> i) & 1 == 1
  }

  predicate BitAtAfterShift(b: bv128, d: bv8, i: bv8)
    requires d < 128 && i < 128
  {
    (((b << d) | 1) >> i) & 1 == 1
  }

  predicate BitAtAfterSet(b: bv128, d: bv8, i: bv8)
    requires d < 128 && i < 128
  {
    ((b | ((1 as bv128) << d)) >> i) & 1 == 1
  }

  predicate MaskIsZeroAt(b: bv128, i: bv8)
    requires i < 128
  {
    b & ((1 as bv128) << i) == 0
  }

  lemma InBv(b: bv128, d: nat, i: nat)
    requires d < 128 && i < 128 && Amount(d) < 128 && Amount(i) < 128
    ensures Bit(b, i) <==> BitAt(b, Amount(i))
    ensures Bit(Shifted(b, d), i) <==> BitAtAfterShift(b, Amount(d), Amount(i))
    ensures Bit(WithBit(b, d), i) <==> BitAtAfterSet(b, Amount(d), Amount(i))
    ensures MaskIsZero(b, i) <==> MaskIsZeroAt(b, Amount(i))
  {
  }

  lemma LowBit(b: bv128, d: bv8, i: bv8)
    requires d < 128 && i < 128
    ensures BitAtAfterShift(b, d, i) <==> i == 0 || ShiftedBit(b, d, i)
  {
  }

  lemma SetBit(b: bv128, d: bv8, i: bv8)
    requires d < 128 && i < 128
    ensures BitAtAfterSet(b, d, i) <==> i == d || BitAt(b, i)
  {
  }

  lemma ShiftBelow(b: bv128, d: bv8, i: bv8)
    requires i < d < 128
    ensures !ShiftedBit(b, d, i)
  {
  }

  // One lemma for each bit a shift amount can have at the top: shifting by it is a shift by the
  // rest, then one by a constant.
  lemma Top64(b: bv128, d: bv8, i: bv8)
    requires 64 <= d <= i < 128
    ensures ShiftedBit(b, d, i) <==> ShiftedBit(b, d - 64, i - 64)
  {
    assert b << d == (b << (d - 64)) << 64;
  }

  lemma Top32(b: bv128, d: bv8, i: bv8)
    requires 32 <= d < 64 && d <= i < 128
    ensures ShiftedBit(b, d, i) <==> ShiftedBit(b, d - 32, i - 32)
  {
    assert b << d == (b << (d - 32)) << 32;
  }

  lemma Top16(b: bv128, d: bv8, i: bv8)
    requires 16 <= d < 32 && d <= i < 128
    ensures ShiftedBit(b, d, i) <==> ShiftedBit(b, d - 16, i - 16)
  {
    assert b << d == (b << (d - 16)) << 16;
  }

  lemma Top8(b: bv128, d: bv8, i: bv8)
    requires 8 <= d < 16 && d <= i < 128
    ensures ShiftedBit(b, d, i) <==> ShiftedBit(b, d - 8, i - 8)
  {
    assert b << d == (b << (d - 8)) << 8;
  }

  lemma Top4(b: bv128, d: bv8, i: bv8)
    requires 4 <= d < 8 && d <= i < 128
    ensures ShiftedBit(b, d, i) <==> ShiftedBit(b, d - 4, i - 4)
  {
    assert b << d == (b << (d - 4)) << 4;
  }

  lemma Top2(b: bv128, d: bv8, i: bv8)
    requires 2 <= d < 4 && d <= i < 128
    ensures ShiftedBit(b, d, i) <==> ShiftedBit(b, d - 2, i - 2)
  {
    assert d == 2 || d == 3;
  }

  lemma Top1(b: bv128, d: bv8, i: bv8)
    requires d < 2 && d <= i < 128
    ensures ShiftedBit(b, d, i) <==> BitAt(b, i - d)
  {
    assert d == 0 || d == 1;
  }

  lemma ShiftUpBelow4(b: bv128, d: bv8, i: bv8)
    requires d < 4 && d <= i < 128
    ensures ShiftedBit(b, d, i) <==> BitAt(b, i - d)
  {
    hide *;
    if 2 <= d {
      Top2(b, d, i);
      Top1(b, d - 2, i - 2);
    } else {
      Top1(b, d, i);
    }
  }

  lemma ShiftUpBelow8(b: bv128, d: bv8, i: bv8)
    requires d < 8 && d <= i < 128
    ensures ShiftedBit(b, d, i) <==> BitAt(b, i - d)
  {
    hide *;
    if 4 <= d {
      Top4(b, d, i);
      ShiftUpBelow4(b, d - 4, i - 4);
    } else {
      ShiftUpBelow4(b, d, i);
    }
  }

  lemma ShiftUpBelow16(b: bv128, d: bv8, i: bv8)
    requires d < 16 && d <= i < 128
    ensures ShiftedBit(b, d, i) <==> BitAt(b, i - d)
  {
    hide *;
    if 8 <= d {
      Top8(b, d, i);
      ShiftUpBelow8(b, d - 8, i - 8);
    } else {
      ShiftUpBelow8(b, d, i);
    }
  }

  lemma ShiftUpBelow32(b: bv128, d: bv8, i: bv8)
    requires d < 32 && d <= i < 128
    ensures ShiftedBit(b, d, i) <==> BitAt(b, i - d)
  {
    hide *;
    if 16 <= d {
      Top16(b, d, i);
      ShiftUpBelow16(b, d - 16, i - 16);
    } else {
      ShiftUpBelow16(b, d, i);
    }
  }

  lemma ShiftUpBelow64(b: bv128, d: bv8, i: bv8)
    requires d < 64 && d <= i < 128
    ensures ShiftedBit(b, d, i) <==> BitAt(b, i - d)
  {
    hide *;
    if 32 <= d {
      Top32(b, d, i);
      ShiftUpBelow32(b, d - 32, i - 32);
    } else {
      ShiftUpBelow32(b, d, i);
    }
  }

  lemma ShiftUp(b: bv128, d: bv8, i: bv8)
    requires d <= i < 128
    ensures ShiftedBit(b, d, i) <==> BitAt(b, i - d)
  {
    hide *;
    if 64 <= d {
      Top64(b, d, i);
      ShiftUpBelow64(b, d - 64, i - 64);
    } else {
      ShiftUpBelow64(b, d, i);
    }
  }

  // ── What the window does with its bitmap ─────────────────────────────

  // The test `check` makes, a mask with `1 << i`, reads bit `i`.
  lemma MaskTest(b: bv128, i: nat)
    requires i < 128
    ensures MaskIsZero(b, i) <==> !Bit(b, i)
  {
    hide *;
    AmountSmall(i);
    InBv(b, i, i);
    MaskTestAt(b, Amount(i));
  }

  lemma MaskTestAt(b: bv128, i: bv8)
    requires i < 128
    ensures MaskIsZeroAt(b, i) <==> !BitAt(b, i)
  {
  }

  // A bitmap of one packet has only its lowest bit set.
  lemma BitOfOne(i: nat)
    requires i < 128
    ensures Bit(1, i) <==> i == 0
  {
    AmountSmall(i);
    if i != 0 { AmountLess(0, i); }
  }

  // Moving the window up by `d` renumbers every packet in it and marks the newest one.
  lemma BitOfShift(b: bv128, d: nat, i: nat)
    requires 0 < d < 128 && i < 128
    ensures Bit(Shifted(b, d), i) <==> i == 0 || (d <= i && Bit(b, i - d))
  {
    hide *;
    AmountSmall(d);
    AmountSmall(i);
    InBv(b, d, i);
    LowBit(b, Amount(d), Amount(i));
    if i < d {
      AmountLess(i, d);
      ShiftBelow(b, Amount(d), Amount(i));
      AmountZero(i);
    } else {
      BitOfShiftAbove(b, d, i);
    }
  }

  lemma BitOfShiftAbove(b: bv128, d: nat, i: nat)
    requires 0 < d <= i < 128 && Amount(d) < 128 && Amount(i) < 128
    ensures ShiftedBit(b, Amount(d), Amount(i)) <==> Bit(b, i - d)
    ensures Amount(i) != 0
  {
    hide *;
    AmountPlus(i - d, d);
    AmountSmall(i - d);
    if d < i { AmountLess(d, i); }
    AmountLess(0, i);
    InBv(b, d, i - d);
    ShiftUp(b, Amount(d), Amount(i));
  }

  // Setting a bit sets that bit and no other.
  lemma BitOfSet(b: bv128, d: nat, i: nat)
    requires d < 128 && i < 128
    ensures Bit(WithBit(b, d), i) <==> i == d || Bit(b, i)
  {
    hide *;
    AmountSmall(d);
    AmountSmall(i);
    InBv(b, d, i);
    SetBit(b, Amount(d), Amount(i));
    AmountValue(i);
    AmountValue(d);
  }
}
