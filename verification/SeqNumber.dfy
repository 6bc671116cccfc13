/**
 The cyclic numbers of src/seq_number.rs. A number is a `nat` in `[0, max]`; the three uses
 of the source differ only in `max`. The source computes in u32 and i32: where a cast can
 change a value it is written out (`AsI32`).
 */
module SeqNumber {

  const SEQ_MAX: nat := 0x7fff_ffff
  const SEQ_MOD: nat := 0x8000_0000
  const ACK_MAX: nat := 0x7fff_ffff
  const MSG_MAX: nat := 0x1fff_ffff

  /** `as i32` applied to a u32. */
  function AsI32(x: int): int {
    if x < 0x8000_0000 then x else x - 0x1_0000_0000
  }

  /** Subtraction of two numbers, with the source's three branches. */
  function Distance(max: nat, a: int, b: int): int {
    var gap := if a >= b then a - b else b - a;
    if gap <= max / 2 then a - b
    else if a < max / 2 then -(a + max + 1 - b)
    else AsI32(b + max + 1 - a)
  }

  /** Addition of an i32, reduced with `rem_euclid`. */
  function Shift(max: nat, a: int, k: int): (r: nat)
    ensures r <= max
    ensures 0 <= a + k <= max ==> r == a + k
  {
    (a + k) % (max + 1)
  }

  /** Packet sequence numbers: the 31-bit instances of the two operators. */
  function Diff(a: int, b: int): int {
    Distance(SEQ_MAX, a, b)
  }

  function Add(a: int, k: int): (r: nat)
    ensures r <= SEQ_MAX
    ensures 0 <= a + k <= SEQ_MAX ==> r == a + k
  {
    if 0 <= a + k <= SEQ_MAX then a + k else Shift(SEQ_MAX, a, k)
  }

  /** The maxima the source instantiates. */
  ghost predicate Modulus(max: nat) {
    max == SEQ_MAX || max == ACK_MAX || max == MSG_MAX
  }

  lemma ModUnique(x: int, m: int, q: int, r: int)
    requires 0 <= r < m && x == q * m + r
    ensures x % m == r
  {
    var d := x / m - q;
    assert x == (x / m) * m + x % m;
    assert d * m == r - x % m by {
      assert d * m == (x / m) * m - q * m;
    }
    MultipleOutside(d, m);
  }

  lemma MultipleOutside(d: int, m: int)
    requires m > 0
    ensures d == 0 || d * m >= m || d * m <= -m
  {
    if d > 0 {
      AtLeastOne(d, m);
    } else if d < 0 {
      AtLeastOne(-d, m);
      assert d * m == -((-d) * m);
    }
  }

  lemma {:induction false} AtLeastOne(d: nat, m: int)
    requires d > 0 && m > 0
    ensures d * m >= m
  {
    if d > 1 {
      AtLeastOne(d - 1, m);
      assert d * m == (d - 1) * m + m;
    }
  }

  /** The value of `x` brought into `[0, max]`, for `x` near that range. */
  function Reduced(max: nat, x: int): int {
    if x < 0 then x + max + 1
    else if x <= max then x
    else if x < 2 * (max + 1) then x - max - 1
    else x - 2 * (max + 1)
  }

  /** The value of a sum less than two turns away from the range. */
  lemma ShiftNear(max: nat, a: int, k: int)
    requires -(max as int + 1) <= a + k < 3 * (max + 1)
    ensures Shift(max, a, k) == Reduced(max, a + k)
  {
    var m := max + 1;
    var q := if a + k < 0 then -1 else if a + k < m then 0 else if a + k < 2 * m then 1 else 2;
    ModUnique(a + k, m, q, a + k - q * m);
  }

  /** Adding is an action of the integers modulo max + 1. */
  lemma ShiftIsAction(max: nat, a: int, j: int, k: int)
    requires 0 <= a <= max
    ensures Shift(max, a, 0) == a
    ensures Shift(max, Shift(max, a, j), k) == Shift(max, a, j + k)
    ensures Shift(max, a, max + 1) == a
    ensures Shift(max, Shift(max, a, j), -j) == a
  {
    ShiftTwice(max, a, j, k);
    ShiftTwice(max, a, j, -j);
    ModUnique(a + max + 1, max + 1, 1, a);
  }

  lemma ShiftTwice(max: nat, a: int, j: int, k: int)
    ensures Shift(max, Shift(max, a, j), k) == Shift(max, a, j + k)
  {
    var m := max + 1;
    var q := (a + j) / m;
    var r := (a + j) % m;
    var q' := (r + k) / m;
    var r' := (r + k) % m;
    assert a + j + k == (q + q') * m + r' by {
      assert a + j == q * m + r && r + k == q' * m + r';
      assert (q + q') * m == q * m + q' * m;
    }
    ModUnique(a + j + k, m, q + q', r');
  }

  /**
   Subtraction undoes addition exactly when the two numbers are at most half the range
   apart. Further apart the result has the cyclic distance as its magnitude but the sign
   is reversed: it is `b + (-(a - b))` that gives `a` back.
   */
  lemma DistanceInverse(max: nat, a: nat, b: nat)
    requires Modulus(max) && a <= max && b <= max
    ensures Shift(max, b, Distance(max, a, b)) == a
      <==> (if a >= b then a - b else b - a) <= (max + 1) / 2
    ensures (if a >= b then a - b else b - a) > (max + 1) / 2 ==>
      && Shift(max, b, -Distance(max, a, b)) == a
      && -(max as int + 1) < 2 * Distance(max, a, b) < max + 1
      && Distance(max, a, b) != 0
  {
    var d := Distance(max, a, b);
    ShiftNear(max, b, d);
    ShiftNear(max, b, -d);
    DistanceCases(max, a, b, d, Shift(max, b, d), Shift(max, b, -d));
  }

  lemma DistanceCases(max: nat, a: nat, b: nat, d: int, forth: int, back: int)
    requires Modulus(max) && a <= max && b <= max && d == Distance(max, a, b)
    requires forth == Reduced(max, b + d) && back == Reduced(max, b - d)
    ensures forth == a <==> (if a >= b then a - b else b - a) <= (max + 1) / 2
    ensures (if a >= b then a - b else b - a) > (max + 1) / 2 ==>
      back == a && -(max as int + 1) < 2 * d < max + 1 && d != 0
  {
  }

  /**
   The reversed branches still leave the sign of a subtraction equal to the sign of the plain
   integer difference. Every comparison of the protocol is therefore a numeric one, and the
   magnitude is exact up to half the range.
   */
  lemma DiffSign(a: nat, b: nat)
    requires a <= SEQ_MAX && b <= SEQ_MAX
    ensures Diff(a, b) > 0 <==> a > b
    ensures Diff(a, b) < 0 <==> a < b
    ensures -(SEQ_MOD as int / 2) <= a - b <= SEQ_MOD / 2 ==> Diff(a, b) == a - b
    ensures Diff(a, b) > 1 <==> a > b + 1 && !(a == SEQ_MAX && b == 0)
  {
  }

  /** How far `x` lies after `a`, going upward and around. */
  function Ahead(a: nat, x: nat): int {
    if x >= a then x - a else x + SEQ_MOD - a
  }

  lemma AheadIsCyclic(a: nat, x: nat)
    requires a <= SEQ_MAX && x <= SEQ_MAX
    ensures Ahead(a, x) == (x - a) % SEQ_MOD && Add(a, Ahead(a, x)) == x
  {
    ShiftNear(SEQ_MAX, a, Ahead(a, x));
  }

  /** Zero follows the maximum under addition and precedes it under subtraction. */
  lemma WrapDisagrees()
    ensures Add(SEQ_MAX, 1) == 0 && Diff(0, SEQ_MAX) == -1
  {
  }
}
