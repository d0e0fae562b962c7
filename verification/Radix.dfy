/**
 Numbers as digit strings, and conversion between bases by carry propagation: the
 arithmetic under base58 (crates/identity/src/peer_id.rs).

 Digit vectors are least significant first, as the source keeps them while converting.
 */
module Radix {
  import opened Bytes

  predicate Digits(d: seq<nat>, base: nat) {
    forall i | 0 <= i < |d| :: d[i] < base
  }

  /** No leading zero, i.e. no zero at the most significant end. */
  predicate Canonical(d: seq<nat>, base: nat) {
    Digits(d, base) && (d != [] ==> d[|d| - 1] != 0)
  }

  /** The value of a digit vector, least significant digit first. */
  function Value(d: seq<nat>, base: nat): nat {
    if d == [] then 0 else d[0] + base * Value(d[1..], base)
  }

  function Reverse(s: seq<nat>): (r: seq<nat>)
    ensures |r| == |s|
    ensures forall i | 0 <= i < |s| :: r[i] == s[|s| - 1 - i]
  {
    if s == [] then [] else Reverse(s[1..]) + [s[0]]
  }

  lemma ReverseTwice(s: seq<nat>)
    ensures Reverse(Reverse(s)) == s
  {
  }

  // Named so that proofs can treat them as plain terms.

  function Rem(n: nat, base: nat): nat
    requires base >= 1
  {
    n % base
  }

  function Quo(n: nat, base: nat): nat
    requires base >= 1
  {
    n / base
  }

  /** The digits of a number; none for zero. */
  function ToDigits(n: nat, base: nat): seq<nat>
    requires base >= 2
    decreases n
  {
    if n == 0 then [] else
      DivLess(n, base);
      [Rem(n, base)] + ToDigits(Quo(n, base), base)
  }

  lemma DivLess(n: nat, base: nat)
    requires base >= 2 && n > 0
    ensures Quo(n, base) < n
  {
  }

  /** One digit's share of the product, plus the incoming carry. */
  function Acc(digit: nat, mult: nat, carry: nat): nat {
    digit * mult + carry
  }

  /** Multiplies the vector by `mult` and adds `carry`, digit by digit. */
  function MulAdd(d: seq<nat>, mult: nat, carry: nat, base: nat): seq<nat>
    requires base >= 2
    decreases |d|
  {
    if d == [] then ToDigits(carry, base)
    else
      var v := Acc(d[0], mult, carry);
      [Rem(v, base)] + MulAdd(d[1..], mult, Quo(v, base), base)
  }

  lemma {:induction false} ToDigitsValue(n: nat, base: nat)
    requires base >= 2
    ensures Value(ToDigits(n, base), base) == n && Canonical(ToDigits(n, base), base)
    ensures n > 0 ==> ToDigits(n, base) != []
    decreases n
  {
    if n > 0 {
      DivLess(n, base);
      ToDigitsValue(Quo(n, base), base);
      QuotientRemainder(n, base);
    }
  }

  lemma QuotientRemainder(n: nat, base: nat)
    requires base >= 1
    ensures n == Rem(n, base) + base * Quo(n, base) && Rem(n, base) < base
  {
  }

  lemma {:induction false} MulAddValue(d: seq<nat>, mult: nat, carry: nat, base: nat)
    requires base >= 2
    ensures Value(MulAdd(d, mult, carry, base), base) == Value(d, base) * mult + carry
    ensures Digits(MulAdd(d, mult, carry, base), base)
    decreases |d|
  {
    if d == [] {
      ToDigitsValue(carry, base);
    } else {
      var v := Acc(d[0], mult, carry);
      var tail := MulAdd(d[1..], mult, Quo(v, base), base);
      MulAddValue(d[1..], mult, Quo(v, base), base);
      QuotientRemainder(v, base);
      MulAddRearrange(d[0], Value(d[1..], base), mult, carry, base, Quo(v, base), Rem(v, base));
      assert ([Rem(v, base)] + tail)[1..] == tail;
    }
  }

  lemma MulAddRearrange(x: nat, rest: nat, mult: nat, carry: nat, base: nat, q: nat, r: nat)
    requires x * mult + carry == r + base * q
    ensures r + base * (rest * mult + q) == (x + base * rest) * mult + carry
  {
    calc {
      r + base * (rest * mult + q);
      r + base * q + base * (rest * mult);
      { assert base * (rest * mult) == (base * rest) * mult; }
      x * mult + carry + (base * rest) * mult;
    }
  }

  lemma {:induction false} MulAddCanonical(d: seq<nat>, mult: nat, carry: nat, base: nat)
    requires base >= 2 && mult >= 1 && Canonical(d, base)
    ensures Canonical(MulAdd(d, mult, carry, base), base)
    ensures d != [] || carry > 0 ==> MulAdd(d, mult, carry, base) != []
    decreases |d|
  {
    if d == [] {
      ToDigitsValue(carry, base);
    } else if |d| == 1 {
      AccPositive(d[0], mult, carry);
      hide Acc;
      LastDigit(Acc(d[0], mult, carry), base);
      assert d[1..] == [];
    } else {
      hide Acc;
      var v := Acc(d[0], mult, carry);
      var tail := MulAdd(d[1..], mult, Quo(v, base), base);
      MulAddCanonical(d[1..], mult, Quo(v, base), base);
      QuotientRemainder(v, base);
      CanonicalCons(Rem(v, base), tail, base);
    }
  }

  lemma CanonicalCons(x: nat, tail: seq<nat>, base: nat)
    requires x < base && Canonical(tail, base) && tail != []
    ensures Canonical([x] + tail, base)
  {
  }

  lemma AccPositive(d: nat, mult: nat, carry: nat)
    requires d > 0 && mult > 0
    ensures Acc(d, mult, carry) > 0
  {
    PositiveProduct(d, mult);
  }

  lemma LastDigit(v: nat, base: nat)
    requires base >= 2 && v > 0
    ensures Canonical([Rem(v, base)] + ToDigits(Quo(v, base), base), base)
  {
    ToDigitsValue(Quo(v, base), base);
    QuotientRemainder(v, base);
  }

  lemma PositiveProduct(a: nat, b: nat)
    requires a > 0 && b > 0
    ensures a * b > 0
  {
  }

  /** Reads a big-endian digit string in one base into a vector of another. */
  function Convert(s: seq<nat>, from: nat, to: nat): seq<nat>
    requires to >= 2
  {
    if s == [] then [] else MulAdd(Convert(s[..|s| - 1], from, to), from, s[|s| - 1], to)
  }

  /** The value of a big-endian digit string. */
  function BigEndian(s: seq<nat>, base: nat): nat {
    if s == [] then 0 else BigEndian(s[..|s| - 1], base) * base + s[|s| - 1]
  }

  /** No zero in front. */
  predicate Significant(s: seq<nat>, base: nat) {
    Digits(s, base) && (s != [] ==> s[0] != 0)
  }

  lemma {:induction false} ConvertValue(s: seq<nat>, from: nat, to: nat)
    requires to >= 2 && from >= 1
    ensures Value(Convert(s, from, to), to) == BigEndian(s, from) && Digits(Convert(s, from, to), to)
  {
    if s != [] {
      ConvertValue(s[..|s| - 1], from, to);
      MulAddValue(Convert(s[..|s| - 1], from, to), from, s[|s| - 1], to);
    }
  }

  lemma {:induction false} ConvertCanonical(s: seq<nat>, from: nat, to: nat)
    requires to >= 2 && from >= 1 && Significant(s, from)
    ensures Canonical(Convert(s, from, to), to)
    ensures s != [] ==> Convert(s, from, to) != []
  {
    if s != [] {
      ConvertCanonical(s[..|s| - 1], from, to);
      MulAddCanonical(Convert(s[..|s| - 1], from, to), from, s[|s| - 1], to);
    }
  }

  lemma {:induction false} BigEndianReverse(s: seq<nat>, base: nat)
    ensures BigEndian(Reverse(s), base) == Value(s, base)
  {
    if s != [] {
      BigEndianReverse(s[1..], base);
      var r := Reverse(s);
      assert r[..|r| - 1] == Reverse(s[1..]);
    }
  }

  /** A number has one canonical digit vector. */
  lemma {:induction false} Unique(x: seq<nat>, y: seq<nat>, base: nat)
    requires base >= 2 && Canonical(x, base) && Canonical(y, base) && Value(x, base) == Value(y, base)
    ensures x == y
  {
    if x == [] {
      if y != [] {
        Positive(y, base);
      }
    } else if y == [] {
      Positive(x, base);
    } else {
      SplitUnique(x[0], Value(x[1..], base), y[0], Value(y[1..], base), base);
      Unique(x[1..], y[1..], base);
    }
  }

  lemma {:induction false} Positive(x: seq<nat>, base: nat)
    requires base >= 2 && Canonical(x, base) && x != []
    ensures Value(x, base) > 0
  {
    if |x| > 1 {
      Positive(x[1..], base);
      PositiveProduct(base, Value(x[1..], base));
    }
  }

  lemma MulMonotone(a: nat, b: nat, c: nat)
    requires a <= b
    ensures c * a <= c * b
  {
  }

  lemma Successor(a: nat, c: nat)
    ensures c * (a + 1) == c * a + c
  {
  }

  lemma SplitUnique(a: nat, p: nat, b: nat, q: nat, base: nat)
    requires a < base && b < base && a + base * p == b + base * q
    ensures a == b && p == q
  {
    if p < q {
      MulMonotone(p + 1, q, base);
      Successor(p, base);
    } else if p > q {
      MulMonotone(q + 1, p, base);
      Successor(q, base);
    }
  }

  /** Converting back restores the digit string. */
  lemma ConvertInverse(s: seq<nat>, from: nat, to: nat)
    requires from >= 2 && to >= 2 && Significant(s, from)
    ensures Reverse(Convert(Reverse(Convert(s, from, to)), to, from)) == s
  {
    hide Convert, Value, BigEndian;
    var there := Convert(s, from, to);
    ConvertCanonical(s, from, to);
    ConvertValue(s, from, to);
    BigEndianReverse(there, to);
    ConvertBack(Reverse(there), s, to, from);
    ReverseTwice(s);
  }

  lemma ConvertBack(text: seq<nat>, s: seq<nat>, from: nat, to: nat)
    requires from >= 2 && to >= 2 && Significant(text, from) && Significant(s, to)
    requires BigEndian(text, from) == BigEndian(s, to)
    ensures Convert(text, from, to) == Reverse(s)
  {
    hide Convert, Value, BigEndian;
    ConvertValue(text, from, to);
    ConvertCanonical(text, from, to);
    BigEndianReverse(Reverse(s), to);
    ReverseTwice(s);
    Unique(Convert(text, from, to), Reverse(s), to);
  }

  // ---- the leading digits of a number ----

  function Pow(base: nat, n: nat): nat {
    if n == 0 then 1 else base * Pow(base, n - 1)
  }

  lemma {:induction false} ValueSplit(d: seq<nat>, k: nat, base: nat)
    requires k <= |d| && Digits(d, base) && base >= 2
    ensures Value(d, base) == Value(d[..k], base) + Pow(base, k) * Value(d[k..], base)
    ensures Value(d[..k], base) < Pow(base, k)
    decreases k
  {
    if k == 0 {
      assert d[0..] == d;
    } else {
      ValueSplit(d[1..], k - 1, base);
      assert d[1..][..k - 1] == d[..k][1..] && d[1..][k - 1..] == d[k..];
      SplitStep(d[0], Value(d[..k][1..], base), Pow(base, k - 1), Value(d[k..], base), base);
    }
  }

  lemma SplitStep(x: nat, low: nat, pow: nat, high: nat, base: nat)
    requires x < base && low < pow
    ensures x + base * (low + pow * high) == (x + base * low) + (base * pow) * high
    ensures x + base * low < base * pow
  {
    calc {
      base * (low + pow * high);
      base * low + base * (pow * high);
      base * low + (base * pow) * high;
    }
    MulMonotone(low + 1, pow, base);
    Successor(low, base);
  }

  lemma Quotient(low: nat, p: nat, v: nat, t: nat)
    requires low < p && p * t <= low + p * v < p * t + p
    ensures v == t
  {
    if v < t {
      MulMonotone(v + 1, t, p);
      Successor(v, p);
    } else if v > t {
      MulMonotone(t + 1, v, p);
      Successor(t, p);
    }
  }

  /** If the value lies between `top` and `top + 1` times a power, the digits above it are those of `top`. */
  lemma LeadingDigits(d: seq<nat>, k: nat, top: seq<nat>, base: nat)
    requires base >= 2 && Canonical(d, base) && Canonical(top, base) && top != []
    requires Pow(base, k) * Value(top, base) <= Value(d, base) < Pow(base, k) * Value(top, base) + Pow(base, k)
    ensures |d| == k + |top| && d[k..] == top
  {
    Positive(top, base);
    var p := Pow(base, k);
    MulMonotone(1, Value(top, base), p);
    if |d| <= k {
      ValueSplit(d, |d|, base);
      assert d[..|d|] == d && d[|d|..] == [];
      PowMonotone(base, |d|, k);
      assert false;
    }
    ValueSplit(d, k, base);
    Quotient(Value(d[..k], base), p, Value(d[k..], base), Value(top, base));
    Unique(d[k..], top, base);
  }

  lemma {:induction false} PowMonotone(base: nat, a: nat, b: nat)
    requires base >= 1 && a <= b
    ensures 1 <= Pow(base, a) <= Pow(base, b)
    decreases b - a, a
  {
    if a < b {
      PowMonotone(base, a, b - 1);
    } else if a > 0 {
      PowMonotone(base, a - 1, a - 1);
    }
  }

  lemma {:induction false} PowAdd(base: nat, a: nat, b: nat)
    ensures Pow(base, a + b) == Pow(base, a) * Pow(base, b)
    decreases a
  {
    if a > 0 {
      PowAdd(base, a - 1, b);
      PowStep(base, a);
      PowStep(base, a + b);
      hide Pow;
      MulAssociates(base, Pow(base, a - 1), Pow(base, b));
    }
  }

  lemma PowStep(base: nat, n: nat)
    requires n > 0
    ensures Pow(base, n) == base * Pow(base, n - 1)
  {
  }

  lemma MulAssociates(a: nat, b: nat, c: nat)
    ensures a * (b * c) == (a * b) * c
  {
  }

  // ---- the loops of the source ----

  /** The inner loops: every digit is rewritten in place, then the carry is pushed. */
  method MulAddInPlace(digits: seq<nat>, mult: nat, carry: nat, base: nat) returns (out: seq<nat>)
    requires 2 <= base <= 256 && 1 <= mult <= 256 && carry < mult && Digits(digits, base)
    ensures out == MulAdd(digits, mult, carry, base)
  {
    hide Acc, Rem, Quo;
    out := digits;
    var c: nat := carry;
    var i := 0;
    assert out[..0] + MulAdd(out[0..], mult, c, base) == MulAdd(digits, mult, carry, base) by {
      assert out[0..] == digits;
    }
    hide MulAdd;
    while i < |out|
      invariant 0 <= i <= |out| == |digits| && c < mult
      invariant out[i..] == digits[i..]
      invariant out[..i] + MulAdd(out[i..], mult, c, base) == MulAdd(digits, mult, carry, base)
    {
      var v := Acc(digits[i], mult, c);
      assert out[i] == out[i..][0] == digits[i];
      InRange(digits[i], mult, c, base);
      MulAddStep(out, i, mult, c, base);
      out := out[i := Rem(v, base)];
      c := Quo(v, base);
      i := i + 1;
    }
    assert out[i..] == [] && out[..i] == out;
    MulAddEmpty(mult, c, base);
    out := PushCarry(out, c, base);
  }

  lemma MulAddEmpty(mult: nat, c: nat, base: nat)
    requires base >= 2
    ensures MulAdd([], mult, c, base) == ToDigits(c, base)
  {
  }

  lemma MulAddStep(out: seq<nat>, i: nat, mult: nat, c: nat, base: nat)
    requires i < |out| && base >= 2
    ensures var v := Acc(out[i], mult, c);
            var next := out[i := Rem(v, base)];
            && next[i + 1..] == out[i + 1..]
            && out[..i] + MulAdd(out[i..], mult, c, base) == next[..i + 1] + MulAdd(next[i + 1..], mult, Quo(v, base), base)
  {
    var v := Acc(out[i], mult, c);
    hide Acc;
    var next := out[i := Rem(v, base)];
    assert out[i..][1..] == out[i + 1..] == next[i + 1..];
    assert next[..i + 1] == out[..i] + [Rem(v, base)];
    var tail := MulAdd(out[i + 1..], mult, Quo(v, base), base);
    assert out[..i] + ([Rem(v, base)] + tail) == (out[..i] + [Rem(v, base)]) + tail;
  }

  method PushCarry(digits: seq<nat>, carry: nat, base: nat) returns (out: seq<nat>)
    requires base >= 2
    ensures out == digits + ToDigits(carry, base)
  {
    out := digits;
    var c: nat := carry;
    while c > 0
      invariant out + ToDigits(c, base) == digits + ToDigits(carry, base)
    {
      DivLess(c, base);
      assert ToDigits(c, base) == [Rem(c, base)] + ToDigits(Quo(c, base), base);
      out := out + [Rem(c, base)];
      c := Quo(c, base);
    }
    assert out + [] == out;
  }

  lemma AccBound(d: nat, mult: nat, carry: nat, base: nat)
    requires d < base && carry < mult && base <= 256 && mult <= 256
    ensures Acc(d, mult, carry) < mult * base <= 0x1_0000
  {
    MulMonotone(d + 1, base, mult);
    Successor(d, mult);
    MulMonotone(base, 256, mult);
  }

  /** The 32-bit accumulator never overflows and the carry stays below the multiplier. */
  lemma InRange(d: nat, mult: nat, carry: nat, base: nat)
    requires d < base && carry < mult && 2 <= base <= 256 && mult <= 256
    ensures Acc(d, mult, carry) < 0x1_0000_0000
    ensures Quo(Acc(d, mult, carry), base) < mult
  {
    AccBound(d, mult, carry, base);
    hide Acc;
    var v := Acc(d, mult, carry);
    QuotientRemainder(v, base);
    Bounded(v, base, Quo(v, base), mult);
  }

  lemma Bounded(v: nat, base: nat, q: nat, mult: nat)
    requires base * q <= v < mult * base
    ensures q < mult
  {
    if q >= mult {
      MulMonotone(mult, q, base);
    }
  }

  method ConvertLoop(s: seq<nat>, from: nat, to: nat) returns (out: seq<nat>)
    requires 2 <= to <= 256 && 2 <= from <= 256 && Digits(s, from)
    ensures out == Convert(s, from, to)
  {
    out := [];
    var i := 0;
    while i < |s|
      invariant 0 <= i <= |s| && Digits(out, to)
      invariant out == Convert(s[..i], from, to)
    {
      assert s[..i + 1][..i] == s[..i];
      assert s[i] < from;
      MulAddValue(out, from, s[i], to);
      out := MulAddInPlace(out, from, s[i], to);
      i := i + 1;
    }
    assert s[..i] == s;
  }
}
