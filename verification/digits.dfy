/** Positional numerals: powers, little-endian digit sequences and the digits of a number. */
module Digits {
  import opened Text

  function Pow(b: nat, e: nat): (r: nat)
    ensures b > 0 ==> r > 0
  {
    if e == 0 then 1 else b * Pow(b, e - 1)
  }

  /** Value of a digit sequence whose first element is the least significant. */
  function LittleEndian(ds: seq<nat>, base: nat): nat {
    if |ds| == 0 then 0 else ds[0] + base * LittleEndian(ds[1..], base)
  }

  /** Value of a digit sequence whose first element is the most significant. */
  function BigEndian(ds: seq<nat>, base: nat): nat {
    if |ds| == 0 then 0 else BigEndian(ds[..|ds| - 1], base) * base + ds[|ds| - 1]
  }

  predicate DigitsBelow(ds: seq<nat>, base: nat) {
    forall i :: 0 <= i < |ds| ==> ds[i] < base
  }

  /** The `count` lowest base-`base` digits of `n`, least significant first. */
  function ToDigits(n: nat, base: nat, count: nat): (ds: seq<nat>)
    requires base > 1
    ensures |ds| == count
    ensures DigitsBelow(ds, base)
    decreases count
  {
    if count == 0 then [] else [n % base] + ToDigits(n / base, base, count - 1)
  }

  lemma DivUnique(n: int, d: int, q: int, r: int)
    requires d > 0 && 0 <= r < d && n == d * q + r
    ensures n / d == q && n % d == r
  {
    var q0, r0 := n / d, n % d;
    assert n == d * q0 + r0;
    MulAtLeast(d, q0 - q);
    assert d * q0 == d * q + d * (q0 - q);
  }

  /** A non-zero multiple of `d` is at least `d` away from zero. */
  lemma MulAtLeast(d: int, x: int)
    requires d > 0
    ensures x >= 1 ==> d * x >= d
    ensures x <= -1 ==> d * x <= -d
  {
    assert d * x == d * (x - 1) + d;
    assert d * x == d * (x + 1) - d;
    MulNonNeg(d, x - 1);
    MulNonNeg(d, -x - 1);
    assert d * (-x - 1) == -(d * (x + 1));
  }

  lemma MulNonNeg(a: int, x: int)
    requires a >= 0
    ensures x >= 0 ==> a * x >= 0
  {
  }

  lemma MulMono(a: int, x: int, y: int)
    requires a >= 0 && x <= y
    ensures a * x <= a * y
  {
    assert a * y == a * x + a * (y - x);
    MulNonNeg(a, y - x);
  }

  /** Dividing twice is dividing by the product. */
  lemma DivDiv(n: nat, a: nat, b: nat)
    requires a > 0 && b > 0
    ensures n / a / b == n / (a * b)
    ensures n % (a * b) == n % a + a * ((n / a) % b)
  {
    var q, r := n / a, n % a;
    var q2, r2 := q / b, q % b;
    assert n == a * q + r;
    assert q == b * q2 + r2;
    assert a * q == (a * b) * q2 + a * r2 by {
      assert a * (b * q2 + r2) == a * (b * q2) + a * r2;
      assert a * (b * q2) == (a * b) * q2;
    }
    assert a * r2 + r < a * b by {
      MulMono(a, r2, b - 1);
      assert a * (b - 1) == a * b - a;
    }
    MulNonNeg(a, r2);
    assert a * b > 0 by { MulAtLeast(a, b); }
    DivUnique(n, a * b, q2, a * r2 + r);
  }

  /** The little-endian digits of `n` evaluate back to `n` modulo `base^count`. */
  lemma {:induction false} ToDigitsValue(n: nat, base: nat, count: nat)
    requires base > 1
    ensures LittleEndian(ToDigits(n, base, count), base) == n % Pow(base, count)
    decreases count
  {
    if count > 0 {
      var ds := ToDigits(n, base, count);
      assert ds[1..] == ToDigits(n / base, base, count - 1);
      ToDigitsValue(n / base, base, count - 1);
      DivDiv(n, base, Pow(base, count - 1));
    }
  }

  /** Appending the next digit: the digit at position `count` is `(n / base^count) % base`. */
  lemma {:induction false} ToDigitsSnoc(n: nat, base: nat, count: nat)
    requires base > 1
    ensures ToDigits(n, base, count + 1) == ToDigits(n, base, count) + [(n / Pow(base, count)) % base]
    decreases count
  {
    if count > 0 {
      var p := Pow(base, count - 1);
      var d := (n / Pow(base, count)) % base;
      assert n / base / p == n / Pow(base, count) by {
        DivDiv(n, base, p);
        assert Pow(base, count) == base * p;
      }
      var tail := ToDigits(n / base, base, count - 1);
      assert ToDigits(n / base, base, count) == tail + [d] by {
        ToDigitsSnoc(n / base, base, count - 1);
      }
      assert ToDigits(n, base, count + 1) == [n % base] + (tail + [d]);
      assert ToDigits(n, base, count) == [n % base] + tail;
    }
  }

  /** Reading digits most-significant first gives the same value as little-endian on the reversal. */
  lemma {:induction false} BigEndianOfReverse(ds: seq<nat>, base: nat)
    ensures BigEndian(Reverse(ds), base) == LittleEndian(ds, base)
  {
    if |ds| > 0 {
      var r := Reverse(ds);
      assert r[..|r| - 1] == Reverse(ds[1..]);
      BigEndianOfReverse(ds[1..], base);
    }
  }


  /** Digit `i` of `n` is `(n / base^i) % base`. */
  lemma {:induction false} ToDigitsAt(n: nat, base: nat, count: nat, i: nat)
    requires base > 1 && i < count
    ensures ToDigits(n, base, count)[i] == (n / Pow(base, i)) % base
    decreases count
  {
    if i + 1 < count {
      ToDigitsAt(n, base, count - 1, i);
      ToDigitsSnoc(n, base, count - 1);
    } else {
      ToDigitsSnoc(n, base, i);
    }
  }

  lemma {:induction false} PowAdd(b: nat, x: nat, y: nat)
    ensures Pow(b, x + y) == Pow(b, x) * Pow(b, y)
    decreases y
  {
    if y > 0 {
      PowAdd(b, x, y - 1);
      assert Pow(b, x) * (b * Pow(b, y - 1)) == b * (Pow(b, x) * Pow(b, y - 1));
    }
  }

  /** `2^(8i) == 256^i`: shifting right by `8i` bits is dividing by `256^i`. */
  lemma {:induction false} PowBytes(i: nat)
    ensures Pow(2, 8 * i) == Pow(256, i)
  {
    if i > 0 {
      PowBytes(i - 1);
      PowAdd(2, 8 * (i - 1), 8);
      assert Pow(2, 8) == 256;
    }
  }
}
