/** C's signed `int` arithmetic where it differs from Dafny's: division and remainder
    truncate toward zero, products wrap around at 32 bits, and `&` works on the 32-bit
    two's-complement representation. */
module CInt {

  const TWO_32 := 0x1_0000_0000
  const INT_MIN := -0x8000_0000
  const INT_MAX := 0x7FFF_FFFF

  predicate InInt32(x: int) {
    INT_MIN <= x <= INT_MAX
  }

  function Abs(x: int): nat {
    if x < 0 then -x else x
  }

  /** C's `a / b`: the quotient of the magnitudes, negative when the signs differ. */
  function CDiv(a: int, b: int): int
    requires b != 0
  {
    if a >= 0 && b > 0 then a / b
    else if a >= 0 then -(a / -b)
    else if b > 0 then -((-a) / b)
    else (-a) / (-b)
  }

  /** C's `a % b`, so that a == b * (a / b) + a % b. */
  function CMod(a: int, b: int): int
    requires b != 0
  {
    a - b * CDiv(a, b)
  }

  lemma MulSigns(x: int, y: int)
    ensures (-x) * (-y) == x * y && (-x) * y == -(x * y) && x * (-y) == -(x * y)
  {
  }

  /** Euclidean division of a natural number by a positive one. */
  lemma NatDivMod(a: nat, b: int)
    requires b > 0
    ensures a == b * (a / b) + a % b && 0 <= a % b < b && a / b >= 0
  {
  }

  /** The remainder of truncating division is smaller than the divisor and has the
      sign of the dividend. */
  lemma CDivSpec(a: int, b: int)
    requires b != 0
    ensures a == b * CDiv(a, b) + CMod(a, b)
    ensures Abs(CMod(a, b)) < Abs(b)
    ensures a >= 0 ==> CMod(a, b) >= 0
    ensures a < 0 ==> CMod(a, b) <= 0
  {
    if a >= 0 && b > 0 {
      NatDivMod(a, b);
      assert CMod(a, b) == a % b;
    } else if a >= 0 {
      var q := a / -b;
      NatDivMod(a, -b);
      MulSigns(b, q);
      assert b * CDiv(a, b) == (-b) * q;
      assert CMod(a, b) == a % -b;
    } else if b > 0 {
      var q := (-a) / b;
      NatDivMod(-a, b);
      MulSigns(b, q);
      assert b * CDiv(a, b) == -(b * q);
      assert CMod(a, b) == -((-a) % b);
    } else {
      var q := (-a) / (-b);
      NatDivMod(-a, -b);
      MulSigns(b, q);
      assert b * CDiv(a, b) == -((-b) * q);
      assert CMod(a, b) == -((-a) % (-b));
    }
  }

  lemma MulAtLeast(b: int, k: int)
    requires b > 0 && k >= 1
    ensures b * k >= b
  {
  }

  /** The quotient and remainder of Euclidean division are unique. */
  lemma DivUnique(a: int, b: int, q: int)
    requires b > 0 && a >= 0 && b * q <= a < b * q + b
    ensures a / b == q
  {
    NatDivMod(a, b);
    var q' := a / b;
    if q' < q {
      MulAtLeast(b, q - q');
    } else if q' > q {
      MulAtLeast(b, q' - q);
    }
  }

  /** Truncating division is exact on multiples. */
  lemma CDivExact(q: int, b: int)
    requires b != 0
    ensures CDiv(b * q, b) == q
  {
    var a := b * q;
    MulSigns(b, q);
    if b > 0 {
      if q >= 0 {
        DivUnique(a, b, q);
      } else {
        DivUnique(-a, b, -q);
        assert b * (-q) == -a;
      }
    } else {
      if q >= 0 {
        assert (-b) * q == -a;
        if a == 0 {
          assert a / -b == 0;
        } else {
          DivUnique(-a, -b, q);
          assert a < 0;
        }
      } else {
        assert (-b) * (-q) == a;
        DivUnique(a, -b, -q);
      }
    }
  }

  /** The value a 32-bit signed int holds after an arithmetic result wraps around. */
  function Wrap32(x: int): (w: int)
    ensures InInt32(w)
    ensures InInt32(x) ==> w == x
    ensures (x - w) % TWO_32 == 0
  {
    var m := x % TWO_32;
    if m > INT_MAX then m - TWO_32 else m
  }

  /** Two values that agree modulo 2^32 but differ are at least 2^32 apart. */
  lemma WrapDistance(x: int, w: int)
    requires (x - w) % TWO_32 == 0 && x != w
    ensures Abs(x - w) >= TWO_32
  {
    var d := x - w;
    NatDivMod(Abs(d), TWO_32);
    if d > 0 {
      assert d / TWO_32 >= 1;
      MulAtLeast(TWO_32, d / TWO_32);
    } else {
      assert (-d) % TWO_32 == 0;
      assert (-d) / TWO_32 >= 1;
      MulAtLeast(TWO_32, (-d) / TWO_32);
    }
  }

  function ToBv32(x: int): bv32 {
    (x % TWO_32) as bv32
  }

  function FromBv32(b: bv32): (x: int)
    ensures InInt32(x)
  {
    if b as int > INT_MAX then b as int - TWO_32 else b as int
  }

  /** C's `a & b` on 32-bit ints. */
  function BitAnd32(a: int, b: int): (r: int)
    ensures InInt32(r)
  {
    FromBv32(ToBv32(a) & ToBv32(b))
  }
}
