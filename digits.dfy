/** Positional notation: the value of a big-endian digit string in a given
    base, and the digit strings of a number. Shared by decimal and
    hexadecimal parsing (`int(s)`, `int(s, 16)`), by `str(n)`, and by the
    big-endian byte conversion behind `str_to_felt`. */
module Digits {

  /** `b` raised to the power `n`. */
  function Pow(b: nat, n: nat): (r: nat)
    ensures b > 0 ==> r > 0
  {
    if n == 0 then 1 else b * Pow(b, n - 1)
  }

  /** Every element of `ds` is a digit of `base`. */
  predicate AreDigits(ds: seq<nat>, base: nat)
  {
    forall i :: 0 <= i < |ds| ==> ds[i] < base
  }

  /** Big-endian value of a digit string: the most significant digit comes first. */
  function FromDigits(ds: seq<nat>, base: nat): nat
  {
    if ds == [] then 0 else FromDigits(ds[..|ds| - 1], base) * base + ds[|ds| - 1]
  }

  /** The `width` least significant digits of `n`, most significant first. */
  function ToDigitsN(n: nat, base: nat, width: nat): (ds: seq<nat>)
    requires base > 1
    ensures |ds| == width && AreDigits(ds, base)
    decreases width
  {
    if width == 0 then [] else ToDigitsN(n / base, base, width - 1) + [n % base]
  }

  /** The shortest digit string of `n`: a single zero digit for zero. */
  function ToDigits(n: nat, base: nat): (ds: seq<nat>)
    requires base > 1
    ensures |ds| > 0 && AreDigits(ds, base)
    decreases n
  {
    if n < base then [n]
    else
      DivShrinks(n, base);
      ToDigits(n / base, base) + [n % base]
  }

  /** Dividing by a base above one makes a positive number smaller. */
  lemma DivShrinks(n: nat, base: nat)
    requires base > 1 && n > 0
    ensures n / base < n
  {
    var q := n / base;
    assert n == q * base + n % base;
    MulMono(2, base, q);
  }

  /** Multiplication by a natural number is monotone. */
  lemma MulMono(a: nat, b: nat, c: nat)
    requires a <= b
    ensures a * c <= b * c
  {
  }

  /** Euclidean division undoes `q * b + r` for a remainder below `b`. */
  lemma DivModOf(q: nat, r: nat, b: nat)
    requires r < b
    ensures (q * b + r) / b == q && (q * b + r) % b == r
  {
    var n := q * b + r;
    var q', r' := n / b, n % b;
    assert n == q' * b + r';
    if q' < q {
      MulMono(q' + 1, q, b);
    } else if q' > q {
      MulMono(q + 1, q', b);
    }
  }

  /** A digit string of length `n` denotes a value below `base^n`. */
  lemma {:induction false} FromDigitsBound(ds: seq<nat>, base: nat)
    requires base > 0 && AreDigits(ds, base)
    ensures FromDigits(ds, base) < Pow(base, |ds|)
  {
    if ds != [] {
      var init, last := ds[..|ds| - 1], ds[|ds| - 1];
      assert AreDigits(init, base);
      FromDigitsBound(init, base);
      var v, p := FromDigits(init, base), Pow(base, |init|);
      assert ds[..|ds| - 1] == init;
      assert FromDigits(ds, base) == v * base + last;
      assert Pow(base, |ds|) == base * p;
      MulMono(v, p - 1, base);
      assert (p - 1) * base == p * base - base;
      assert last < base;
    }
  }

  /** Reading back the fixed-width digits of a value that fits gives the value. */
  lemma {:induction false} FromToDigitsN(n: nat, base: nat, width: nat)
    requires base > 1 && n < Pow(base, width)
    ensures FromDigits(ToDigitsN(n, base, width), base) == n
    decreases width
  {
    if width > 0 {
      var q, r := n / base, n % base;
      var p := Pow(base, width - 1);
      assert n == q * base + r;
      if q >= p {
        MulMono(p, q, base);
      }
      assert q < p;
      FromToDigitsN(q, base, width - 1);
      var ds := ToDigitsN(n, base, width);
      assert ds[..|ds| - 1] == ToDigitsN(q, base, width - 1);
      assert FromDigits(ds, base) == FromDigits(ToDigitsN(q, base, width - 1), base) * base + r;
    }
  }

  /** Writing the value of a digit string back at the same width gives the digits. */
  lemma {:induction false} ToFromDigitsN(ds: seq<nat>, base: nat)
    requires base > 1 && AreDigits(ds, base)
    ensures ToDigitsN(FromDigits(ds, base), base, |ds|) == ds
  {
    if ds != [] {
      var init, last := ds[..|ds| - 1], ds[|ds| - 1];
      assert AreDigits(init, base);
      ToFromDigitsN(init, base);
      DivModOf(FromDigits(init, base), last, base);
      assert ds == init + [last];
    }
  }

  /** The shortest digit string of `n` denotes `n`. */
  lemma {:induction false} FromToDigits(n: nat, base: nat)
    requires base > 1
    ensures FromDigits(ToDigits(n, base), base) == n
    decreases n
  {
    var ds := ToDigits(n, base);
    if n < base {
      assert ds == [n];
      assert ds[..0] == [];
    } else {
      var q, r := n / base, n % base;
      assert n == q * base + r;
      DivShrinks(n, base);
      FromToDigits(q, base);
      assert ds == ToDigits(q, base) + [r];
      assert ds[..|ds| - 1] == ToDigits(q, base);
      assert FromDigits(ds, base) == FromDigits(ToDigits(q, base), base) * base + r;
    }
  }
}
