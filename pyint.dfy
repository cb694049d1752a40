/** Python's `int(s)`, `int(s, 16)` and `str(n)` for integers, in the simplified
    grammar the model uses: an optional sign followed by ASCII digits (and, in
    base 16, an optional `0x`/`0X` prefix). */
module PyInt {
  import opened Wrappers
  import opened Digits

  predicate IsDecimalDigit(c: char)
  {
    '0' <= c <= '9'
  }

  predicate IsHexDigit(c: char)
  {
    IsDecimalDigit(c) || 'a' <= c <= 'f' || 'A' <= c <= 'F'
  }

  /** The value of a hexadecimal digit character, either case. */
  function HexDigitValue(c: char): (v: nat)
    requires IsHexDigit(c)
    ensures v < 16 && (IsDecimalDigit(c) <==> v < 10)
  {
    if IsDecimalDigit(c) then c as int - '0' as int
    else if 'a' <= c <= 'f' then c as int - 'a' as int + 10
    else c as int - 'A' as int + 10
  }

  /** The lower-case character of a hexadecimal digit. */
  function DigitChar(d: nat): (c: char)
    requires d < 16
    ensures IsHexDigit(c) && HexDigitValue(c) == d
  {
    if d < 10 then ('0' as int + d) as char else ('a' as int + d - 10) as char
  }

  /** A non-empty run of decimal digits. */
  predicate AllDecimal(s: string)
  {
    |s| > 0 && forall i :: 0 <= i < |s| ==> IsDecimalDigit(s[i])
  }

  /** A non-empty run of hexadecimal digits. */
  predicate AllHex(s: string)
  {
    |s| > 0 && forall i :: 0 <= i < |s| ==> IsHexDigit(s[i])
  }

  /** The digit values of a run of hexadecimal digits, in order. */
  function DigitValues(s: string): (ds: seq<nat>)
    requires forall i :: 0 <= i < |s| ==> IsHexDigit(s[i])
    ensures |ds| == |s| && AreDigits(ds, 16)
  {
    seq(|s|, i requires 0 <= i < |s| => HexDigitValue(s[i]))
  }

  /** The characters of a digit string. */
  function DigitString(ds: seq<nat>): (s: string)
    requires AreDigits(ds, 16)
    ensures |s| == |ds| && forall i :: 0 <= i < |s| ==> IsHexDigit(s[i])
  {
    seq(|ds|, i requires 0 <= i < |ds| => DigitChar(ds[i]))
  }

  /** An optional leading `+` or `-`, and what follows it. */
  function SplitSign(s: string): (bool, string)
  {
    if s != [] && s[0] == '-' then (true, s[1..])
    else if s != [] && s[0] == '+' then (false, s[1..])
    else (false, s)
  }

  function Signed(negative: bool, v: nat): int
  {
    if negative then -(v as int) else v
  }

  /** The decimal literal grammar `int(s)` accepts here: `[+-]?[0-9]+`. */
  predicate IsDecimalLiteral(s: string)
  {
    AllDecimal(s) || (|s| > 1 && (s[0] == '+' || s[0] == '-') && AllDecimal(s[1..]))
  }

  /** Python's `int(s)`; `None` where Python raises `ValueError`. */
  function ParseDecimal(s: string): (r: Option<int>)
    ensures r.Some? <==> IsDecimalLiteral(s)
  {
    var (negative, body) := SplitSign(s);
    if AllDecimal(body) then Some(Signed(negative, FromDigits(DigitValues(body), 10))) else None
  }

  /** The digits after an optional `0x`/`0X` prefix. */
  function DropHexPrefix(s: string): string
  {
    if |s| >= 2 && s[0] == '0' && (s[1] == 'x' || s[1] == 'X') then s[2..] else s
  }

  /** The value of a run of hexadecimal digits, read left to right; `None`
      when the run is empty or holds another character. */
  function HexRunValue(s: string): Option<nat>
  {
    if s == [] || !IsHexDigit(s[|s| - 1]) then None
    else if |s| == 1 then Some(HexDigitValue(s[0]))
    else match HexRunValue(s[..|s| - 1])
      case None => None
      case Some(v) => Some(v * 16 + HexDigitValue(s[|s| - 1]))
  }

  /** A hexadecimal run has a value exactly when it is a non-empty run of
      hexadecimal digits, and that value is its base-16 reading. */
  lemma {:induction false} HexRunValueSpec(s: string)
    ensures HexRunValue(s).Some? <==> AllHex(s)
    ensures HexRunValue(s).Some? ==> HexRunValue(s).value == FromDigits(DigitValues(s), 16)
  {
    if s != [] && IsHexDigit(s[|s| - 1]) {
      var init := s[..|s| - 1];
      if |s| == 1 {
        assert DigitValues(s)[..0] == [];
      } else {
        HexRunValueSpec(init);
        assert forall i :: 0 <= i < |init| ==> init[i] == s[i];
        if AllHex(init) {
          assert DigitValues(s)[..|s| - 1] == DigitValues(init);
        }
      }
    }
  }

  /** Python's `int(s, 16)`; `None` where Python raises `ValueError`. */
  function ParseHex(s: string): (r: Option<int>)
  {
    var (negative, rest) := SplitSign(s);
    match HexRunValue(DropHexPrefix(rest))
    case None => None
    case Some(v) => Some(Signed(negative, v))
  }

  /** Python's `str(n)` for an integer: a `-` for negatives, then the shortest
      decimal digits. */
  function IntToString(n: int): (s: string)
    ensures s != []
  {
    var digits := ToDigits(if n < 0 then -n else n, 10);
    (if n < 0 then "-" else "") + DigitString(digits)
  }

  /** `int(str(n)) == n`. */
  lemma ParseIntToString(n: int)
    ensures ParseDecimal(IntToString(n)) == Some(n)
  {
    var m: nat := if n < 0 then -n else n;
    var ds := ToDigits(m, 10);
    var body := DigitString(ds);
    var s := IntToString(n);
    assert AllDecimal(body);
    assert SplitSign(s).1 == body;
    assert DigitValues(body) == ds;
    FromToDigits(m, 10);
  }
}
