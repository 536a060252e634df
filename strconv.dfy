/**
 * strconv.ParseInt(s, 0, 64), the call that turns the upstream's "last"
 * marker into the next cursor, and strconv.Itoa, which renders a cursor
 * into the request.
 */
module StrConv {
  import opened Wrappers
  import Int64

  const MaxUint64: int := 0xffff_ffff_ffff_ffff

  /** The value of a digit in bases up to 36: '0'-'9', then letters of either case; -1 for anything else. */
  function DigitValue(c: char): (d: int)
    ensures -1 <= d < 36
    ensures '0' <= c <= '9' <==> 0 <= d < 10
  {
    if '0' <= c <= '9' then c as int - '0' as int
    else if 'a' <= c <= 'z' then c as int - 'a' as int + 10
    else if 'A' <= c <= 'Z' then c as int - 'A' as int + 10
    else -1
  }

  predicate IsDigitOf(c: char, base: nat) { 0 <= DigitValue(c) < base }

  /** The value of a string of digits in `base`; None as soon as one character is not such a digit. */
  function Digits(s: string, base: nat): (r: Option<nat>)
    requires 2 <= base <= 36
    ensures r.Some? <==> forall i :: 0 <= i < |s| ==> IsDigitOf(s[i], base)
    decreases |s|
  {
    if s == [] then Some(0)
    else
      var init := s[..|s| - 1];
      assert forall i :: 0 <= i < |init| ==> init[i] == s[i];
      match Digits(init, base)
      case None => None
      case Some(v) =>
        var d := DigitValue(s[|s| - 1]);
        if 0 <= d < base then Some(v * base + d) else None
  }

  datatype Radix = Radix(base: nat, digits: string)

  /**
   * How base 0 picks the base: "0b", "0o" and "0x" (either case) on a
   * string of at least three characters, else a leading "0" for octal,
   * else decimal.
   */
  function SplitRadix(s: string): (r: Radix)
    requires s != []
    ensures r.base in {2, 8, 10, 16}
    ensures r.base == 10 <==> s[0] != '0'
    ensures r.base == 10 ==> r.digits == s
    ensures r.base == 2 <==> |s| >= 3 && s[0] == '0' && (s[1] == 'b' || s[1] == 'B')
    ensures r.base == 16 <==> |s| >= 3 && s[0] == '0' && (s[1] == 'x' || s[1] == 'X')
    ensures r.base == 2 || r.base == 16 ==> r.digits == s[2..]
    ensures r.base == 8 ==> r.digits == (if |s| >= 3 && (s[1] == 'o' || s[1] == 'O') then s[2..] else s[1..])
  {
    if s[0] == '0' && |s| >= 3 && (s[1] == 'b' || s[1] == 'B') then Radix(2, s[2..])
    else if s[0] == '0' && |s| >= 3 && (s[1] == 'o' || s[1] == 'O') then Radix(8, s[2..])
    else if s[0] == '0' && |s| >= 3 && (s[1] == 'x' || s[1] == 'X') then Radix(16, s[2..])
    else if s[0] == '0' then Radix(8, s[1..])
    else Radix(10, s)
  }

  /** strconv.ParseUint(s, 0, 64): None for the empty string, a bad digit or a value above 2^64 - 1. */
  function ParseUint(s: string): (r: Option<nat>)
    ensures r.Some? ==> r.value <= MaxUint64
    ensures s == [] ==> r == None
  {
    if s == [] then None
    else
      var radix := SplitRadix(s);
      match Digits(radix.digits, radix.base)
      case None => None
      case Some(v) => if v <= MaxUint64 then Some(v) else None
  }

  /**
   * strconv.ParseInt(s, 0, 64): an optional sign, then ParseUint; None
   * for a syntax error and for a value outside the int64 range.
   */
  function ParseInt(s: string): (r: Option<int>)
    ensures r.Some? ==> Int64.InRange(r.value)
    ensures s == [] ==> r == None
  {
    if s == [] then None
    else
      var neg := s[0] == '-';
      var magnitude := if s[0] == '+' || s[0] == '-' then s[1..] else s;
      match ParseUint(magnitude)
      case None => None
      case Some(u) =>
        var value: int := if neg then 0 - u as int else u as int;
        if Int64.InRange(value) then Some(value) else None
  }

  function DigitChar(d: nat): (c: char)
    requires d < 10
    ensures DigitValue(c) == d
  {
    ('0' as int + d) as char
  }

  /** Decimal digits of n without leading zeros. */
  function Decimal(n: nat): (s: string)
    ensures |s| >= 1
    ensures n > 0 ==> s[0] != '0'
    ensures forall i :: 0 <= i < |s| ==> '0' <= s[i] <= '9'
    decreases n
  {
    if n < 10 then [DigitChar(n)] else Decimal(n / 10) + [DigitChar(n % 10)]
  }

  /** strconv.Itoa on an int64. */
  function Itoa(n: int): string
  {
    if n < 0 then "-" + Decimal(-n) else Decimal(n)
  }

  lemma {:induction false} DigitsOfDecimal(n: nat)
    ensures Digits(Decimal(n), 10) == Some(n)
    decreases n
  {
    var s := Decimal(n);
    if n >= 10 {
      DigitsOfDecimal(n / 10);
      assert s[..|s| - 1] == Decimal(n / 10);
    }
  }

  lemma ParseUintDecimal(m: nat)
    requires m <= MaxUint64
    ensures ParseUint(Decimal(m)) == Some(m)
  {
    var d := Decimal(m);
    if m == 0 {
      assert d == "0" && SplitRadix(d) == Radix(8, []);
    } else {
      DigitsOfDecimal(m);
      assert SplitRadix(d) == Radix(10, d);
    }
  }

  /** Every int64 cursor written out by Itoa reads back unchanged. */
  lemma ParseItoa(n: int)
    requires Int64.InRange(n)
    ensures ParseInt(Itoa(n)) == Some(n)
  {
    var m: nat := if n < 0 then -n else n;
    var d := Decimal(m);
    ParseUintDecimal(m);
    if n < 0 {
      assert Itoa(n) == "-" + d && ("-" + d)[0] == '-' && ("-" + d)[1..] == d;
    } else {
      assert Itoa(n) == d && d[0] != '-' && d[0] != '+';
    }
  }

  /** Base 0 reads a leading zero as octal: the marker "010" would become 8, not 10. */
  lemma LeadingZeroIsOctal()
    ensures ParseInt("010") == Some(8)
  {
    assert SplitRadix("010") == Radix(8, "10");
    assert "10"[..1] == "1" && "1"[..0] == [];
    assert Digits("1", 8) == Some(1);
    assert Digits("10", 8) == Some(8);
  }

  /** A hexadecimal marker is accepted too. */
  lemma HexMarker()
    ensures ParseInt("0x1F") == Some(31)
  {
    assert SplitRadix("0x1F") == Radix(16, "1F");
    assert "1F"[..1] == "1" && "1"[..0] == [];
    assert Digits("1", 16) == Some(1);
    assert Digits("1F", 16) == Some(31);
  }

  /** Signs and empty digit strings. */
  lemma SignsAlone()
    ensures ParseInt("-") == None && ParseInt("+") == None && ParseInt("-0") == Some(0)
  {
  }

  /** The int64 range is enforced on both ends. */
  lemma RangeLimits()
    ensures ParseInt(Itoa(Int64.MaxInt64 + 1)) == None
    ensures ParseInt(Itoa(Int64.MinInt64 - 1)) == None
  {
    DigitsOfDecimal(Int64.MaxInt64 + 1);
    DigitsOfDecimal(-(Int64.MinInt64 - 1));
    var p := Decimal(Int64.MaxInt64 + 1);
    var q := Decimal(-(Int64.MinInt64 - 1));
    assert SplitRadix(p) == Radix(10, p);
    assert ("-" + q)[1..] == q;
    assert SplitRadix(q) == Radix(10, q);
  }
}
