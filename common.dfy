/**
 Small pieces of Python behaviour that both scripts rely on: optional values
 (`dict.get` with a default), bytes, slices that clamp instead of failing,
 `str(n)` for integers and `str.strip()`.
 */
module Common {

  datatype Option<T> = None | Some(value: T)
  {
    /** `d.get(key, default)`: the stored value, or the default when absent. */
    function GetOr(default: T): T
    {
      if Some? then value else default
    }
  }

  newtype byte = x: int | 0 <= x < 256

  function Min(a: int, b: int): int
  {
    if a <= b then a else b
  }

  function Max(a: int, b: int): int
  {
    if a <= b then b else a
  }

  /** Python's `s[lo:hi]` for non-negative bounds: both bounds clamp to the length. */
  function Slice<T>(s: seq<T>, lo: nat, hi: nat): (r: seq<T>)
    ensures |r| == Max(0, Min(hi, |s|) - Min(lo, |s|))
    ensures forall k :: 0 <= k < |r| ==> r[k] == s[lo + k]
  {
    var a := Min(lo, |s|);
    var b := Min(hi, |s|);
    if a <= b then s[a..b] else []
  }

  /** Python's `s[lo:]`. */
  function From<T>(s: seq<T>, lo: nat): (r: seq<T>)
    ensures s == s[..Min(lo, |s|)] + r
  {
    Slice(s, lo, |s|)
  }

  /** Python's `s[:end]`, including the meaning of a negative end (counted from the back). */
  function Take<T>(s: seq<T>, end: int): (r: seq<T>)
    ensures r <= s
    ensures |r| == if end >= 0 then Min(end, |s|) else Max(0, |s| + end)
  {
    if end >= 0 then s[..Min(end, |s|)] else s[..Max(0, |s| + end)]
  }

  /** `[f(x) for x in s]`. */
  function Map<T, U>(s: seq<T>, f: T -> U): (r: seq<U>)
    ensures |r| == |s|
    ensures forall k :: 0 <= k < |s| ==> r[k] == f(s[k])
  {
    seq(|s|, k requires 0 <= k < |s| => f(s[k]))
  }

  /** Mapping one more element appends its image. */
  lemma MapStep<T, U>(s: seq<T>, f: T -> U, i: nat)
    requires i < |s|
    ensures Map(s[..i + 1], f) == Map(s[..i], f) + [f(s[i])]
  {
  }

  // ---------------------------------------------------------------------------
  // `str(n)` for Python integers, and the decimal reading that undoes it

  function DigitChar(d: nat): (c: char)
    requires d < 10
  {
    "0123456789"[d]
  }

  predicate IsDigit(c: char)
  {
    '0' <= c <= '9'
  }

  predicate AllDigits(s: string)
  {
    forall k :: 0 <= k < |s| ==> IsDigit(s[k])
  }

  function DigitValue(c: char): nat
    requires IsDigit(c)
  {
    (c as int - '0' as int) as nat
  }

  /** The decimal numeral of `n`, most significant digit first, no leading zeros. */
  function NatToDecimal(n: nat): (s: string)
    ensures |s| > 0
    ensures AllDigits(s)
    ensures n > 0 ==> s[0] != '0'
    ensures n == 0 ==> s == "0"
  {
    if n < 10 then [DigitChar(n)] else NatToDecimal(n / 10) + [DigitChar(n % 10)]
  }

  /** `str(n)`: a minus sign for negative numbers, then the decimal numeral. */
  function IntToDecimal(n: int): (s: string)
    ensures |s| > 0
    ensures (s[0] == '-') == (n < 0)
  {
    if n < 0 then "-" + NatToDecimal(-n) else NatToDecimal(n)
  }

  /** Reading a string of digits as a natural number. */
  function ParseDigits(s: string): nat
    requires AllDigits(s)
  {
    if s == [] then 0 else 10 * ParseDigits(s[..|s| - 1]) + DigitValue(s[|s| - 1])
  }

  /** Reading what `str` printed for an integer. */
  function ParseInt(s: string): int
  {
    if |s| > 0 && s[0] == '-' && AllDigits(s[1..]) then
      -(ParseDigits(s[1..]) as int)
    else if AllDigits(s) then
      ParseDigits(s)
    else
      0
  }

  lemma {:induction false} ParseNatToDecimal(n: nat)
    ensures ParseDigits(NatToDecimal(n)) == n
  {
    var s := NatToDecimal(n);
    if n < 10 {
      assert s[..0] == [];
    } else {
      ParseNatToDecimal(n / 10);
      assert s[..|s| - 1] == NatToDecimal(n / 10);
    }
  }

  /** A minus sign before a numeral negates its value. */
  lemma ParseMinus(s: string, digits: string, m: nat)
    requires AllDigits(digits) && ParseDigits(digits) == m && s == "-" + digits
    ensures ParseInt(s) == -(m as int)
  {
    assert s[1..] == digits;
  }

  lemma NegativeDecimal(m: nat)
    requires m > 0
    ensures IntToDecimal(-(m as int)) == "-" + NatToDecimal(m)
  {
  }

  lemma ParseNegative(m: nat)
    requires m > 0
    ensures ParseInt(IntToDecimal(-(m as int))) == -(m as int)
  {
    NegativeDecimal(m);
    ParseNatToDecimal(m);
    ParseMinus(IntToDecimal(-(m as int)), NatToDecimal(m), m);
  }

  lemma ParseNonNegative(n: int)
    requires n >= 0
    ensures ParseInt(IntToDecimal(n)) == n
  {
    ParseNatToDecimal(n);
  }

  /** `str` on integers is undone by `ParseInt`, so two integers print alike only if equal. */
  lemma ParseIntToDecimal(n: int)
    ensures ParseInt(IntToDecimal(n)) == n
  {
    if n < 0 {
      ParseNegative(-n);
    } else {
      ParseNonNegative(n);
    }
  }

  lemma IntToDecimalInjective(a: int, b: int)
    ensures IntToDecimal(a) == IntToDecimal(b) ==> a == b
  {
    ParseIntToDecimal(a);
    ParseIntToDecimal(b);
  }

  // ---------------------------------------------------------------------------
  // `str.strip()` with no argument

  /** The characters for which Python's `str.isspace()` holds. */
  predicate IsSpace(c: char)
  {
    var n := c as int;
    || 9 <= n <= 13 || 28 <= n <= 32 || n == 0x85 || n == 0xA0 || n == 0x1680
    || 0x2000 <= n <= 0x200A || n == 0x2028 || n == 0x2029 || n == 0x202F
    || n == 0x205F || n == 0x3000
  }

  predicate AllSpace(s: string)
  {
    forall k :: 0 <= k < |s| ==> IsSpace(s[k])
  }

  /** Drops leading whitespace: the result is a suffix, what it drops is whitespace. */
  function TrimStart(s: string): (r: string)
    ensures |r| <= |s| && r == s[|s| - |r|..]
    ensures AllSpace(s[..|s| - |r|])
    ensures r != [] ==> !IsSpace(r[0])
  {
    if |s| > 0 && IsSpace(s[0]) then
      var r := TrimStart(s[1..]);
      assert s[..|s| - |r|] == [s[0]] + s[1..][..|s| - 1 - |r|];
      r
    else s
  }

  /** Drops trailing whitespace: the result is a prefix, what it drops is whitespace. */
  function TrimEnd(s: string): (r: string)
    ensures r <= s
    ensures AllSpace(s[|r|..])
    ensures r != [] ==> !IsSpace(r[|r| - 1])
  {
    if |s| > 0 && IsSpace(s[|s| - 1]) then TrimEnd(s[..|s| - 1]) else s
  }

  /** `s.strip()`: a piece of `s` with no whitespace at either end, all of it when `s` has none there. */
  function Strip(s: string): (r: string)
    ensures |r| <= |s|
    ensures r != [] ==> !IsSpace(r[0]) && !IsSpace(r[|r| - 1])
    ensures s != [] && !IsSpace(s[0]) && !IsSpace(s[|s| - 1]) ==> r == s
  {
    var t := TrimStart(s);
    var r := TrimEnd(t);
    assert r != [] ==> r[0] == t[0];
    r
  }

  /** `s.strip()` is empty exactly when every character of `s` is whitespace. */
  lemma StripEmptyIff(s: string)
    ensures Strip(s) == [] <==> AllSpace(s)
  {
    var t := TrimStart(s);
    if Strip(s) == [] {
      assert AllSpace(t[0..]);
      assert t == [];
      assert s[..|s|] == s;
    }
  }

  /**
   A prefix `r` of a suffix `t` of `s`, where what was cut off on either side
   is whitespace, is a piece of `s` with only whitespace around it.
   */
  lemma SpaceAround(s: string, t: string, r: string)
    requires |t| <= |s| && t == s[|s| - |t|..] && AllSpace(s[..|s| - |t|])
    requires r <= t && AllSpace(t[|r|..])
    ensures exists i :: 0 <= i <= |s| - |r| && r == s[i..i + |r|] && AllSpace(s[..i]) && AllSpace(s[i + |r|..])
  {
    var i := |s| - |t|;
    assert r == s[i..i + |r|];
    assert s[i + |r|..] == t[|r|..];
  }

  /**
   `s.strip()` removes only whitespace, and only at the two ends: what is left
   is a contiguous piece of `s` with nothing but whitespace before and after it.
   */
  lemma StripSegment(s: string)
    ensures var r := Strip(s);
      exists i :: 0 <= i <= |s| - |r| && r == s[i..i + |r|] && AllSpace(s[..i]) && AllSpace(s[i + |r|..])
  {
    SpaceAround(s, TrimStart(s), Strip(s));
  }

  /** A stripped string is left as it is by a second strip. */
  lemma StripIdempotent(s: string)
    ensures Strip(Strip(s)) == Strip(s)
  {
    var r := Strip(s);
    if r != [] {
      assert TrimStart(r) == r;
    }
  }
}
