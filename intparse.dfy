/** `str2int` (rotate.cpp:55-60): `stringstream >> int`, with 0 when the read
    fails. The read skips leading whitespace, takes an optional sign and the
    longest run of decimal digits after it, and fails when no digit follows
    the sign or when the value does not fit a 32-bit `int`. */
module IntParse {
  import opened Wrappers
  import opened Text

  const IntMin: int := -0x8000_0000
  const IntMax: int := 0x7FFF_FFFF

  predicate IsDigit(c: char) {
    '0' <= c <= '9'
  }

  predicate AllDigits(s: string) {
    forall k :: 0 <= k < |s| ==> IsDigit(s[k])
  }

  /** Length of the run of digits at the start of `s`. */
  function DigitRun(s: string): (n: nat)
    ensures n <= |s|
    ensures forall k :: 0 <= k < n ==> IsDigit(s[k])
    ensures n < |s| ==> !IsDigit(s[n])
  {
    if |s| == 0 || !IsDigit(s[0]) then 0 else 1 + DigitRun(s[1..])
  }

  function DigitValue(c: char): nat
    requires IsDigit(c)
  {
    c as int - '0' as int
  }

  /** The value of a string of decimal digits, most significant first. */
  function DigitsValue(ds: string): nat
    requires AllDigits(ds)
  {
    if ds == [] then 0 else DigitsValue(ds[..|ds| - 1]) * 10 + DigitValue(ds[|ds| - 1])
  }

  /** The integer if it fits an `int`; otherwise the extraction fails. */
  function InRange(v: int): (r: Option<int>)
    ensures r.Some? ==> IntMin <= r.value <= IntMax
  {
    if IntMin <= v <= IntMax then Some(v) else None
  }

  /** The digits at the start of `t`, negated after a minus sign. */
  function ReadMagnitude(t: string, minus: bool): (r: Option<int>)
    ensures r.Some? ==> IntMin <= r.value <= IntMax
  {
    var n := DigitRun(t);
    if n == 0 then None
    else
      var v: int := DigitsValue(t[..n]);
      InRange(if minus then -v else v)
  }

  /** The extraction itself: `Some(v)` when `>>` succeeds, `None` when it
      sets the fail bit. */
  function ParseInt(s: string): (r: Option<int>)
    ensures r.Some? ==> IntMin <= r.value <= IntMax
  {
    var i := SkipSpace(s);
    if i < |s| && (s[i] == '-' || s[i] == '+') then ReadMagnitude(s[i + 1..], s[i] == '-')
    else ReadMagnitude(s[i..], false)
  }

  /** `str2int`: the extracted value, or 0 when the extraction fails. */
  function Str2Int(s: string): (r: int)
    ensures IntMin <= r <= IntMax
    ensures ParseInt(s).Some? ==> r == ParseInt(s).value
    ensures r != 0 ==> ParseInt(s) == Some(r)
  {
    ParseInt(s).GetOr(0)
  }

  function DigitChar(d: nat): (c: char)
    requires d < 10
    ensures IsDigit(c) && DigitValue(c) == d
  {
    ('0' as int + d) as char
  }

  /** Decimal digits of `n`, without leading zeros. */
  function Digits(n: nat): (ds: string)
    ensures |ds| > 0 && AllDigits(ds)
  {
    if n < 10 then [DigitChar(n)] else Digits(n / 10) + [DigitChar(n % 10)]
  }

  /** The usual decimal text of an integer, a minus sign for negatives. */
  function Decimal(n: int): (s: string)
    ensures IsToken(s)
  {
    if n < 0 then ['-'] + Digits(-n) else Digits(n)
  }

  lemma {:induction false} DigitsValueOfDigits(n: nat)
    ensures DigitsValue(Digits(n)) == n
  {
    if n >= 10 {
      var ds := Digits(n);
      assert ds[..|ds| - 1] == Digits(n / 10);
      DigitsValueOfDigits(n / 10);
    }
  }

  /** The digit run of `ds + tail` is exactly `ds` when `tail` does not
      start with a digit. */
  lemma DigitRunAfter(ds: string, tail: string)
    requires AllDigits(ds)
    requires tail == [] || !IsDigit(tail[0])
    ensures DigitRun(ds + tail) == |ds| && (ds + tail)[..|ds|] == ds
  {
    var s := ds + tail;
    assert forall k :: 0 <= k < |ds| ==> s[k] == ds[k];
    assert tail != [] ==> s[|ds|] == tail[0];
  }

  lemma ReadMagnitudeOfRun(t: string, ds: string, minus: bool)
    requires 0 < |ds| <= |t| && DigitRun(t) == |ds| && t[..|ds|] == ds
    ensures AllDigits(ds)
    ensures ReadMagnitude(t, minus)
      == InRange(if minus then -(DigitsValue(ds) as int) else DigitsValue(ds))
  {
  }

  /** `ParseInt` once the whitespace before position `i` is skipped. */
  lemma ParseIntAt(s: string, i: nat)
    requires SkipSpace(s) == i < |s|
    ensures ParseInt(s) == if s[i] == '-' || s[i] == '+' then ReadMagnitude(s[i + 1..], s[i] == '-')
                           else ReadMagnitude(s[i..], false)
  {
    var signed := s[i] == '-' || s[i] == '+';
    assert ParseInt(s) == if signed then ReadMagnitude(s[i + 1..], s[i] == '-')
                          else ReadMagnitude(s[i..], false);
  }

  /** Digits followed by a tail that does not start with a digit. */
  lemma ReadMagnitudeOfDigits(ds: string, tail: string, minus: bool)
    requires |ds| > 0 && AllDigits(ds)
    requires tail == [] || !IsDigit(tail[0])
    ensures ReadMagnitude(ds + tail, minus)
      == InRange(if minus then -(DigitsValue(ds) as int) else DigitsValue(ds))
  {
    var t := ds + tail;
    DigitRunAfter(ds, tail);
    ReadMagnitudeOfRun(t, ds, minus);
  }

  /** Reading the decimal text of `n`, after any whitespace and before any
      text that does not start with a digit, yields `n` exactly when `n` fits
      an `int`, and fails otherwise: "12ab" reads as 12, "2147483648" fails. */
  lemma ParseIntOfDecimal(ws: string, n: int, tail: string)
    requires AllSpace(ws)
    requires tail == [] || !IsDigit(tail[0])
    ensures ParseInt(ws + Decimal(n) + tail) == if IntMin <= n <= IntMax then Some(n) else None
  {
    if n < 0 {
      ParseIntOfNegative(ws, n, tail);
    } else {
      ParseIntOfNonNegative(ws, n, tail);
    }
  }

  lemma ParseIntOfNegative(ws: string, n: int, tail: string)
    requires AllSpace(ws) && n < 0
    requires tail == [] || !IsDigit(tail[0])
    ensures ParseInt(ws + Decimal(n) + tail) == InRange(n)
  {
    var ds := Digits(-n);
    var m := ['-'] + ds;
    assert Decimal(n) == m;
    DigitsValueOfDigits(-n);
    NegativeDigits(ws, ds, tail);
    ConcatAssoc(ws, m, tail);
  }

  lemma ParseIntOfNonNegative(ws: string, n: int, tail: string)
    requires AllSpace(ws) && n >= 0
    requires tail == [] || !IsDigit(tail[0])
    ensures ParseInt(ws + Decimal(n) + tail) == InRange(n)
  {
    var ds := Digits(n);
    assert Decimal(n) == ds;
    DigitsValueOfDigits(n);
    PlainDigits(ws, ds, tail);
    ConcatAssoc(ws, ds, tail);
  }

  lemma ConcatAssoc(a: string, b: string, c: string)
    ensures a + b + c == a + (b + c)
  {
  }

  lemma NegativeDigits(ws: string, ds: string, tail: string)
    requires AllSpace(ws) && |ds| > 0 && AllDigits(ds)
    requires tail == [] || !IsDigit(tail[0])
    ensures ParseInt(ws + (['-'] + ds + tail)) == InRange(-(DigitsValue(ds) as int))
  {
    SignedDigits(ws, '-', ds, tail);
  }

  lemma SignedDigits(ws: string, sign: char, ds: string, tail: string)
    requires AllSpace(ws) && (sign == '-' || sign == '+') && |ds| > 0 && AllDigits(ds)
    requires tail == [] || !IsDigit(tail[0])
    ensures ParseInt(ws + ([sign] + ds + tail))
      == InRange(if sign == '-' then -(DigitsValue(ds) as int) else DigitsValue(ds))
  {
    SignAfterSpace(ws, sign, ds + tail);
    assert [sign] + ds + tail == [sign] + (ds + tail);
    ReadMagnitudeOfDigits(ds, tail, sign == '-');
  }

  lemma SignAfterSpace(ws: string, sign: char, rest: string)
    requires AllSpace(ws) && (sign == '-' || sign == '+')
    ensures ParseInt(ws + ([sign] + rest)) == ReadMagnitude(rest, sign == '-')
  {
    var s := ws + ([sign] + rest);
    SkipSpaceAfter(ws, [sign] + rest);
    assert s[|ws|..] == [sign] + rest;
    SignedAt(s, |ws|, sign, rest);
  }

  /** Any digit string, leading zeros included, after whitespace and an
      optional sign and before a non-digit: "+5" reads as 5, "0012" as 12,
      "-007" as -7, and a value outside the `int` range fails. */
  lemma ParseIntOfDigits(ws: string, sign: string, ds: string, tail: string)
    requires AllSpace(ws) && (sign == [] || sign == ['-'] || sign == ['+'])
    requires |ds| > 0 && AllDigits(ds)
    requires tail == [] || !IsDigit(tail[0])
    ensures ParseInt(ws + sign + ds + tail)
      == InRange(if sign == ['-'] then -(DigitsValue(ds) as int) else DigitsValue(ds))
  {
    if sign == [] {
      UnsignedDigitsAfter(ws, sign, ds, tail);
    } else {
      SignedDigitsAfter(ws, sign[0], ds, tail);
      assert sign == [sign[0]];
    }
  }

  lemma UnsignedDigitsAfter(ws: string, sign: string, ds: string, tail: string)
    requires AllSpace(ws) && sign == [] && |ds| > 0 && AllDigits(ds)
    requires tail == [] || !IsDigit(tail[0])
    ensures ParseInt(ws + sign + ds + tail) == InRange(DigitsValue(ds))
  {
    EmptySign(ws, sign, ds, tail);
    PlainDigits(ws, ds, tail);
  }

  lemma EmptySign(ws: string, sign: string, ds: string, tail: string)
    requires sign == []
    ensures ws + sign + ds + tail == ws + (ds + tail)
  {
    Concat4(ws, sign, ds, tail);
    assert sign + ds + tail == ds + tail;
  }

  lemma SignedDigitsAfter(ws: string, sign: char, ds: string, tail: string)
    requires AllSpace(ws) && (sign == '-' || sign == '+') && |ds| > 0 && AllDigits(ds)
    requires tail == [] || !IsDigit(tail[0])
    ensures ParseInt(ws + [sign] + ds + tail)
      == InRange(if sign == '-' then -(DigitsValue(ds) as int) else DigitsValue(ds))
  {
    Concat4(ws, [sign], ds, tail);
    SignedDigits(ws, sign, ds, tail);
  }

  lemma Concat4(a: string, b: string, c: string, d: string)
    ensures a + b + c + d == a + (b + c + d)
  {
  }

  /** Where `>>` expects the first digit: after the whitespace and at most
      one sign. */
  function DigitsStart(s: string): (j: nat)
    ensures SkipSpace(s) <= j <= |s|
    ensures j > SkipSpace(s) ==> s[SkipSpace(s)] == '-' || s[SkipSpace(s)] == '+'
  {
    var i := SkipSpace(s);
    if i < |s| && (s[i] == '-' || s[i] == '+') then i + 1 else i
  }

  /** When no digit stands where `>>` expects the first one, the
      extraction fails and `str2int` gives 0: "ab12", "- 5", "+-3", "". */
  lemma ParseIntNoLeadingDigit(s: string)
    requires DigitsStart(s) == |s| || !IsDigit(s[DigitsStart(s)])
    ensures ParseInt(s) == None && Str2Int(s) == 0
  {
    var j := DigitsStart(s);
    assert j < |s| ==> s[j..][0] == s[j];
  }

  lemma PlainDigits(ws: string, ds: string, tail: string)
    requires AllSpace(ws) && |ds| > 0 && AllDigits(ds)
    requires tail == [] || !IsDigit(tail[0])
    ensures ParseInt(ws + (ds + tail)) == InRange(DigitsValue(ds))
  {
    var s := ws + (ds + tail);
    assert (ds + tail)[0] == ds[0];
    SkipSpaceAfter(ws, ds + tail);
    assert s[|ws|..] == ds + tail;
    UnsignedAt(s, |ws|, ds + tail);
    ReadMagnitudeOfDigits(ds, tail, false);
  }

  lemma SignedAt(s: string, i: nat, sign: char, rest: string)
    requires (sign == '-' || sign == '+') && SkipSpace(s) == i && s[i..] == [sign] + rest
    ensures ParseInt(s) == ReadMagnitude(rest, sign == '-')
  {
    assert s[i] == sign;
    assert s[i + 1..] == rest;
    ParseIntAt(s, i);
  }

  lemma UnsignedAt(s: string, i: nat, rest: string)
    requires SkipSpace(s) == i && s[i..] == rest && rest != [] && IsDigit(rest[0])
    ensures ParseInt(s) == ReadMagnitude(rest, false)
  {
    assert s[i] == rest[0];
    ParseIntAt(s, i);
  }

  /** `str2int` on the decimal text of an `int` gives that `int` back; on
      the text of a value outside the `int` range it gives 0. */
  lemma Str2IntOfDecimal(ws: string, n: int, tail: string)
    requires AllSpace(ws)
    requires tail == [] || !IsDigit(tail[0])
    ensures Str2Int(ws + Decimal(n) + tail) == if IntMin <= n <= IntMax then n else 0
  {
    ParseIntOfDecimal(ws, n, tail);
  }

  /** Text without any digit does not parse, so `str2int` gives 0. */
  lemma ParseIntNoDigit(s: string)
    requires forall k :: 0 <= k < |s| ==> !IsDigit(s[k])
    ensures ParseInt(s) == None && Str2Int(s) == 0
  {
    var i := SkipSpace(s);
    assert i + 1 < |s| ==> s[i + 1..][0] == s[i + 1];
    assert i < |s| ==> s[i..][0] == s[i];
  }
}
