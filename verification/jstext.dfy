/** The few JavaScript text conversions the modelled code relies on:
    `parseInt` without a radix, `Number.prototype.toString` on integers,
    `toISOString().split('T')[0]`, and the ordering of ISO-8601 timestamps.
 */
module JsText {
  import opened Common

  /** White space and line terminators that `parseInt` skips before the
      number (the StrWhiteSpaceChar production of ECMAScript). */
  predicate IsJsWhiteSpace(c: char) {
    || c == '\t' || c == '\n' || c == '\U{000B}' || c == '\U{000C}' || c == '\r'
    || c == ' ' || c == '\U{00A0}' || c == '\U{1680}' || ('\U{2000}' <= c <= '\U{200A}')
    || c == '\U{2028}' || c == '\U{2029}' || c == '\U{202F}' || c == '\U{205F}'
    || c == '\U{3000}' || c == '\U{FEFF}'
  }

  predicate IsDecimalDigit(c: char) {
    '0' <= c <= '9'
  }

  predicate IsHexDigit(c: char) {
    IsDecimalDigit(c) || ('a' <= c <= 'f') || ('A' <= c <= 'F')
  }

  /** `c` is a digit of `radix`, which is 10 or 16 for `parseInt` without a radix argument. */
  predicate IsDigitIn(c: char, radix: nat) {
    if radix == 16 then IsHexDigit(c) else IsDecimalDigit(c)
  }

  function DigitValue(c: char): (d: nat)
    requires IsHexDigit(c)
    ensures d < 16
    ensures IsDecimalDigit(c) ==> d < 10
  {
    if IsDecimalDigit(c) then c as nat - '0' as nat
    else if 'a' <= c <= 'f' then c as nat - 'a' as nat + 10
    else c as nat - 'A' as nat + 10
  }

  /** The value of a digit string in `radix`, most significant digit first. */
  function DigitsValue(s: string, radix: nat): nat
    requires radix == 10 || radix == 16
    requires forall i :: 0 <= i < |s| ==> IsDigitIn(s[i], radix)
  {
    if |s| == 0 then 0
    else
      var last := s[|s| - 1];
      assert IsDigitIn(last, radix);
      DigitsValue(s[..|s| - 1], radix) * radix + DigitValue(last)
  }

  /** The input with its leading white space removed. */
  function TrimStart(s: string): string {
    if |s| > 0 && IsJsWhiteSpace(s[0]) then TrimStart(s[1..]) else s
  }

  /** `TrimStart` removes exactly the leading white space: what it drops is
      white space and what it keeps is a suffix that starts with none. */
  lemma {:induction false} TrimStartSpec(s: string)
    ensures |TrimStart(s)| <= |s| && TrimStart(s) == s[|s| - |TrimStart(s)|..]
    ensures forall i :: 0 <= i < |s| - |TrimStart(s)| ==> IsJsWhiteSpace(s[i])
    ensures |TrimStart(s)| > 0 ==> !IsJsWhiteSpace(TrimStart(s)[0])
  {
    if |s| > 0 && IsJsWhiteSpace(s[0]) {
      TrimStartSpec(s[1..]);
      forall i | 0 < i < |s| - |TrimStart(s)| ensures IsJsWhiteSpace(s[i]) {
        assert s[i] == s[1..][i - 1];
      }
    }
  }

  /** Length of the longest prefix of `s` made of digits of `radix`. */
  function DigitRun(s: string, radix: nat): (n: nat)
    ensures n <= |s|
    ensures forall i :: 0 <= i < n ==> IsDigitIn(s[i], radix)
  {
    if |s| > 0 && IsDigitIn(s[0], radix) then 1 + DigitRun(s[1..], radix) else 0
  }

  /** The unsigned part of `parseInt`: a `0x` or `0X` prefix switches to
      hexadecimal, and the longest run of digits that follows is the
      number; anything after it is ignored, and no digit at all is `NaN`. */
  function ParseUnsigned(u: string): Option<nat> {
    var hex := |u| >= 2 && u[0] == '0' && (u[1] == 'x' || u[1] == 'X');
    var radix := if hex then 16 else 10;
    var body := if hex then u[2..] else u;
    var n := DigitRun(body, radix);
    if n == 0 then None else Some(DigitsValue(body[..n], radix))
  }

  /** JavaScript `parseInt(s)` with no radix, `None` standing for `NaN`:
      leading white space is skipped and one optional sign is read before
      the unsigned part. */
  function ParseInt(s: string): Option<int> {
    var t := TrimStart(s);
    var negative := |t| > 0 && t[0] == '-';
    var u := if |t| > 0 && (t[0] == '-' || t[0] == '+') then t[1..] else t;
    match ParseUnsigned(u)
    case None => None
    case Some(m) =>
      var v: int := m;
      Some(if negative then -v else v)
  }

  function DecimalDigit(d: nat): (c: char)
    requires d < 10
    ensures IsDecimalDigit(c) && DigitValue(c) == d
  {
    ['0', '1', '2', '3', '4', '5', '6', '7', '8', '9'][d]
  }

  /** Division by ten with remainder, by repeated subtraction. */
  function DivMod10(n: nat): (qr: (nat, nat))
    ensures n == 10 * qr.0 + qr.1 && qr.1 < 10
  {
    if n < 10 then (0, n)
    else
      var (q, r) := DivMod10(n - 10);
      (q + 1, r)
  }

  /** Decimal rendering of a natural number, as JavaScript prints it. */
  function NatToString(n: nat): (r: string)
    ensures |r| > 0
    ensures forall i :: 0 <= i < |r| ==> IsDecimalDigit(r[i])
    ensures |r| > 1 ==> r[0] != '0'
  {
    if n < 10 then [DecimalDigit(n)]
    else
      var (q, d) := DivMod10(n);
      NatToString(q) + [DecimalDigit(d)]
  }

  /** `String(i)` for an integer `i`. */
  function IntToString(i: int): (r: string)
    ensures |r| > 0
  {
    if i < 0 then "-" + NatToString(-i) else NatToString(i)
  }

  lemma {:induction false} NatToStringValue(n: nat)
    ensures DigitsValue(NatToString(n), 10) == n
  {
    var r := NatToString(n);
    if n >= 10 {
      var (q, d) := DivMod10(n);
      var p := NatToString(q);
      assert r[..|r| - 1] == p;
      NatToStringValue(q);
    }
  }

  lemma ParseUnsignedOfNatToString(m: nat)
    ensures ParseUnsigned(NatToString(m)) == Some(m)
  {
    var u := NatToString(m);
    assert !(|u| >= 2 && u[0] == '0');
    DigitRunOfDigits(u);
    assert u[..|u|] == u;
    NatToStringValue(m);
  }

  /** Reading back a printed integer gives the integer: the device
      sequence counter survives its round trip through the text column of
      the `meta` table. */
  lemma ParseIntOfIntToString(i: int)
    ensures ParseInt(IntToString(i)) == Some(i)
  {
    var s := IntToString(i);
    var m: nat := if i < 0 then -i else i;
    var u := NatToString(m);
    assert s == if i < 0 then "-" + u else u;
    assert !IsJsWhiteSpace(s[0]) by {
      assert s[0] == '-' || IsDecimalDigit(s[0]);
    }
    assert TrimStart(s) == s;
    assert (if i < 0 then s[1..] else s) == u;
    ParseUnsignedOfNatToString(m);
  }

  lemma {:induction false} DigitRunOfDigits(s: string)
    requires forall i :: 0 <= i < |s| ==> IsDecimalDigit(s[i])
    ensures DigitRun(s, 10) == |s|
  {
    if |s| > 0 {
      DigitRunOfDigits(s[1..]);
    }
  }

  /** `iso.split('T')[0]`: the text before the first `T`, the whole text when there is none. */
  function DatePart(iso: string): (r: string)
    ensures |r| <= |iso| && r == iso[..|r|]
    ensures forall i :: 0 <= i < |r| ==> r[i] != 'T'
    ensures |r| < |iso| ==> iso[|r|] == 'T'
  {
    if |iso| == 0 || iso[0] == 'T' then [] else [iso[0]] + DatePart(iso[1..])
  }

  /** Strict lexicographic order of texts: for ISO-8601 UTC timestamps of
      one format this is the order of the instants they denote. */
  predicate Before(a: string, b: string) {
    if |a| == 0 then |b| > 0
    else if |b| == 0 then false
    else if a[0] == b[0] then Before(a[1..], b[1..])
    else a[0] < b[0]
  }

  lemma {:induction false} BeforeIrreflexive(a: string)
    ensures !Before(a, a)
  {
    if |a| > 0 {
      BeforeIrreflexive(a[1..]);
    }
  }

  lemma {:induction false} BeforeTransitive(a: string, b: string, c: string)
    requires Before(a, b) && Before(b, c)
    ensures Before(a, c)
  {
    if |a| > 0 && |b| > 0 && |c| > 0 && a[0] == b[0] && b[0] == c[0] {
      BeforeTransitive(a[1..], b[1..], c[1..]);
    }
  }

  lemma {:induction false} BeforeTotal(a: string, b: string)
    ensures a == b || Before(a, b) || Before(b, a)
  {
    if |a| > 0 && |b| > 0 && a[0] == b[0] {
      BeforeTotal(a[1..], b[1..]);
      if a[1..] == b[1..] {
        assert a == [a[0]] + a[1..] && b == [b[0]] + b[1..];
      }
    }
  }
}
