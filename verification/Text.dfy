/** Byte strings (`sc_str`, `sc_string`) as sequences of characters, and the C operations the
    modelled code leans on: truncating division, NUL-terminated views, `isspace`, `strtoll`, `%lld`. */
module Text {

  datatype Option<+T> = None | Some(value: T)

  /** A status: a value, or the error key of the failure. */
  datatype Result<+T> = Ok(value: T) | Err(code: string)

  const INT64_MAX: int := 0x7FFF_FFFF_FFFF_FFFF
  const INT64_MIN: int := -0x8000_0000_0000_0000

  type int64 = v: int | INT64_MIN <= v <= INT64_MAX

  /** C division, which truncates toward zero. */
  function Quotient(a: int, b: int): int
    requires b > 0
  {
    if a >= 0 then a / b else -((-a) / b)
  }

  /** Position of the first `c` in `s`, or `|s|` when there is none. */
  function IndexOf(s: string, c: char): (k: nat)
    ensures k <= |s|
    ensures c !in s[..k]
    ensures k < |s| ==> s[k] == c
    ensures k == |s| ==> c !in s
  {
    if s == [] then 0
    else if s[0] == c then 0
    else
      var k := IndexOf(s[1..], c);
      assert s[..1 + k] == [s[0]] + s[1..][..k];
      assert s == [s[0]] + s[1..];
      1 + k
  }

  lemma IndexOfUnique(s: string, c: char, k: nat)
    requires k <= |s| && c !in s[..k] && (k < |s| ==> s[k] == c)
    ensures IndexOf(s, c) == k
  {
    var j := IndexOf(s, c);
    assert j >= k && j <= k;
  }

  lemma IndexOfConcat(a: string, c: char, b: string)
    requires c !in a
    ensures IndexOf(a + [c] + b, c) == |a|
    ensures (a + [c] + b)[..|a|] == a && (a + [c] + b)[|a| + 1..] == b
  {
    var s := a + [c] + b;
    assert s[..|a|] == a;
    IndexOfUnique(s, c, |a|);
  }

  /** What a C string function sees of `s`: everything before the first NUL. */
  function CStr(s: string): string {
    s[..IndexOf(s, '\0')]
  }

  lemma CStrWithoutNul(s: string)
    requires '\0' !in s
    ensures CStr(s) == s
  {
    IndexOfUnique(s, '\0', |s|);
  }

  /** `isspace` in the C locale. */
  predicate IsSpace(c: char) {
    c == ' ' || '\t' <= c <= '\r'
  }

  predicate IsBlank(c: char) {
    c == ' ' || c == '\t'
  }

  /** Blanks and line breaks. */
  predicate IsWhite(c: char) {
    c == ' ' || c == '\t' || c == '\r' || c == '\n'
  }

  predicate IsDigit(c: char) {
    '0' <= c <= '9'
  }

  predicate AllDigits(s: string) {
    forall i :: 0 <= i < |s| ==> IsDigit(s[i])
  }

  function DigitsValue(s: string): nat
    requires AllDigits(s)
  {
    if s == [] then 0 else DigitsValue(s[..|s| - 1]) * 10 + (s[|s| - 1] as int - '0' as int)
  }

  function DigitOf(d: nat): (c: char)
    requires d < 10
    ensures IsDigit(c) && c as int - '0' as int == d
  {
    ('0' as int + d) as char
  }

  /** A hexadecimal digit, with the letters starting at `ten`. */
  function HexDigit(n: nat, ten: char): char
    requires n < 16 && (ten == 'a' || ten == 'A')
  {
    if n < 10 then DigitOf(n) else (ten as int + n - 10) as char
  }

  /** The value of a hexadecimal digit of either case, or -1. */
  function HexValue(c: char): (v: int)
    ensures -1 <= v < 16
  {
    if IsDigit(c) then c as int - '0' as int
    else if 'a' <= c <= 'f' then 10 + c as int - 'a' as int
    else if 'A' <= c <= 'F' then 10 + c as int - 'A' as int
    else -1
  }

  lemma HexRoundTrip(n: nat, ten: char)
    requires n < 16 && (ten == 'a' || ten == 'A')
    ensures HexValue(HexDigit(n, ten)) == n
  {
  }

  /** `%llu` of a natural number. */
  function Decimal(n: nat): (s: string)
    ensures s != [] && AllDigits(s) && DigitsValue(s) == n
  {
    if n < 10 then
      var s := [DigitOf(n)];
      assert s[..0] == [];
      s
    else
      var s := Decimal(n / 10) + [DigitOf(n % 10)];
      assert s[..|s| - 1] == Decimal(n / 10);
      s
  }

  /** Distinct counters print differently. */
  lemma DecimalInjective(a: nat, b: nat)
    requires Decimal(a) == Decimal(b)
    ensures a == b
  {
    assert DigitsValue(Decimal(a)) == a;
  }

  /** `%lld` and `%d`. */
  function FormatInt(v: int): string {
    if v < 0 then ['-'] + Decimal(-v) else Decimal(v)
  }

  function TrimLeft(s: string, pad: char -> bool): string {
    if s != [] && pad(s[0]) then TrimLeft(s[1..], pad) else s
  }

  function TrimRight(s: string, pad: char -> bool): string {
    if s != [] && pad(s[|s| - 1]) then TrimRight(s[..|s| - 1], pad) else s
  }

  function SkipSpace(s: string): string {
    TrimLeft(s, IsSpace)
  }

  function TrimEnd(s: string): string {
    TrimRight(s, IsSpace)
  }

  function LeadingDigits(s: string): (k: nat)
    ensures k <= |s| && AllDigits(s[..k])
  {
    if s == [] || !IsDigit(s[0]) then 0
    else
      var k := LeadingDigits(s[1..]);
      assert s[..1 + k] == [s[0]] + s[1..][..k];
      1 + k
  }

  /** A prefix of digits is leading, and all of it when no digit follows. */
  lemma {:induction false} DigitsReach(s: string, k: nat)
    requires k <= |s| && AllDigits(s[..k])
    ensures k <= LeadingDigits(s)
    ensures k == |s| || !IsDigit(s[k]) ==> LeadingDigits(s) == k
  {
    if k > 0 {
      assert s[..k][0] == s[0];
      assert s[1..][..k - 1] == s[..k][1..];
      DigitsReach(s[1..], k - 1);
    }
  }

  /** What `strtoll(s, &end, 10)` converts, before saturation to the type's range. */
  datatype Scan = NoNumber | Scanned(value: int, rest: string)

  function ScanInt(s: string): Scan {
    var t := SkipSpace(s);
    var negative := t != [] && t[0] == '-';
    var u := if t != [] && (t[0] == '-' || t[0] == '+') then t[1..] else t;
    var k := LeadingDigits(u);
    if k == 0 then NoNumber
    else
      var magnitude: int := DigitsValue(u[..k]);
      Scanned(if negative then -magnitude else magnitude, u[k..])
  }

  lemma {:induction false} AllLeadingDigits(s: string)
    requires AllDigits(s)
    ensures LeadingDigits(s) == |s|
  {
    if s != [] {
      AllLeadingDigits(s[1..]);
    }
  }

  lemma ScanDigits(d: string)
    requires d != [] && AllDigits(d)
    ensures ScanInt(d) == Scanned(DigitsValue(d), [])
    ensures ScanInt(['-'] + d) == Scanned(-(DigitsValue(d) as int), [])
  {
    hide DigitsValue, LeadingDigits, AllDigits;
    AllLeadingDigits(d);
    FirstDigit(d);
    var s := ['-'] + d;
    assert d[..|d|] == d && s[1..] == d;
    NotPadded(d);
    NotPadded(s);
  }

  lemma FirstDigit(d: string)
    requires d != [] && AllDigits(d)
    ensures IsDigit(d[0])
  {
  }

  lemma NotPadded(s: string)
    requires s != [] && !IsSpace(s[0])
    ensures SkipSpace(s) == s
  {
  }

  /** Printing an integer and scanning it back gives the integer and leaves nothing over. */
  lemma ScanFormatInt(v: int)
    ensures ScanInt(FormatInt(v)) == Scanned(v, [])
  {
    ScanDigits(Decimal(if v < 0 then -v else v));
  }

  lemma FormatIntPlain(v: int)
    ensures forall i :: 0 <= i < |FormatInt(v)| ==> FormatInt(v)[i] == '-' || IsDigit(FormatInt(v)[i])
  {
  }

  /** The pieces of `s` between separators; `n` separators give `n + 1` pieces. */
  function SplitOn(s: string, c: char): (r: seq<string>)
    ensures |r| > 0
    decreases |s|
  {
    var k := IndexOf(s, c);
    if k == |s| then [s] else [s[..k]] + SplitOn(s[k + 1..], c)
  }

  lemma SplitOnConcat(a: string, c: char, b: string)
    requires c !in a
    ensures SplitOn(a + [c] + b, c) == [a] + SplitOn(b, c)
  {
    IndexOfConcat(a, c, b);
  }

  lemma SplitOnWhole(a: string, c: char)
    requires c !in a
    ensures SplitOn(a, c) == [a]
  {
    IndexOfUnique(a, c, |a|);
  }
}
