/** The C library behaviour the serial line editors rely on: NUL-terminated
    strings (strlen, strcpy), memcmp against a command prefix, atoi
    (section 7.22.1.2 of ISO C11), abs, and the narrowing of an int to a
    16-bit short. Characters are Dafny chars; NUL is '\0'. */
module CString {

  const NUL: char := '\0'

  const INT_MIN: int := -0x8000_0000
  const INT_MAX: int := 0x7fff_ffff

  /** True when x is representable as a 32-bit int on the ESP32. */
  predicate IsInt32(x: int) {
    INT_MIN <= x <= INT_MAX
  }

  // ---------------------------------------------------------------------
  // strlen / strcpy

  /** strlen: the position of the first NUL in s, or |s| when s holds none. */
  function StrLen(s: seq<char>): (n: nat)
    ensures n <= |s|
    ensures forall k :: 0 <= k < n ==> s[k] != NUL
    ensures n < |s| ==> s[n] == NUL
  {
    if |s| == 0 || s[0] == NUL then 0 else 1 + StrLen(s[1..])
  }

  /** The C string stored at the start of s: what strcpy copies (without
      its terminator) and what Serial.print shows. */
  function CStr(s: seq<char>): (r: seq<char>)
    ensures NUL !in r
    ensures r <= s
  {
    s[..StrLen(s)]
  }

  /** A string without NUL followed by a terminator reads back as itself. */
  lemma {:induction false} CStrOfTerminated(s: seq<char>, rest: seq<char>)
    requires NUL !in s
    ensures CStr(s + [NUL] + rest) == s
  {
    if s != [] {
      assert (s + [NUL] + rest)[1..] == s[1..] + [NUL] + rest;
      CStrOfTerminated(s[1..], rest);
    }
  }

  /** Once the first NUL is reached, nothing after it is part of the string. */
  lemma {:induction false} CStrOfPrefix(s: seq<char>, k: nat)
    requires k < |s| && s[k] == NUL
    ensures CStr(s) == CStr(s[..k])
  {
    if k > 0 && s[0] != NUL {
      assert s[1..][..k - 1] == s[..k][1..];
      CStrOfPrefix(s[1..], k - 1);
    }
  }

  /** The C string of a line with a terminator appended is the C string of
      the line. */
  lemma CStrOfAppendedNul(s: seq<char>)
    ensures CStr(s + [NUL]) == CStr(s)
  {
    CStrOfPrefix(s + [NUL], |s|);
    assert (s + [NUL])[..|s|] == s;
  }

  /** A buffer without a NUL is its own C string. */
  lemma CStrOfNulFree(s: seq<char>)
    requires NUL !in s
    ensures CStr(s) == s
  {
    CStrOfTerminated(s, []);
    assert s + [NUL] + [] == s + [NUL];
    CStrOfAppendedNul(s);
  }

  /** strcpy(dst, src): the C string of src and its terminator overwrite the
      front of dst; the bytes after the terminator keep their old values.
      A source string as long as dst would overflow it. */
  function StrCpy(dst: seq<char>, src: seq<char>): (r: seq<char>)
    requires |CStr(src)| < |dst|
    ensures |r| == |dst|
    ensures CStr(r) == CStr(src)
    ensures r[|CStr(src)| + 1..] == dst[|CStr(src)| + 1..]
  {
    var s := CStr(src);
    CStrOfTerminated(s, dst[|s| + 1..]);
    s + [NUL] + dst[|s| + 1..]
  }

  // ---------------------------------------------------------------------
  // memcmp

  /** memcmp(a, b, n) == 0: the first n bytes of a and b agree. */
  predicate MemEq(a: seq<char>, b: seq<char>, n: nat)
    requires n <= |a| && n <= |b|
  {
    forall k :: 0 <= k < n ==> a[k] == b[k]
  }

  /** Comparing a NUL-free pattern against a buffer that holds a line and is
      NUL right after it (as every line buffer and every message struct is)
      is the same as asking whether the pattern is a prefix of the line:
      the terminator can never match a pattern character. */
  lemma MemEqIsPrefix(line: seq<char>, pad: seq<char>, pat: seq<char>)
    requires NUL !in pat
    requires |pad| > 0 && pad[0] == NUL
    requires |pat| <= |line| + |pad|
    ensures MemEq(line + pad, pat, |pat|) <==> pat <= line
  {
    var buf := line + pad;
    if |line| < |pat| {
      assert buf[|line|] == NUL && pat[|line|] in pat;
    } else if MemEq(buf, pat, |pat|) {
      assert pat == line[..|pat|] by {
        forall k | 0 <= k < |pat| ensures pat[k] == line[k] {
          assert buf[k] == line[k];
        }
      }
    }
  }

  // ---------------------------------------------------------------------
  // atoi

  /** isspace in the "C" locale: space, \t, \n, \v, \f and \r. */
  predicate IsSpace(c: char) {
    c == ' ' || '\t' <= c <= '\r'
  }

  predicate IsDigit(c: char) {
    '0' <= c <= '9'
  }

  predicate AllDigits(s: seq<char>) {
    forall k :: 0 <= k < |s| ==> IsDigit(s[k])
  }

  /** Length of the white-space run at the start of s. */
  function SpaceRun(s: seq<char>): (n: nat)
    ensures n <= |s|
    ensures forall k :: 0 <= k < n ==> IsSpace(s[k])
    ensures n < |s| ==> !IsSpace(s[n])
  {
    if |s| == 0 || !IsSpace(s[0]) then 0 else 1 + SpaceRun(s[1..])
  }

  /** Length of the run of decimal digits at the start of s. */
  function DigitRun(s: seq<char>): (n: nat)
    ensures n <= |s|
    ensures AllDigits(s[..n])
    ensures n < |s| ==> !IsDigit(s[n])
  {
    if |s| == 0 || !IsDigit(s[0]) then 0
    else
      var n := 1 + DigitRun(s[1..]);
      assert s[..n] == [s[0]] + s[1..][..n - 1];
      n
  }

  /** The value of a string of decimal digits, most significant first. */
  function DecimalValue(ds: seq<char>): nat
    requires AllDigits(ds)
  {
    if ds == [] then 0
    else 10 * DecimalValue(ds[..|ds| - 1]) + (ds[|ds| - 1] as int - '0' as int)
  }

  /** The digits of the number at the start of s, after the optional sign. */
  function Magnitude(s: seq<char>): nat {
    DecimalValue(s[..DigitRun(s)])
  }

  /** atoi: skip leading white space, read an optional sign and then decimal
      digits up to the first non-digit. No digits gives 0. The C function is
      undefined when the value does not fit an int; callers of the model
      require IsInt32 of the result. */
  function Atoi(s: seq<char>): int {
    var t := s[SpaceRun(s)..];
    if |t| > 0 && t[0] == '-' then 0 - Magnitude(t[1..])
    else if |t| > 0 && t[0] == '+' then Magnitude(t[1..])
    else Magnitude(t)
  }

  lemma {:induction false} SpaceRunStopsAtNul(s: seq<char>, k: nat)
    requires k < |s| && s[k] == NUL
    ensures SpaceRun(s) <= k && SpaceRun(s) == SpaceRun(s[..k])
  {
    if k > 0 && IsSpace(s[0]) {
      assert s[1..][..k - 1] == s[..k][1..];
      SpaceRunStopsAtNul(s[1..], k - 1);
    }
  }

  lemma {:induction false} DigitRunStopsAtNul(s: seq<char>, k: nat)
    requires k < |s| && s[k] == NUL
    ensures DigitRun(s) <= k && DigitRun(s) == DigitRun(s[..k])
  {
    if k > 0 && IsDigit(s[0]) {
      assert s[1..][..k - 1] == s[..k][1..];
      DigitRunStopsAtNul(s[1..], k - 1);
    }
  }

  lemma MagnitudeStopsAtNul(s: seq<char>, k: nat)
    requires k <= |s| && (k < |s| ==> s[k] == NUL)
    ensures Magnitude(s) == Magnitude(s[..k])
  {
    if k < |s| {
      DigitRunStopsAtNul(s, k);
      assert s[..DigitRun(s)] == s[..k][..DigitRun(s[..k])];
    } else {
      assert s[..k] == s;
    }
  }

  /** atoi never reads past a NUL: parsing a buffer is parsing the line
      stored in front of its terminator. */
  lemma AtoiStopsAtNul(s: seq<char>, k: nat)
    requires k < |s| && s[k] == NUL
    ensures Atoi(s) == Atoi(s[..k])
  {
    SpaceRunStopsAtNul(s, k);
    var i := SpaceRun(s);
    var t, u := s[i..], s[..k][i..];
    assert u == t[..k - i];
    assert t[k - i] == NUL;
    if i < k {
      assert t[0] == u[0];
      if t[0] == '-' || t[0] == '+' {
        assert t[1..][k - i - 1] == NUL;
        assert u[1..] == t[1..][..k - i - 1];
        MagnitudeStopsAtNul(t[1..], k - i - 1);
      } else {
        MagnitudeStopsAtNul(t, k - i);
      }
    } else {
      assert u == [];
      assert DigitRun(t) == 0;
    }
  }

  // ---------------------------------------------------------------------
  // The inverse of atoi: decimal rendering of an integer.

  function DigitChar(d: nat): (c: char)
    requires d < 10
    ensures IsDigit(c) && c as int - '0' as int == d
  {
    ('0' as int + d) as char
  }

  /** The decimal digits of n without leading zeros ("0" for zero). */
  function Decimal(n: nat): (ds: seq<char>)
    ensures |ds| > 0 && AllDigits(ds)
  {
    if n < 10 then [DigitChar(n)] else Decimal(n / 10) + [DigitChar(n % 10)]
  }

  /** How printf("%d") renders an integer. */
  function IntToString(i: int): (s: seq<char>)
    ensures |s| > 0 && (s[0] == '-' || IsDigit(s[0]))
  {
    if i < 0 then ['-'] + Decimal(-i) else Decimal(i)
  }

  lemma {:induction false} DecimalValueOfDecimal(n: nat)
    ensures DecimalValue(Decimal(n)) == n
  {
    if n >= 10 {
      var ds := Decimal(n);
      assert ds[..|ds| - 1] == Decimal(n / 10);
      DecimalValueOfDecimal(n / 10);
    }
  }

  lemma {:induction false} DigitRunOfDigits(ds: seq<char>, rest: seq<char>)
    requires AllDigits(ds)
    requires rest == [] || !IsDigit(rest[0])
    ensures DigitRun(ds + rest) == |ds|
  {
    if ds != [] {
      assert (ds + rest)[1..] == ds[1..] + rest;
      DigitRunOfDigits(ds[1..], rest);
    }
  }

  /** The digits at the start of ds + rest are exactly ds. */
  lemma MagnitudeOfDigits(ds: seq<char>, rest: seq<char>)
    requires AllDigits(ds)
    requires rest == [] || !IsDigit(rest[0])
    ensures Magnitude(ds + rest) == DecimalValue(ds)
  {
    DigitRunOfDigits(ds, rest);
    assert (ds + rest)[..|ds|] == ds;
  }

  /** atoi of a string that does not start with white space: the sign and
      the digits right at its start. */
  lemma AtoiNoLeadingSpace(s: seq<char>)
    requires |s| > 0 && !IsSpace(s[0])
    ensures Atoi(s) == if s[0] == '-' then 0 - Magnitude(s[1..])
                       else if s[0] == '+' then Magnitude(s[1..])
                       else Magnitude(s)
  {
    assert SpaceRun(s) == 0;
    assert s[0..] == s;
  }

  /** atoi of a non-empty run of digits followed by a non-digit. */
  lemma AtoiOfDigits(ds: seq<char>, rest: seq<char>)
    requires |ds| > 0 && AllDigits(ds)
    requires rest == [] || !IsDigit(rest[0])
    ensures Atoi(ds + rest) == DecimalValue(ds)
  {
    assert (ds + rest)[0] == ds[0];
    AtoiNoLeadingSpace(ds + rest);
    MagnitudeOfDigits(ds, rest);
  }

  /** atoi of a minus sign followed by t negates the digits at t's start. */
  lemma AtoiOfMinus(t: seq<char>)
    ensures Atoi(['-'] + t) == 0 - Magnitude(t)
  {
    var s := ['-'] + t;
    assert s[1..] == t;
    AtoiNoLeadingSpace(s);
  }

  /** atoi of a minus sign, a non-empty run of digits and a non-digit. */
  lemma AtoiOfNegatedDigits(ds: seq<char>, rest: seq<char>)
    requires |ds| > 0 && AllDigits(ds)
    requires rest == [] || !IsDigit(rest[0])
    ensures Atoi(['-'] + ds + rest) == 0 - DecimalValue(ds)
  {
    var t := ds + rest;
    assert ['-'] + ds + rest == ['-'] + t;
    AtoiOfMinus(t);
    MagnitudeOfDigits(ds, rest);
  }

  /** atoi reads back what printf("%d") wrote, whatever non-digit follows
      (typically the '\n' or the NUL that ends the line). */
  lemma AtoiOfIntToString(i: int, rest: seq<char>)
    requires rest == [] || !IsDigit(rest[0])
    ensures Atoi(IntToString(i) + rest) == i
  {
    if i < 0 {
      AtoiOfNegatedDigits(Decimal(-i), rest);
      DecimalValueOfDecimal(-i);
    } else {
      AtoiOfDigits(Decimal(i), rest);
      DecimalValueOfDecimal(i);
    }
  }

  // ---------------------------------------------------------------------
  // abs and narrowing

  /** abs on a 32-bit int. abs(INT_MIN) is undefined in C; the model takes
      the two's-complement result, INT_MIN itself. */
  function CAbs(x: int): (r: int)
    requires IsInt32(x)
    ensures IsInt32(r)
    ensures r >= 0 <==> x != INT_MIN
    ensures x != INT_MIN ==> r == x || r == -x
  {
    if x == INT_MIN then INT_MIN else if x < 0 then -x else x
  }

  /** Conversion of an int to a 16-bit short (modulo 2^16, as GCC does). */
  function ToShort(x: int): (r: int)
    ensures -0x8000 <= r < 0x8000
    ensures (x - r) % 0x1_0000 == 0
    ensures -0x8000 <= x < 0x8000 ==> r == x
  {
    (x + 0x8000) % 0x1_0000 - 0x8000
  }

  /** `short v = x; v = abs(v);`: abs promotes the short to int, and the
      assignment narrows the result back to short. */
  function ShortAbs(x: int): int {
    ToShort(if ToShort(x) < 0 then -ToShort(x) else ToShort(x))
  }

  /** The "can't be negative" fix holds except for one value: a line whose
      number narrows to -32768 stays -32768. In range, the result is |x|. */
  lemma ShortAbsSign(x: int)
    ensures ShortAbs(x) >= 0 <==> ToShort(x) != -0x8000
    ensures ToShort(x) == -0x8000 ==> ShortAbs(x) == -0x8000
    ensures -0x8000 < x < 0x8000 ==> ShortAbs(x) == if x < 0 then -x else x
  {
    var v := ToShort(x);
    if v == -0x8000 {
      assert ToShort(0x8000) == -0x8000;
    }
  }
}
