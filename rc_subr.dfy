/**
 * rc's integer-to-decimal encoder: inttoascii and its recursive helper iacvt
 * (sys/src/cmd/rc/subr.c).  The C code writes through a global cursor `bp`;
 * here the buffer is an array and the cursor is an index that iacvt returns
 * advanced.  Plan 9's `int` and `long` are both 32 bits wide.
 */
module RcSubr {

  const IntMin: int := -0x8000_0000
  const IntMax: int := 0x7FFF_FFFF

  predicate IsDigit(c: char) { '0' <= c <= '9' }

  predicate AllDigits(s: seq<char>) { forall i :: 0 <= i < |s| ==> IsDigit(s[i]) }

  function DigitChar(d: nat): (c: char)
    requires d < 10
    ensures IsDigit(c) && DigitValue(c) == d
  {
    (('0' as int) + d) as char
  }

  function DigitValue(c: char): nat
    requires IsDigit(c)
  {
    (c as int) - ('0' as int)
  }

  /** The decimal digits of n, most significant first. */
  function Decimal(n: nat): (s: seq<char>)
    ensures |s| >= 1 && AllDigits(s)
    ensures s[0] == '0' <==> n == 0
    decreases n
  {
    if n < 10 then [DigitChar(n)] else Decimal(n / 10) + [DigitChar(n % 10)]
  }

  /** What iacvt writes for n: a '-' for a negative n, then the digits of |n|. */
  function Itoa(n: int): seq<char>
  {
    if n < 0 then ['-'] + Decimal(-n) else Decimal(n)
  }

  /** Reference reader: the value of a string of decimal digits. */
  function ParseDecimal(s: seq<char>): nat
    requires AllDigits(s)
  {
    if |s| == 0 then 0 else ParseDecimal(s[..|s| - 1]) * 10 + DigitValue(s[|s| - 1])
  }

  /** Reference reader of an optionally negative decimal number. */
  function ParseSigned(s: seq<char>): int
    requires |s| > 0 && (if s[0] == '-' then AllDigits(s[1..]) else AllDigits(s))
  {
    if s[0] == '-' then -(ParseDecimal(s[1..]) as int) else ParseDecimal(s)
  }

  function Pow10(k: nat): nat
  {
    if k == 0 then 1 else 10 * Pow10(k - 1)
  }

  /** Reading back the digits written for n gives n. */
  lemma {:induction false} DecimalRoundTrip(n: nat)
    ensures ParseDecimal(Decimal(n)) == n
    decreases n
  {
    var s := Decimal(n);
    if n >= 10 {
      DecimalRoundTrip(n / 10);
      assert s[..|s| - 1] == Decimal(n / 10);
    }
  }

  /** A reading never decreases when a digit is appended, so it is at least its first digit. */
  lemma {:induction false} ParseAtLeastFirst(s: seq<char>)
    requires |s| >= 1 && AllDigits(s)
    ensures ParseDecimal(s) >= DigitValue(s[0])
    decreases |s|
  {
    if |s| > 1 {
      ParseAtLeastFirst(s[..|s| - 1]);
    }
  }

  /**
   * The digits are canonical: every non-empty digit string without a leading
   * zero (other than "0" itself) is the output for exactly its own value.
   */
  lemma {:induction false} DecimalCanonical(s: seq<char>)
    requires |s| >= 1 && AllDigits(s)
    requires s[0] == '0' ==> |s| == 1
    ensures Decimal(ParseDecimal(s)) == s
    decreases |s|
  {
    if |s| > 1 {
      var init := s[..|s| - 1];
      DecimalCanonical(init);
      ParseAtLeastFirst(init);
      var v := ParseDecimal(s);
      assert v / 10 == ParseDecimal(init);
      assert v % 10 == DigitValue(s[|s| - 1]);
      assert DigitChar(v % 10) == s[|s| - 1];
      assert s == init + [s[|s| - 1]];
    }
  }

  /** Round trip of the whole encoder: parsing the text written for n gives back n. */
  lemma ItoaRoundTrip(n: int)
    ensures |Itoa(n)| > 0
    ensures Itoa(n)[0] == '-' <==> n < 0
    ensures n < 0 ==> AllDigits(Itoa(n)[1..]) && Itoa(n)[1] != '0'
    ensures ParseSigned(Itoa(n)) == n
  {
    if n < 0 {
      DecimalRoundTrip(-n);
      assert Itoa(n)[1..] == Decimal(-n);
    } else {
      DecimalRoundTrip(n);
    }
  }

  /** The number of digits of n is its order of magnitude. */
  lemma {:induction false} DecimalLength(n: nat, k: nat)
    requires 1 <= k && n < Pow10(k)
    ensures |Decimal(n)| <= k
    decreases k
  {
    if n >= 10 {
      DecimalLength(n / 10, k - 1);
    }
  }

  /**
   * For every 32-bit n except INT_MIN the encoder writes at most 11 characters
   * and the NUL, so a 12-byte buffer always suffices.
   */
  lemma ItoaFits(n: int)
    requires IntMin < n <= IntMax
    ensures |Itoa(n)| + 1 <= 12
  {
    assert Pow10(10) == 10_000_000_000;
    if n < 0 {
      DecimalLength(-n, 10);
    } else {
      DecimalLength(n, 10);
    }
  }

  /** How iacvt splits the text of n: the sign, the text of |n| / 10 unless it is zero, the last digit. */
  lemma ItoaSplit(n: int)
    ensures var m := if n < 0 then -n else n;
      Itoa(n) == (if n < 0 then ['-'] else []) + (if m / 10 != 0 then Itoa(m / 10) else []) + [DigitChar(m % 10)]
  {
  }

  /**
   * iacvt: writes the text of n at buf[bp..] and returns the advanced cursor;
   * nothing else in buf changes.  Negating INT_MIN overflows (as the C comment
   * says), so it is excluded.
   */
  method Iacvt(buf: array<char>, bp: nat, n: int) returns (next: nat)
    requires IntMin < n <= IntMax
    requires bp + |Itoa(n)| <= buf.Length
    modifies buf
    ensures next == bp + |Itoa(n)|
    ensures forall k :: 0 <= k < |Itoa(n)| ==> buf[bp + k] == Itoa(n)[k]
    ensures forall i :: 0 <= i < buf.Length && !(bp <= i < next) ==> buf[i] == old(buf[i])
    decreases if n < 0 then -n else n
  {
    ItoaSplit(n);
    var m := n;
    next := bp;
    ghost var out: seq<char> := [];
    if m < 0 {
      buf[next] := '-';
      next := next + 1;
      m := -m;
      out := out + ['-'];
    }
    var d := DigitChar(m % 10);
    if m / 10 != 0 {
      ghost var high := Itoa(m / 10);
      next := Iacvt(buf, next, m / 10);
      out := out + high;
    }
    buf[next] := d;
    next := next + 1;
    out := out + [d];
    assert out == Itoa(n);
  }

  /** inttoascii: the text of n followed by a NUL, written at the start of s. */
  method InttoAscii(s: array<char>, n: int)
    requires IntMin < n <= IntMax
    requires |Itoa(n)| + 1 <= s.Length
    modifies s
    ensures s[..|Itoa(n)| + 1] == Itoa(n) + ['\0']
    ensures s[|Itoa(n)| + 1..] == old(s[|Itoa(n)| + 1..])
  {
    var bp := Iacvt(s, 0, n);
    s[bp] := '\0';
    assert s[..bp + 1] == Itoa(n) + ['\0'];
  }
}
