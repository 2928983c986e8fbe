/**
 * The buffered input the snapshot reader works on (sys/src/cmd/snap/read.c).
 * A Biobuf is modelled as the bytes of the file and a cursor into them; the
 * reading methods take the cursor and return it advanced, so Bgetc at the end
 * of the bytes is Beof and Bungetc is "do not advance".  The libc number
 * conversions the reader calls (strtoul, atol, atoi) are modelled here too, on
 * the strings the reader hands them.
 */
module SnapBio {
  import opened Wrappers

  type byte = b: int | 0 <= b < 256

  const Blank: byte := 32      // ' '
  const Newline: byte := 10    // '\n'
  const Zero: byte := 48       // '0'
  const Minus: byte := 45      // '-'
  const Plus: byte := 43       // '+'
  const Tab: byte := 9         // '\t'
  const Nul: byte := 0
  const LowerX: byte := 120    // 'x'
  const UpperX: byte := 88     // 'X'

  /** The smallest 32-bit long. */
  const LongMin: int := -0x8000_0000

  /** Breadnumber gives up after reading this many characters. */
  const MaxNumChars: nat := 22

  predicate IsDigit(c: byte) { 48 <= c <= 57 }

  predicate IsOctal(c: byte) { 48 <= c <= 55 }

  predicate AllDigits(s: seq<byte>) { forall k :: 0 <= k < |s| ==> IsDigit(s[k]) }

  /** Where the run of blanks that starts at index i of s ends. */
  function SpaceEnd(s: seq<byte>, i: nat): (j: nat)
    requires i <= |s|
    ensures i <= j <= |s|
    ensures forall k :: i <= k < j ==> s[k] == Blank
    ensures j < |s| ==> s[j] != Blank
    decreases |s| - i
  {
    if i < |s| && s[i] == Blank then SpaceEnd(s, i + 1) else i
  }

  /** Where the run of decimal digits that starts at index i of s ends. */
  function DigitEnd(s: seq<byte>, i: nat): (j: nat)
    requires i <= |s|
    ensures i <= j <= |s|
    ensures forall k :: i <= k < j ==> IsDigit(s[k])
    ensures j < |s| ==> !IsDigit(s[j])
    decreases |s| - i
  {
    if i < |s| && IsDigit(s[i]) then DigitEnd(s, i + 1) else i
  }

  /** Where the run of octal digits that starts at index i of s ends. */
  function OctalEnd(s: seq<byte>, i: nat): (j: nat)
    requires i <= |s|
    ensures i <= j <= |s|
    ensures forall k :: i <= k < j ==> IsOctal(s[k])
    ensures j < |s| ==> !IsOctal(s[j])
    decreases |s| - i
  {
    if i < |s| && IsOctal(s[i]) then OctalEnd(s, i + 1) else i
  }

  /** The run of blanks is determined by where the first non-blank is. */
  lemma SpaceEndIs(s: seq<byte>, i: nat, j: nat)
    requires i <= j <= |s|
    requires forall k :: i <= k < j ==> s[k] == Blank
    requires j == |s| || s[j] != Blank
    ensures SpaceEnd(s, i) == j
  {
  }

  /**
   * What Breadnumber reads from data at pos, stated by the shape of the
   * input: a run of blanks ending at a, then digits ending at d, then the
   * character that ends the number.  It succeeds with the digits when that
   * character is a blank, and then also consumes the whole run of blanks that
   * follows; it fails at the end of the input and at any other character; and
   * whatever it has after MaxNumChars characters it returns as it stands.
   * The second component of a success is the cursor afterwards.
   */
  function Number(data: seq<byte>, pos: nat): (r: Result<(seq<byte>, nat), NumError>)
    requires pos <= |data|
    ensures r.Ok? ==> pos < r.value.1 <= |data| && |r.value.0| <= MaxNumChars
    ensures r.Ok? ==> AllDigits(r.value.0)
  {
    var a := SpaceEnd(data, pos);
    if a >= pos + MaxNumChars then Ok(([], pos + MaxNumChars))
    else
      var d := DigitEnd(data, a);
      if d >= pos + MaxNumChars then Ok((data[a..pos + MaxNumChars], pos + MaxNumChars))
      else if d == |data| then Err(Eof)
      else if data[d] == Blank then Ok((data[a..d], SpaceEnd(data, d)))
      else Err(BadChar(data[d]))
  }

  /**
   * Number read off the shape of the input: blanks from pos to a, digits
   * from a to d, then blanks from d to q, all within MaxNumChars of pos.
   */
  lemma NumberIs(data: seq<byte>, pos: nat, a: nat, d: nat, q: nat)
    requires pos <= a < d < q <= |data| && d < pos + MaxNumChars
    requires forall k :: pos <= k < a ==> data[k] == Blank
    requires forall k :: a <= k < d ==> IsDigit(data[k])
    requires forall k :: d <= k < q ==> data[k] == Blank
    requires q == |data| || data[q] != Blank
    ensures Number(data, pos) == Ok((data[a..d], q))
  {
    SpaceEndIs(data, pos, a);
    DigitEndIs(data, a, d);
    SpaceEndIs(data, d, q);
  }

  /** Why Breadnumber failed: the input ended, or a character that is neither digit nor blank. */
  datatype NumError = Eof | BadChar(c: byte)

  /**
   * Breadnumber: the characters it stores are exactly the digits that follow
   * the leading blanks; unless it stopped at the character limit, a number
   * it returns was ended by a blank and the cursor is left on the first
   * non-blank after it (or at the end of the input).
   */
  lemma NumberShape(data: seq<byte>, pos: nat)
    requires pos <= |data| && Number(data, pos).Ok?
    ensures var (ds, q) := Number(data, pos).value;
      var a := SpaceEnd(data, pos);
      a >= pos + MaxNumChars || ds == data[a..a + |ds|]
    ensures var (ds, q) := Number(data, pos).value;
      q == pos + MaxNumChars ||
      (|ds| > 0 && data[q - 1] == Blank && (q == |data| || data[q] != Blank))
  {
    var a := SpaceEnd(data, pos);
    if a < pos + MaxNumChars {
      var d := DigitEnd(data, a);
      if d < pos + MaxNumChars {
        assert d > a by {
          if d == a {
            assert false;
          }
        }
      }
    }
  }

  /**
   * Blanks and digits that end with the input before MaxNumChars characters
   * fail: the number is never ended by a blank ("12" then end of file).
   */
  lemma DigitsThenEndFail(lead: nat, ds: seq<byte>)
    requires AllDigits(ds) && lead + |ds| < MaxNumChars
    ensures Number(seq(lead, _ => Blank) + ds, 0) == Err(Eof)
  {
    var s := seq(lead, _ => Blank) + ds;
    SpaceEndIs(s, 0, lead);
    DigitEndIs(s, lead, |s|);
  }

  /** MaxNumChars blanks succeed with an empty number, whatever follows them. */
  lemma BlanksOnlyEmpty(data: seq<byte>, pos: nat)
    requires pos + MaxNumChars <= |data| && forall k :: pos <= k < pos + MaxNumChars ==> data[k] == Blank
    ensures Number(data, pos) == Ok(([], pos + MaxNumChars))
  {
  }

  /** Breadnumber: reads a blank-delimited decimal number from data at pos. */
  method Breadnumber(data: seq<byte>, pos: nat) returns (r: Result<(seq<byte>, nat), NumError>)
    requires pos <= |data|
    ensures r == Number(data, pos)
  {
    ghost var a := SpaceEnd(data, pos);
    ghost var d := DigitEnd(data, a);
    var buf: seq<byte> := [];
    var havedigits := false;
    var p := pos;
    var i := 0;
    while i < MaxNumChars
      invariant i <= MaxNumChars && p == pos + i <= |data|
      invariant !havedigits ==> buf == [] && p <= a
      invariant havedigits ==> a < p <= d && buf == data[a..p]
    {
      if p == |data| {
        return Err(Eof);
      }
      var c := data[p];
      if IsDigit(c) {
        if !havedigits {
          assert p == a;
        } else {
          assert p < d;
        }
        assert data[a..p + 1] == data[a..p] + [c];
        buf := buf + [c];
        havedigits := true;
        p := p + 1;
      } else if c == Blank {
        p := p + 1;
        if havedigits {
          assert p - 1 == d;
          while p < |data| && data[p] == Blank
            invariant d < p <= |data|
            invariant forall q :: d <= q < p ==> data[q] == Blank
          {
            p := p + 1;
          }
          SpaceEndIs(data, d, p);
          return Ok((buf, p));
        }
      } else {
        if !havedigits {
          assert p == a;
        } else {
          assert p == d;
        }
        return Err(BadChar(c));
      }
      i := i + 1;
    }
    return Ok((buf, p));
  }

  /** The value of a string of decimal (base 10) or octal (base 8) digits. */
  function DigitsValue(ds: seq<byte>, base: nat): nat
    requires forall k :: 0 <= k < |ds| ==> Zero <= ds[k]
  {
    if ds == [] then 0 else DigitsValue(ds[..|ds| - 1], base) * base + (ds[|ds| - 1] - Zero)
  }

  /**
   * strtoul(s, 0, 0): skips leading blanks; a leading 0 selects octal, and the
   * number is then the longest run of octal digits, otherwise it is the run
   * of decimal digits; a value above max is clamped to max.
   */
  function Strtoul(s: seq<byte>, max: nat): (v: nat)
    ensures v <= max
    ensures var a := SpaceEnd(s, 0);
      (a == |s| || !IsDigit(s[a])) ==> v == 0
  {
    var a := SpaceEnd(s, 0);
    var v := if a < |s| && s[a] == Zero then DigitsValue(s[a..OctalEnd(s, a)], 8)
             else DigitsValue(s[a..DigitEnd(s, a)], 10);
    if v > max then max else v
  }

  /** The two characters atol skips: blank and tab. */
  predicate IsWhite(c: byte) { c == Blank || c == Tab }

  /** Where the run of blanks and tabs that starts at index i of s ends. */
  function WhiteEnd(s: seq<byte>, i: nat): (j: nat)
    requires i <= |s|
    ensures i <= j <= |s|
    ensures forall k :: i <= k < j ==> IsWhite(s[k])
    ensures j < |s| ==> !IsWhite(s[j])
    decreases |s| - i
  {
    if i < |s| && IsWhite(s[i]) then WhiteEnd(s, i + 1) else i
  }

  predicate IsHex(c: byte) { IsDigit(c) || 97 <= c <= 102 || 65 <= c <= 70 }

  /** Where the run of hexadecimal digits that starts at index i of s ends. */
  function HexEnd(s: seq<byte>, i: nat): (j: nat)
    requires i <= |s|
    ensures i <= j <= |s|
    ensures forall k :: i <= k < j ==> IsHex(s[k])
    decreases |s| - i
  {
    if i < |s| && IsHex(s[i]) then HexEnd(s, i + 1) else i
  }

  /** The value of one hexadecimal digit, in either case. */
  function HexDigit(c: byte): (v: nat)
    requires IsHex(c)
    ensures v < 16
  {
    if IsDigit(c) then c - Zero else if c >= 97 then c - 97 + 10 else c - 65 + 10
  }

  /** The value of a string of hexadecimal digits. */
  function HexValue(ds: seq<byte>): nat
    requires forall k :: 0 <= k < |ds| ==> IsHex(ds[k])
  {
    if ds == [] then 0 else HexValue(ds[..|ds| - 1]) * 16 + HexDigit(ds[|ds| - 1])
  }

  /** A 32-bit long: the value of v modulo 2^32, taken as a signed number. */
  function Long(v: int): (r: int)
    ensures LongMin <= r < -LongMin && (r - v) % 0x1_0000_0000 == 0
  {
    var u := v % 0x1_0000_0000;
    if u >= 0x8000_0000 then u - 0x1_0000_0000 else u
  }

  /**
   * The digits atol reads from index b on: "0x" or "0X" starts a hexadecimal
   * number, any other 0 that is not the last character of the string an
   * octal one, anything else a decimal one; reading stops at the first
   * character that is not a digit of the base.
   */
  function Magnitude(s: seq<byte>, b: nat): nat
    requires b <= |s|
  {
    if b + 1 < |s| && s[b] == Zero && s[b + 1] != Nul then
      if s[b + 1] == LowerX || s[b + 1] == UpperX then HexValue(s[b + 2..HexEnd(s, b + 2)])
      else DigitsValue(s[b..OctalEnd(s, b)], 8)
    else DigitsValue(s[b..DigitEnd(s, b)], 10)
  }

  /**
   * atol / atoi of Plan 9's libc: skips blanks and tabs, takes an optional
   * sign, skips blanks and tabs again, then reads the number's magnitude
   * from DigitsStart;
   * the arithmetic is that of a 32-bit long, which wraps.
   */
  function Atol(s: seq<byte>): (v: int)
    ensures LongMin <= v < -LongMin
  {
    var m: int := Magnitude(s, DigitsStart(s));
    Long(if Negative(s) then -m else m)
  }

  /** Whether the first character after the leading blanks and tabs is a sign. */
  predicate Signed(s: seq<byte>)
  {
    var a := WhiteEnd(s, 0);
    a < |s| && (s[a] == Minus || s[a] == Plus)
  }

  /** Whether that sign is '-'. */
  predicate Negative(s: seq<byte>)
  {
    Signed(s) && s[WhiteEnd(s, 0)] == Minus
  }

  /** Where atol starts reading digits: after the blanks, the sign and the blanks after it. */
  function DigitsStart(s: seq<byte>): nat
    ensures DigitsStart(s) <= |s|
  {
    if Signed(s) then WhiteEnd(s, WhiteEnd(s, 0) + 1) else WhiteEnd(s, 0)
  }

  /**
   * A decimal number without a leading zero, after blanks and an optional
   * sign, reads back as its value while that fits in a long: the blanks end
   * at a, the sign (if any) is s[a], and the digits ds run from b to the end
   * of s or to a character that is not a digit.
   */
  lemma {:induction false} AtolDecimal(s: seq<byte>, a: nat, b: nat, ds: seq<byte>)
    requires a <= b <= a + 1 && b + |ds| <= |s|
    requires forall k :: 0 <= k < a ==> s[k] == Blank
    requires b == a + 1 ==> s[a] == Minus || s[a] == Plus
    requires |ds| > 0 && AllDigits(ds) && ds[0] != Zero && DigitsValue(ds, 10) < -LongMin
    requires s[b..b + |ds|] == ds && (b + |ds| == |s| || !IsDigit(s[b + |ds|]))
    ensures var v: int := DigitsValue(ds, 10);
      Atol(s) == if b == a + 1 && s[a] == Minus then -v else v
  {
    SignAt(s, a, b);
    DecimalAt(s, b, ds);
    var v: int := DigitsValue(ds, 10);
    LongId(v);
    LongId(-v);
  }

  /** Blanks up to a and an optional sign at a: the digits start at b, and the number is negative exactly for '-'. */
  lemma {:induction false} SignAt(s: seq<byte>, a: nat, b: nat)
    requires a <= b <= a + 1 && b < |s| && !IsWhite(s[b])
    requires forall k :: 0 <= k < a ==> s[k] == Blank
    requires b == a + 1 ==> s[a] == Minus || s[a] == Plus
    requires b == a ==> s[a] != Minus && s[a] != Plus
    ensures DigitsStart(s) == b && (Negative(s) <==> b == a + 1 && s[a] == Minus)
  {
    WhiteEndIs(s, 0, a);
    if b == a + 1 {
      WhiteEndIs(s, b, b);
    }
  }

  /** Decimal digits without a leading zero at b: atol reads exactly them. */
  lemma {:induction false} DecimalAt(s: seq<byte>, b: nat, ds: seq<byte>)
    requires b + |ds| <= |s| && |ds| > 0 && AllDigits(ds) && ds[0] != Zero
    requires s[b..b + |ds|] == ds && (b + |ds| == |s| || !IsDigit(s[b + |ds|]))
    ensures Magnitude(s, b) == DigitsValue(ds, 10)
  {
    assert s[b] == ds[0];
    forall k | b <= k < b + |ds| ensures IsDigit(s[k]) {
      assert s[k] == ds[k - b];
    }
    DigitEndIs(s, b, b + |ds|);
  }

  /** A value that fits in a long is its own long. */
  lemma LongId(v: int)
    requires LongMin <= v < -LongMin
    ensures Long(v) == v
  {
  }

  /** A leading 0 makes atol read octal: "010" is eight. */
  lemma AtolOctal()
    ensures Atol([48, 49, 48]) == 8
  {
    var o: seq<byte> := [48, 49, 48];
    WhiteEndIs(o, 0, 0);
    OctalEndIs(o, 0, 3);
    assert o[0..3] == o && o[..2] == [48, 49] && [48, 49][..1] == [48] && [48][..0] == [];
    LongId(8);
  }

  /** "0x" makes atol read hexadecimal: "0x1F" is thirty-one. */
  lemma AtolHex()
    ensures Atol([48, 120, 49, 70]) == 31
  {
    var h: seq<byte> := [48, 120, 49, 70];
    WhiteEndIs(h, 0, 0);
    assert HexEnd(h, 2) == 4 by {
      assert HexEnd(h, 4) == 4;
      assert HexEnd(h, 3) == 4;
    }
    assert h[2..4] == [49, 70] && [49, 70][..1] == [49] && [49][..0] == [];
    LongId(31);
  }

  /** The run of blanks and tabs is determined by where the first other character is. */
  lemma {:induction false} WhiteEndIs(s: seq<byte>, i: nat, j: nat)
    requires i <= j <= |s|
    requires forall k :: i <= k < j ==> IsWhite(s[k])
    requires j == |s| || !IsWhite(s[j])
    ensures WhiteEnd(s, i) == j
    decreases j - i
  {
    if i < j {
      WhiteEndIs(s, i + 1, j);
    }
  }

  /** The run of digits is determined by where the first non-digit is. */
  lemma {:induction false} DigitEndIs(s: seq<byte>, i: nat, j: nat)
    requires i <= j <= |s|
    requires forall k :: i <= k < j ==> IsDigit(s[k])
    requires j == |s| || !IsDigit(s[j])
    ensures DigitEnd(s, i) == j
    decreases j - i
  {
    if i < j {
      DigitEndIs(s, i + 1, j);
    }
  }

  /** The run of octal digits is determined by where the first non-octal character is. */
  lemma {:induction false} OctalEndIs(s: seq<byte>, i: nat, j: nat)
    requires i <= j <= |s|
    requires forall k :: i <= k < j ==> IsOctal(s[k])
    requires j == |s| || !IsOctal(s[j])
    ensures OctalEnd(s, i) == j
    decreases j - i
  {
    if i < j {
      OctalEndIs(s, i + 1, j);
    }
  }

  /** Digits written out in decimal read back as their value. */
  lemma StrtoulDecimal(ds: seq<byte>, max: nat)
    requires |ds| > 0 && AllDigits(ds) && ds[0] != Zero
    requires DigitsValue(ds, 10) <= max
    ensures Strtoul(ds, max) == DigitsValue(ds, 10)
  {
    assert SpaceEnd(ds, 0) == 0;
    assert DigitEnd(ds, 0) == |ds|;
    assert ds[0..|ds|] == ds;
  }

  /** A leading zero makes strtoul read the digits that follow as octal ("010" is eight). */
  lemma StrtoulOctal(s: seq<byte>, max: nat)
    requires |s| > 0 && s[0] == Zero && forall k :: 0 <= k < |s| ==> Zero <= s[k] <= Zero + 7
    requires DigitsValue(s, 8) <= max
    ensures Strtoul(s, max) == DigitsValue(s, 8)
  {
    OctalEndIs(s, 0, |s|);
    assert s[0..|s|] == s;
  }
}
