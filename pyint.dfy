/**
  Python's conversions between integers and decimal text, as the scripts use
  them: `int(text)` to read a phase number out of a file name or a line
  number out of a source location, and `str(n)` (inside an f-string) to
  write a phase number into a file name.
*/
module PyInt {
  import opened Common

  predicate IsDigit(c: char) { '0' <= c <= '9' }

  /** The characters `int()` strips around its argument: ASCII space, tab,
      line feed, vertical tab, form feed, carriage return and the four
      information separators 0x1C..0x1F. */
  predicate IsSpace(c: char) {
    c == ' ' || (9 <= c as int <= 13) || (28 <= c as int <= 31)
  }

  function DigitValue(c: char): (d: nat)
    requires IsDigit(c)
    ensures d < 10
  {
    c as int - '0' as int
  }

  function DigitChar(d: nat): (c: char)
    requires d < 10
    ensures IsDigit(c) && DigitValue(c) == d
  {
    ('0' as int + d) as char
  }

  function StripLeft(s: string): (r: string)
    ensures |r| <= |s| && r == s[|s| - |r|..]
    ensures r != [] ==> !IsSpace(r[0])
    ensures forall i | 0 <= i < |s| - |r| :: IsSpace(s[i])
  {
    if s != [] && IsSpace(s[0]) then StripLeft(s[1..]) else s
  }

  function StripRight(s: string): (r: string)
    ensures |r| <= |s| && r == s[..|r|]
    ensures r != [] ==> !IsSpace(r[|r| - 1])
    ensures forall i | |r| <= i < |s| :: IsSpace(s[i])
  {
    if s != [] && IsSpace(s[|s| - 1]) then StripRight(s[..|s| - 1]) else s
  }

  /** `s.strip()` restricted to the characters of `IsSpace`. */
  function Strip(s: string): string {
    StripRight(StripLeft(s))
  }

  /** A run of decimal digits in which single underscores may separate two
      digits, as `int()` accepts since Python 3.6: "12", "007", "1_000"; not
      "", "_1", "1_" or "1__0". */
  predicate DigitRun(s: string) {
    && |s| > 0
    && IsDigit(s[0]) && IsDigit(s[|s| - 1])
    && (forall i | 0 <= i < |s| :: IsDigit(s[i]) || s[i] == '_')
    && (forall i | 0 <= i < |s| - 1 :: s[i] == '_' ==> s[i + 1] != '_')
  }

  /** The value of a digit run, underscores ignored. */
  function RunValue(s: string): nat
    requires forall i | 0 <= i < |s| :: IsDigit(s[i]) || s[i] == '_'
  {
    if s == [] then 0
    else if s[|s| - 1] == '_' then RunValue(s[..|s| - 1])
    else RunValue(s[..|s| - 1]) * 10 + DigitValue(s[|s| - 1])
  }

  /** Python's `int(text)` in base 10: `None` stands for the `ValueError` it
      raises on anything other than optional surrounding white space, an
      optional sign and a digit run. */
  function ParseInt(text: string): Option<int> {
    var t := Strip(text);
    if t != [] && (t[0] == '-' || t[0] == '+') then
      var body := t[1..];
      if DigitRun(body) then
        var v: int := RunValue(body);
        Some(if t[0] == '-' then -v else v)
      else None
    else if DigitRun(t) then
      Some(RunValue(t))
    else None
  }

  /** The decimal digits of `n`, most significant first, without leading zeros. */
  function NatToDigits(n: nat): (s: string)
    ensures |s| > 0 && IsDigit(s[0]) && IsDigit(s[|s| - 1])
    ensures forall i | 0 <= i < |s| :: IsDigit(s[i])
  {
    if n < 10 then [DigitChar(n)] else NatToDigits(n / 10) + [DigitChar(n % 10)]
  }

  /** Python's `str(n)` for an integer. */
  function IntToString(n: int): string {
    if n < 0 then "-" + NatToDigits(-n) else NatToDigits(n)
  }

  lemma {:induction false} NatToDigitsValue(n: nat)
    ensures DigitRun(NatToDigits(n))
    ensures RunValue(NatToDigits(n)) == n
  {
    var s := NatToDigits(n);
    if n >= 10 {
      NatToDigitsValue(n / 10);
      assert s[..|s| - 1] == NatToDigits(n / 10);
    }
  }

  /** Reading back what `str` wrote gives the same integer. */
  lemma ParseIntToString(n: int)
    ensures ParseInt(IntToString(n)) == Some(n)
  {
    var s := IntToString(n);
    var d := NatToDigits(if n < 0 then -n else n);
    NatToDigitsValue(if n < 0 then -n else n);
    StripUnspaced(s);
    if n < 0 {
      assert s[1..] == d;
    } else {
      assert s == d;
    }
  }

  lemma StripUnspaced(s: string)
    requires s != [] && !IsSpace(s[0]) && !IsSpace(s[|s| - 1])
    ensures Strip(s) == s
  {
    assert StripLeft(s) == s;
    assert StripRight(s) == s;
  }

  /** A bare digit run reads as its value. */
  lemma ParseIntOfRun(s: string)
    requires DigitRun(s)
    ensures ParseInt(s) == Some(RunValue(s))
  {
    StripUnspaced(s);
  }

  /** A minus sign followed by a digit run reads as the negated value. */
  lemma ParseIntOfNegativeRun(s: string)
    requires DigitRun(s)
    ensures ParseInt("-" + s) == Some(-(RunValue(s) as int))
  {
    StripUnspaced("-" + s);
    assert ("-" + s)[1..] == s;
  }

  /** A single digit is a digit run worth its value. */
  lemma DigitIsRun(c: char)
    requires IsDigit(c)
    ensures DigitRun([c]) && RunValue([c]) == DigitValue(c)
  {
    assert [c][..0] == [];
  }

  /** A minus sign and a single digit read as the negated digit. */
  lemma ParseIntOfNegativeDigit(c: char)
    requires IsDigit(c)
    ensures ParseInt(['-', c]) == Some(-(DigitValue(c) as int))
  {
    DigitIsRun(c);
    ParseIntOfNegativeRun([c]);
    assert "-" + [c] == ['-', c];
  }

  /** `int()` accepts leading zeros, as a file name such as
      "prd_phase_01.md" makes possible. */
  lemma ParseIntLeadingZero()
    ensures ParseInt("01") == Some(1)
  {
    var z := "01";
    assert DigitRun(z);
    assert z[..1] == "0" && "0"[..0] == "";
    assert RunValue(z) == 1;
    ParseIntOfRun(z);
  }

  /** `int()` accepts a sign, as a file name such as "prd_phase_-1.md"
      makes possible. */
  lemma ParseIntSign()
    ensures ParseInt("-1") == Some(-1)
  {
    ParseIntOfNegativeDigit('1');
  }

  /** Text without surrounding white space that is neither signed nor a
      digit run is rejected. */
  lemma ParseIntRejectsUnsigned(s: string)
    requires s != [] && !IsSpace(s[0]) && !IsSpace(s[|s| - 1])
    requires s[0] != '-' && s[0] != '+' && !DigitRun(s)
    ensures ParseInt(s) == None
  {
    StripUnspaced(s);
  }

  /** A doubled underscore is not part of a digit run. */
  lemma DoubledUnderscoreRejected(s: string, i: nat)
    requires i + 1 < |s| && s[i] == '_' && s[i + 1] == '_'
    ensures !DigitRun(s)
  {
  }

  /** Underscores separate digit groups. */
  lemma ParseIntUnderscores()
    ensures ParseInt("1_000") == Some(1000)
  {
    assert DigitRun("1_000");
    assert RunValue("1_000") == 1000 by {
      assert "1_000"[..4] == "1_00";
      assert "1_00"[..3] == "1_0";
      assert "1_0"[..2] == "1_";
      assert "1_"[..1] == "1";
      assert "1"[..0] == "";
    }
    ParseIntOfRun("1_000");
  }

  /** Doubled underscores are rejected. */
  lemma ParseIntRejectsDoubledUnderscore()
    ensures ParseInt("1__0") == None
  {
    var d := "1__0";
    DoubledUnderscoreRejected(d, 1);
    ParseIntRejectsUnsigned(d);
  }

  /** A letter is rejected. */
  lemma ParseIntRejectsLetter()
    ensures ParseInt("x1") == None
  {
    var x := "x1";
    assert !IsDigit(x[0]);
    ParseIntRejectsUnsigned(x);
  }

  /** The empty text is rejected. */
  lemma ParseIntRejectsEmpty()
    ensures ParseInt("") == None
  {
  }
}
