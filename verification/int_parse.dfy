/** `_parse_int`: Python's `int(s, 0)` followed by the signed 8-bit range check that
    the command line applies to T and dT. */
module IntParse {
  import opened Results

  /** The characters Python's `str.isspace()` accepts, which `int()` strips from both ends. */
  predicate IsSpace(c: char) {
    var n := c as int;
    (9 <= n <= 13) || (28 <= n <= 32) || n == 0x85 || n == 0xA0 || n == 0x1680 ||
    (0x2000 <= n <= 0x200A) || n == 0x2028 || n == 0x2029 || n == 0x202F ||
    n == 0x205F || n == 0x3000
  }

  /** `str.lstrip()`: drops the white space s starts with. */
  function StripLeft(s: string): (r: string)
    ensures |r| <= |s|
    ensures |r| > 0 ==> !IsSpace(r[0])
  {
    if |s| > 0 && IsSpace(s[0]) then StripLeft(s[1..]) else s
  }

  /** `str.rstrip()`: drops the white space s ends with. */
  function StripRight(s: string): (r: string)
    ensures |r| <= |s|
    ensures |r| > 0 ==> !IsSpace(r[|r| - 1])
  {
    if |s| > 0 && IsSpace(s[|s| - 1]) then StripRight(s[..|s| - 1]) else s
  }

  /** The number of white-space characters s starts with. */
  function LeadingSpaces(s: string): (n: nat)
    ensures n <= |s|
    ensures forall k :: 0 <= k < n ==> IsSpace(s[k])
    ensures n < |s| ==> !IsSpace(s[n])
  {
    if |s| > 0 && IsSpace(s[0]) then 1 + LeadingSpaces(s[1..]) else 0
  }

  /** Python's `str.strip()`: the slice of s that starts after its leading white space and
      leaves only white space behind it; it is empty only when s is all white space. */
  function Strip(s: string): (r: string)
    ensures var i := LeadingSpaces(s);
              i + |r| <= |s| && r == s[i..i + |r|] &&
              forall k :: i + |r| <= k < |s| ==> IsSpace(s[k])
    ensures |r| > 0 ==> !IsSpace(r[0]) && !IsSpace(r[|r| - 1])
    ensures |s| > 0 && !IsSpace(s[0]) && !IsSpace(s[|s| - 1]) ==> r == s
  {
    var l := StripLeft(s);
    var r := StripRight(l);
    var i := LeadingSpaces(s);
    StripLeftIsSuffix(s);
    StripRightIsPrefix(l);
    StripSlices(s, i, l, r);
    if |s| > 0 && !IsSpace(s[0]) && !IsSpace(s[|s| - 1]) then
      TrimmedIsWhole(s, i, r);
      r
    else
      r
  }

  lemma {:induction false} StripLeftIsSuffix(s: string)
    ensures LeadingSpaces(s) + |StripLeft(s)| == |s|
    ensures StripLeft(s) == s[LeadingSpaces(s)..]
  {
    if |s| > 0 && IsSpace(s[0]) {
      StripLeftIsSuffix(s[1..]);
      assert s[1..][LeadingSpaces(s[1..])..] == s[LeadingSpaces(s)..];
    }
  }

  lemma {:induction false} StripRightIsPrefix(s: string)
    ensures StripRight(s) == s[..|StripRight(s)|]
    ensures forall k :: |StripRight(s)| <= k < |s| ==> IsSpace(s[k])
  {
    if |s| > 0 && IsSpace(s[|s| - 1]) {
      var t := s[..|s| - 1];
      StripRightIsPrefix(t);
      assert t[..|StripRight(t)|] == s[..|StripRight(t)|];
      forall k | |StripRight(t)| <= k < |s|
        ensures IsSpace(s[k])
      {
        if k < |s| - 1 {
          assert s[k] == t[k];
        }
      }
    }
  }

  lemma StripSlices(s: string, i: nat, l: string, r: string)
    requires i + |l| == |s| && l == s[i..]
    requires |r| <= |l| && r == l[..|r|] && forall k :: |r| <= k < |l| ==> IsSpace(l[k])
    ensures i + |r| <= |s| && r == s[i..i + |r|]
    ensures forall k :: i + |r| <= k < |s| ==> IsSpace(s[k])
  {
    forall k | i + |r| <= k < |s|
      ensures IsSpace(s[k])
    {
      assert s[k] == l[k - i];
    }
  }

  lemma TrimmedIsWhole(s: string, i: nat, r: string)
    requires |s| > 0 && !IsSpace(s[0]) && !IsSpace(s[|s| - 1])
    requires i + |r| <= |s| && r == s[i..i + |r|]
    requires forall k :: 0 <= k < i ==> IsSpace(s[k])
    requires forall k :: i + |r| <= k < |s| ==> IsSpace(s[k])
    ensures r == s
  {
    var first, last := s[0], s[|s| - 1];
    assert !IsSpace(first) && !IsSpace(last);
  }

  /** White space around text that neither starts nor ends with white space is exactly
      what `strip()` removes. */
  lemma StripSurrounding(ws: string, t: string, ws': string)
    requires forall k :: 0 <= k < |ws| ==> IsSpace(ws[k])
    requires forall k :: 0 <= k < |ws'| ==> IsSpace(ws'[k])
    requires |t| > 0 && !IsSpace(t[0]) && !IsSpace(t[|t| - 1])
    ensures Strip(ws + t + ws') == t
  {
    StripLeftSpaces(ws, t + ws');
    assert ws + t + ws' == ws + (t + ws');
    StripRightSpaces(t, ws');
  }

  lemma {:induction false} StripLeftSpaces(ws: string, x: string)
    requires forall k :: 0 <= k < |ws| ==> IsSpace(ws[k])
    requires |x| > 0 && !IsSpace(x[0])
    ensures StripLeft(ws + x) == x
  {
    if |ws| > 0 {
      assert (ws + x)[1..] == ws[1..] + x;
      StripLeftSpaces(ws[1..], x);
    } else {
      assert ws + x == x;
    }
  }

  lemma {:induction false} StripRightSpaces(x: string, ws: string)
    requires forall k :: 0 <= k < |ws| ==> IsSpace(ws[k])
    requires |x| > 0 && !IsSpace(x[|x| - 1])
    ensures StripRight(x + ws) == x
  {
    if |ws| > 0 {
      assert (x + ws)[..|x + ws| - 1] == x + ws[..|ws| - 1];
      StripRightSpaces(x, ws[..|ws| - 1]);
    } else {
      assert x + ws == x;
    }
  }

  /** Value of an ASCII digit or letter as a digit in bases up to 36; 36 for anything else. */
  function DigitValue(c: char): (v: nat)
    ensures v <= 36
  {
    if '0' <= c <= '9' then c as int - '0' as int
    else if 'a' <= c <= 'z' then c as int - 'a' as int + 10
    else if 'A' <= c <= 'Z' then c as int - 'A' as int + 10
    else 36
  }

  function RemoveUnderscores(s: string): (r: string)
    ensures |r| <= |s|
    ensures forall i :: 0 <= i < |r| ==> r[i] != '_'
  {
    if |s| == 0 then []
    else if s[0] == '_' then RemoveUnderscores(s[1..])
    else [s[0]] + RemoveUnderscores(s[1..])
  }
  /** Removing underscores keeps only characters of the input. */
  lemma {:induction false} RemoveUnderscoresKeepsCharacters(s: string)
    ensures forall i :: 0 <= i < |RemoveUnderscores(s)| ==> RemoveUnderscores(s)[i] in s
  {
    if |s| > 0 {
      RemoveUnderscoresKeepsCharacters(s[1..]);
      var rest := RemoveUnderscores(s[1..]);
      forall i | 0 <= i < |rest|
        ensures rest[i] in s
      {
        assert rest[i] in s[1..];
      }
    }
  }


  /** Digits of `base` with single underscores between them, as Python's literal
      grammar allows; a leading underscore only right after a base prefix. */
  predicate WellFormedDigits(s: string, base: nat, leadUnderscore: bool) {
    && |s| > 0
    && s[|s| - 1] != '_'
    && (s[0] == '_' ==> leadUnderscore)
    && (forall i :: 0 <= i < |s| - 1 && s[i] == '_' ==> s[i + 1] != '_')
    && (forall i :: 0 <= i < |s| && s[i] != '_' ==> DigitValue(s[i]) < base)
  }

  /** Positional value of a digit string, most significant digit first. */
  function ValueOf(ds: string, base: nat): (v: nat)
  {
    if |ds| == 0 then 0
    else ValueOf(ds[..|ds| - 1], base) * base + DigitValue(ds[|ds| - 1])
  }

  /** The letters of the 0x, 0o and 0b prefixes, in either case. */
  predicate IsPrefixLetter(c: char) {
    c == 'x' || c == 'X' || c == 'o' || c == 'O' || c == 'b' || c == 'B'
  }

  /** The base a prefix letter selects: x for 16, o for 8, b for 2, in either case. */
  function PrefixBase(p: char): nat
  {
    if p == 'x' || p == 'X' then 16 else if p == 'o' || p == 'O' then 8 else 2
  }

  /** The unsigned part of a literal: a 0x/0o/0b prefixed number or a decimal number
      (a decimal with a leading zero must be all zeros). */
  function ParseUnsigned(body: string): Result<nat>
  {
    if |body| >= 2 && body[0] == '0' && IsPrefixLetter(body[1]) then
      var base := PrefixBase(body[1]);
      var ds := body[2..];
      if WellFormedDigits(ds, base, true) then Ok(ValueOf(RemoveUnderscores(ds), base))
      else Err(NotAnInteger)
    else if WellFormedDigits(body, 10, false) &&
            (body[0] == '0' ==> forall i :: 0 <= i < |body| ==> (body[i] == '0' || body[i] == '_')) then
      Ok(ValueOf(RemoveUnderscores(body), 10))
    else Err(NotAnInteger)
  }

  /** Python's `int(s, 0)`: surrounding white space, an optional sign, then a literal. */
  function ParseIntBase0(s: string): (r: Result<int>)
    ensures r.Err? ==> r.error == NotAnInteger
  {
    var t := Strip(s);
    if |t| == 0 then Err(NotAnInteger)
    else
      var body := if t[0] == '-' || t[0] == '+' then t[1..] else t;
      ApplySign(t[0] == '-', ParseUnsigned(body))
  }

  /** The parsed magnitude, negated after a minus sign; errors pass through. */
  function ApplySign(neg: bool, r: Result<nat>): Result<int>
  {
    match r
    case Ok(n) => Ok(if neg then -(n as int) else n as int)
    case Err(e) => Err(e)
  }

  predicate InS8(v: int) { -128 <= v <= 127 }

  /** `_parse_int`: any text `int(s, 0)` rejects is an error, and so is any value
      outside [-128, 127]; otherwise the value itself. */
  function ParseS8(s: string): (r: Result<int>)
    ensures r.Ok? <==> ParseIntBase0(s).Ok? && InS8(ParseIntBase0(s).value)
    ensures r.Ok? ==> r.value == ParseIntBase0(s).value
    ensures ParseIntBase0(s).Ok? && !InS8(ParseIntBase0(s).value) ==> r == Err(OutOfRange)
  {
    match ParseIntBase0(s)
    case Err(e) => Err(e)
    case Ok(v) => if v < -128 || v > 127 then Err(OutOfRange) else Ok(v)
  }

  function DigitChar(d: int): (c: char)
    requires 0 <= d < 10
    ensures '0' <= c <= '9' && DigitValue(c) == d
  {
    ('0' as int + d) as char
  }

  /** Decimal text of a natural number, without leading zeros. */
  function ShowNat(n: nat): (s: string)
    ensures |s| >= 1
    ensures forall i :: 0 <= i < |s| ==> '0' <= s[i] <= '9'
    ensures n > 0 ==> s[0] != '0'
    ensures n == 0 ==> s == "0"
  {
    if n < 10 then [DigitChar(n)] else ShowNat(n / 10) + [DigitChar(n % 10)]
  }

  /** Decimal text of an integer, as Python's `str()` writes it. */
  function ShowInt(v: int): (s: string)
  {
    if v < 0 then "-" + ShowNat(-v) else ShowNat(v)
  }

  lemma {:induction false} ValueOfShowNat(n: nat)
    ensures ValueOf(ShowNat(n), 10) == n
  {
    if n >= 10 {
      var a := ShowNat(n / 10);
      var s := a + [DigitChar(n % 10)];
      assert s[..|s| - 1] == a;
      ValueOfShowNat(n / 10);
    }
  }

  lemma {:induction false} NoUnderscoresKept(s: string)
    requires forall i :: 0 <= i < |s| ==> s[i] != '_'
    ensures RemoveUnderscores(s) == s
  {
    if |s| > 0 {
      NoUnderscoresKept(s[1..]);
    }
  }

  /** The unsigned parser reads back the decimal text of every natural number. */
  lemma DecimalRoundTrip(n: nat)
    ensures ParseUnsigned(ShowNat(n)) == Ok(n)
  {
    var digits := ShowNat(n);
    assert !(|digits| >= 2 && IsPrefixLetter(digits[1]));
    NoUnderscoresKept(digits);
    ValueOfShowNat(n);
    assert WellFormedDigits(digits, 10, false);
  }

  /** White space is only stripped from the ends, so text that starts and ends with
      something else is parsed as it stands. */
  lemma ParseUnstripped(s: string)
    requires |s| > 0 && !IsSpace(s[0]) && !IsSpace(s[|s| - 1])
    ensures s[0] == '-' ==> ParseIntBase0(s) == ApplySign(true, ParseUnsigned(s[1..]))
    ensures s[0] == '+' ==> ParseIntBase0(s) == ApplySign(false, ParseUnsigned(s[1..]))
    ensures s[0] != '-' && s[0] != '+' ==> ParseIntBase0(s) == ApplySign(false, ParseUnsigned(s))
  {
    assert Strip(s) == s;
  }

  /** `int(s, 0)` reads back the decimal text of every integer. */
  lemma ParseShowRoundTrip(v: int)
    ensures ParseIntBase0(ShowInt(v)) == Ok(v)
  {
    var n: nat := if v < 0 then -v else v;
    var digits := ShowNat(n);
    DecimalRoundTrip(n);
    var s := ShowInt(v);
    if v < 0 {
      assert s == ['-'] + digits;
      assert s[1..] == digits;
      ParseUnstripped(s);
    } else {
      assert s == digits;
      ParseUnstripped(s);
    }
  }

  /** `_parse_int` accepts exactly the decimal texts of the values in [-128, 127]. */
  lemma ParseS8RoundTrip(v: int)
    ensures ParseS8(ShowInt(v)) == (if InS8(v) then Ok(v) else Err(OutOfRange))
  {
    ParseShowRoundTrip(v);
  }

  /** `int(s, 0)` on a 0x/0o/0b literal, signed or not, with single underscores between
      its digits (or right after the prefix): the value of its digits in that base. */
  lemma PrefixedLiteral(sign: string, p: char, ds: string)
    requires sign == "" || sign == "+" || sign == "-"
    requires IsPrefixLetter(p) && WellFormedDigits(ds, PrefixBase(p), true)
    ensures var v := ValueOf(RemoveUnderscores(ds), PrefixBase(p)) as int;
            ParseIntBase0(sign + ['0', p] + ds) == Ok(if sign == "-" then -v else v)
  {
    assert sign + ['0', p] + ds == sign + (['0', p] + ds);
    SignedPrefixed(sign, p, ds);
    PrefixedValue(sign == "-", p, ds);
  }

  lemma SignedPrefixed(sign: string, p: char, ds: string)
    requires sign == "" || sign == "+" || sign == "-"
    requires IsPrefixLetter(p) && WellFormedDigits(ds, PrefixBase(p), true)
    ensures ParseIntBase0(sign + (['0', p] + ds)) == ApplySign(sign == "-", ParseUnsigned(['0', p] + ds))
  {
    var body := ['0', p] + ds;
    assert body[|body| - 1] == ds[|ds| - 1];
    DigitNotSpace(ds[|ds| - 1]);
    SignedLiteral(sign, body);
  }

  lemma PrefixedValue(neg: bool, p: char, ds: string)
    requires IsPrefixLetter(p) && WellFormedDigits(ds, PrefixBase(p), true)
    ensures var v := ValueOf(RemoveUnderscores(ds), PrefixBase(p)) as int;
            ApplySign(neg, ParseUnsigned(['0', p] + ds)) == Ok(if neg then -v else v)
  {
    UnsignedPrefixed(p, ds);
    SignOfValue(neg, ParseUnsigned(['0', p] + ds), ValueOf(RemoveUnderscores(ds), PrefixBase(p)));
  }

  lemma SignOfValue(neg: bool, u: Result<nat>, n: nat)
    requires u == Ok(n)
    ensures ApplySign(neg, u) == Ok(if neg then -(n as int) else n as int)
  {
  }

  lemma UnsignedPrefixed(p: char, ds: string)
    requires IsPrefixLetter(p) && WellFormedDigits(ds, PrefixBase(p), true)
    ensures ParseUnsigned(['0', p] + ds) == Ok(ValueOf(RemoveUnderscores(ds), PrefixBase(p)))
  {
    var body := ['0', p] + ds;
    assert body[0] == '0' && body[1] == p && body[2..] == ds;
  }

  lemma UnsignedDecimal(ds: string)
    requires WellFormedDigits(ds, 10, false) && ds[0] != '0'
    ensures ParseUnsigned(ds) == Ok(ValueOf(RemoveUnderscores(ds), 10))
  {
  }

  /** `int(s, 0)` on a decimal literal without a leading zero, signed or not, with single
      underscores between its digits: its decimal value. */
  lemma DecimalLiteral(sign: string, ds: string)
    requires sign == "" || sign == "+" || sign == "-"
    requires WellFormedDigits(ds, 10, false) && ds[0] != '0'
    ensures var v := ValueOf(RemoveUnderscores(ds), 10) as int;
            ParseIntBase0(sign + ds) == Ok(if sign == "-" then -v else v)
  {
    SignedDecimal(sign, ds);
    DecimalValue(sign == "-", ds);
  }

  lemma SignedDecimal(sign: string, ds: string)
    requires sign == "" || sign == "+" || sign == "-"
    requires WellFormedDigits(ds, 10, false) && ds[0] != '0'
    ensures ParseIntBase0(sign + ds) == ApplySign(sign == "-", ParseUnsigned(ds))
  {
    DigitNotSpace(ds[0]);
    DigitNotSpace(ds[|ds| - 1]);
    SignedLiteral(sign, ds);
  }

  lemma DecimalValue(neg: bool, ds: string)
    requires WellFormedDigits(ds, 10, false) && ds[0] != '0'
    ensures var v := ValueOf(RemoveUnderscores(ds), 10) as int;
            ApplySign(neg, ParseUnsigned(ds)) == Ok(if neg then -v else v)
  {
    UnsignedDecimal(ds);
    SignOfValue(neg, ParseUnsigned(ds), ValueOf(RemoveUnderscores(ds), 10));
  }

  lemma DigitNotSpace(c: char)
    requires DigitValue(c) < 36
    ensures !IsSpace(c) && c != '-' && c != '+'
  {
  }

  /** An optional sign in front of an unsigned literal that has no white space at
      either end. */
  lemma SignedLiteral(sign: string, body: string)
    requires sign == "" || sign == "+" || sign == "-"
    requires |body| > 0 && !IsSpace(body[0]) && !IsSpace(body[|body| - 1])
    requires body[0] != '-' && body[0] != '+'
    ensures ParseIntBase0(sign + body) == ApplySign(sign == "-", ParseUnsigned(body))
  {
    var s := sign + body;
    assert s[|s| - 1] == body[|body| - 1];
    if sign == "" {
      assert s == body;
    } else {
      assert s[1..] == body;
    }
    ParseUnstripped(s);
  }

  /** Surrounding white space never changes what `int(s, 0)` reads. */
  lemma SurroundingSpaceIgnored(ws: string, t: string, ws': string)
    requires forall k :: 0 <= k < |ws| ==> IsSpace(ws[k])
    requires forall k :: 0 <= k < |ws'| ==> IsSpace(ws'[k])
    requires |t| > 0 && !IsSpace(t[0]) && !IsSpace(t[|t| - 1])
    ensures ParseIntBase0(ws + t + ws') == ParseIntBase0(t)
  {
    StripSurrounding(ws, t, ws');
    assert Strip(t) == t;
  }

  /** `PrefixedLiteral` for a text already spelled out. */
  lemma PrefixedText(s: string, sign: string, p: char, ds: string)
    requires sign == "" || sign == "+" || sign == "-"
    requires IsPrefixLetter(p) && WellFormedDigits(ds, PrefixBase(p), true)
    requires s == sign + ['0', p] + ds
    ensures var v := ValueOf(RemoveUnderscores(ds), PrefixBase(p)) as int;
            ParseIntBase0(s) == Ok(if sign == "-" then -v else v)
  {
    PrefixedLiteral(sign, p, ds);
  }

  lemma Hex80()
    ensures ValueOf(RemoveUnderscores("80"), 16) == 128
  {
    assert RemoveUnderscores("80") == "80";
  }

  lemma Hex7F()
    ensures ValueOf(RemoveUnderscores("7F"), 16) == 127
  {
    assert RemoveUnderscores("7F") == "7F";
  }

  lemma Binary1_0()
    ensures ValueOf(RemoveUnderscores("1_0"), 2) == 2
  {
    assert RemoveUnderscores("1_0") == "10";
  }

  lemma Octal17()
    ensures ValueOf(RemoveUnderscores("17"), 8) == 15
  {
    assert RemoveUnderscores("17") == "17";
  }

  lemma Decimal129()
    ensures ValueOf(RemoveUnderscores("129"), 10) == 129
  {
    assert RemoveUnderscores("129") == "129";
    assert "129"[..2] == "12" && "12"[..1] == "1";
  }

  lemma HexLowerBound()
    ensures ParseS8("-0x80") == Ok(-128)
  {
    Hex80();
    PrefixedText("-0x80", "-", 'x', "80");
  }

  lemma HexUpperBound()
    ensures ParseS8("0x7F") == Ok(127)
  {
    Hex7F();
    PrefixedText("0x7F", "", 'x', "7F");
  }

  lemma HexPastUpperBound()
    ensures ParseS8("0x80") == Err(OutOfRange)
  {
    Hex80();
    PrefixedText("0x80", "", 'x', "80");
  }

  lemma BinaryWithUnderscore()
    ensures ParseS8("0b1_0") == Ok(2)
  {
    Binary1_0();
    PrefixedText("0b1_0", "", 'b', "1_0");
  }

  lemma OctalLiteral()
    ensures ParseIntBase0("0o17") == Ok(15)
  {
    Octal17();
    PrefixedText("0o17", "", 'o', "17");
  }

  lemma OctalInWhiteSpace()
    ensures ParseS8(" 0o17\n") == Ok(15)
  {
    assert " " + "0o17" + "\n" == " 0o17\n";
    SurroundingSpaceIgnored(" ", "0o17", "\n");
    OctalLiteral();
  }

  lemma DecimalPastLowerBound()
    ensures ParseS8("-129") == Err(OutOfRange)
  {
    Decimal129();
    DecimalLiteral("-", "129");
    assert "-" + "129" == "-129";
  }

  lemma DoubledUnderscore()
    ensures ParseS8("1__0") == Err(NotAnInteger)
  {
    assert !WellFormedDigits("1__0", 10, false) by {
      assert "1__0"[1] == '_' && "1__0"[2] == '_';
    }
    ParseUnstripped("1__0");
  }

  lemma MalformedTexts()
    ensures ParseS8("012") == Err(NotAnInteger)
    ensures ParseS8("") == Err(NotAnInteger) && ParseS8("0x") == Err(NotAnInteger)
  {
    ParseUnstripped("012");
    ParseUnstripped("0x");
  }

  /** Command-line values in other bases: the s8 bounds in hexadecimal, binary with an
      underscore, octal inside white space; and what `_parse_int` refuses: values just
      outside the s8 range, a doubled underscore, a decimal with a leading zero, nothing
      at all, and a prefix without digits. */
  lemma ParseS8Vectors()
    ensures ParseS8("-0x80") == Ok(-128) && ParseS8("0x7F") == Ok(127)
    ensures ParseS8("0b1_0") == Ok(2) && ParseS8(" 0o17\n") == Ok(15)
    ensures ParseS8("0x80") == Err(OutOfRange) && ParseS8("-129") == Err(OutOfRange)
    ensures ParseS8("1__0") == Err(NotAnInteger) && ParseS8("012") == Err(NotAnInteger)
    ensures ParseS8("") == Err(NotAnInteger) && ParseS8("0x") == Err(NotAnInteger)
  {
    HexLowerBound();
    HexUpperBound();
    HexPastUpperBound();
    BinaryWithUnderscore();
    OctalInWhiteSpace();
    DecimalPastLowerBound();
    DoubledUnderscore();
    MalformedTexts();
  }
}
