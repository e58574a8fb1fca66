/**
 * The C library text conversions the header records rely on: the character
 * of a byte, string(char*) on a NUL-terminated field, and atoi.
 */
module CText {

  /** The char a file byte stands for (bytes are read as Latin-1 code points). */
  function CharOf(b: bv8): (c: char)
    ensures c as int == b as int
  {
    (b as int) as char
  }

  /**
   * std::string built from a NUL-terminated char array: the text before the
   * first NUL (all of it when there is none).
   */
  function CString(field: seq<char>): (r: seq<char>)
    ensures |r| <= |field| && r == field[..|r|]
    ensures '\0' !in r
    ensures |r| < |field| ==> field[|r|] == '\0'
  {
    if |field| == 0 || field[0] == '\0' then []
    else [field[0]] + CString(field[1..])
  }

  /** The prefix CString keeps is unique: a NUL-free text followed by NUL reads back as itself. */
  lemma {:induction false} CStringOfTerminated(text: seq<char>, rest: seq<char>)
    requires '\0' !in text
    ensures CString(text + ['\0'] + rest) == text
  {
    if |text| > 0 {
      assert (text + ['\0'] + rest)[1..] == text[1..] + ['\0'] + rest;
      CStringOfTerminated(text[1..], rest);
    } else {
      assert (text + ['\0'] + rest)[0] == '\0';
    }
  }

  /** A buffer holding no NUL reads back whole. */
  lemma {:induction false} CStringOfNulFree(text: seq<char>)
    requires '\0' !in text
    ensures CString(text) == text
  {
    if |text| > 0 {
      CStringOfNulFree(text[1..]);
    }
  }

  /** isspace in the C locale. */
  predicate IsSpace(c: char) {
    c == ' ' || c == '\t' || c == '\n' || c == '\r' || c == '\U{0B}' || c == '\U{0C}'
  }

  predicate IsDigit(c: char) {
    '0' <= c <= '9'
  }

  function DigitValue(c: char): int {
    c as int - '0' as int
  }

  function DigitChar(d: int): (c: char)
    requires 0 <= d < 10
    ensures IsDigit(c) && DigitValue(c) == d
  {
    ('0' as int + d) as char
  }

  /** The text left once leading white space is skipped. */
  function SkipSpaces(s: seq<char>): (r: seq<char>)
    ensures |r| <= |s| && r == s[|s| - |r|..]
    ensures forall k :: 0 <= k < |s| - |r| ==> IsSpace(s[k])
    ensures |r| > 0 ==> !IsSpace(r[0])
    decreases |s|
  {
    if |s| > 0 && IsSpace(s[0]) then SkipSpaces(s[1..]) else s
  }

  /** The longest prefix made of decimal digits. */
  function LeadingDigits(s: seq<char>): (r: seq<char>)
    ensures |r| <= |s| && r == s[..|r|]
    ensures forall k :: 0 <= k < |r| ==> IsDigit(r[k])
    ensures |r| < |s| ==> !IsDigit(s[|r|])
  {
    if |s| > 0 && IsDigit(s[0]) then [s[0]] + LeadingDigits(s[1..]) else []
  }

  /** The value of a run of decimal digits, most significant first. */
  function DigitsValue(ds: seq<char>): int
    decreases |ds|
  {
    if |ds| == 0 then 0
    else DigitsValue(ds[..|ds| - 1]) * 10 + DigitValue(ds[|ds| - 1])
  }

  /**
   * atoi: skip white space, read an optional sign, then the leading digits.
   * Out-of-range values are not wrapped (the C++ result is undefined there).
   */
  function Atoi(s: seq<char>): int {
    SignedDigitsValue(SkipSpaces(s))
  }

  /** The value of an optional sign followed by the leading digits. */
  function SignedDigitsValue(t: seq<char>): int {
    if |t| > 0 && t[0] == '-' then -DigitsValue(LeadingDigits(t[1..]))
    else if |t| > 0 && t[0] == '+' then DigitsValue(LeadingDigits(t[1..]))
    else DigitsValue(LeadingDigits(t))
  }

  /** The decimal text of a natural number, without leading zeros. */
  function NatText(n: nat): (r: seq<char>)
    ensures |r| > 0 && forall k :: 0 <= k < |r| ==> IsDigit(r[k])
  {
    if n < 10 then [DigitChar(n)] else NatText(n / 10) + [DigitChar(n % 10)]
  }

  /** The decimal text of an integer, as printf("%d") writes it. */
  function IntText(n: int): seq<char> {
    if n < 0 then "-" + NatText(-n) else NatText(n)
  }

  lemma {:induction false} DigitsValueOfNatText(n: nat)
    ensures DigitsValue(NatText(n)) == n
  {
    if n >= 10 {
      var t := NatText(n / 10) + [DigitChar(n % 10)];
      assert t[..|t| - 1] == NatText(n / 10);
      DigitsValueOfNatText(n / 10);
    }
  }

  lemma {:induction false} LeadingDigitsOfRun(ds: seq<char>, rest: seq<char>)
    requires forall k :: 0 <= k < |ds| ==> IsDigit(ds[k])
    requires |rest| == 0 || !IsDigit(rest[0])
    ensures LeadingDigits(ds + rest) == ds
  {
    if |ds| > 0 {
      assert (ds + rest)[1..] == ds[1..] + rest;
      LeadingDigitsOfRun(ds[1..], rest);
    }
  }

  /** atoi of a text that does not start with white space is the value of its signed digits. */
  lemma AtoiNoLeadingSpace(t: seq<char>)
    requires |t| > 0 && !IsSpace(t[0])
    ensures Atoi(t) == SignedDigitsValue(t)
  {
  }

  /** atoi of a run of digits up to a non-digit is the value of the digits. */
  lemma AtoiOfDigitRun(ds: seq<char>, rest: seq<char>)
    requires |ds| > 0 && AllDigits(ds)
    requires |rest| == 0 || !IsDigit(rest[0])
    ensures Atoi(ds + rest) == DigitsValue(ds)
  {
    var t := ds + rest;
    assert t[0] == ds[0];
    AtoiNoLeadingSpace(t);
    LeadingDigitsOfRun(ds, rest);
  }

  /** atoi of a text that starts with a minus sign. */
  lemma AtoiAfterMinus(t: seq<char>)
    ensures Atoi(['-'] + t) == -DigitsValue(LeadingDigits(t))
  {
    var u := ['-'] + t;
    assert u[1..] == t;
    AtoiNoLeadingSpace(u);
  }

  /** The same after a minus sign. */
  lemma AtoiOfNegativeDigitRun(ds: seq<char>, rest: seq<char>)
    requires |ds| > 0 && AllDigits(ds)
    requires |rest| == 0 || !IsDigit(rest[0])
    ensures Atoi(['-'] + ds + rest) == -DigitsValue(ds)
  {
    assert ['-'] + ds + rest == ['-'] + (ds + rest);
    AtoiAfterMinus(ds + rest);
    LeadingDigitsOfRun(ds, rest);
  }

  /** atoi reads back the number printed by IntText, whatever non-digit text follows. */
  lemma AtoiOfIntText(n: int, rest: seq<char>)
    requires |rest| == 0 || !IsDigit(rest[0])
    ensures Atoi(IntText(n) + rest) == n
  {
    var m: nat := if n < 0 then -n else n;
    DigitsValueOfNatText(m);
    if n < 0 {
      assert IntText(n) == ['-'] + NatText(m);
      AtoiOfNegativeDigitRun(NatText(m), rest);
    } else {
      AtoiOfDigitRun(NatText(m), rest);
    }
  }

  /** atoi ignores leading white space. */
  lemma {:induction false} AtoiSkipsSpaces(pad: seq<char>, s: seq<char>)
    requires forall k :: 0 <= k < |pad| ==> IsSpace(pad[k])
    ensures SkipSpaces(pad + s) == SkipSpaces(s)
    ensures Atoi(pad + s) == Atoi(s)
  {
    if |pad| > 0 {
      var t := pad + s;
      assert t[0] == pad[0];
      assert t[1..] == pad[1..] + s;
      calc {
        SkipSpaces(t);
        SkipSpaces(t[1..]);
        { AtoiSkipsSpaces(pad[1..], s); }
        SkipSpaces(s);
      }
    } else {
      assert pad + s == s;
    }
  }
  predicate AllDigits(s: seq<char>) {
    forall k :: 0 <= k < |s| ==> IsDigit(s[k])
  }

  /** atoi of a field made only of digits is the decimal value of the digits. */
  lemma AtoiOfDigits(ds: seq<char>)
    requires AllDigits(ds)
    ensures Atoi(ds) == DigitsValue(ds)
  {
    if |ds| > 0 {
      assert !IsSpace(ds[0]) && ds[0] != '-' && ds[0] != '+';
      assert SkipSpaces(ds) == ds;
      assert ds + [] == ds;
      LeadingDigitsOfRun(ds, []);
    }
  }

  /** n written in decimal in a field of `width` characters, padded with leading zeros. */
  function PaddedText(n: nat, width: nat): (r: seq<char>)
    ensures AllDigits(r)
  {
    var t := NatText(n);
    if |t| >= width then t else seq(width - |t|, _ => '0') + t
  }

  lemma {:induction false} DigitsValueOfZeros(zeros: seq<char>)
    requires forall k :: 0 <= k < |zeros| ==> zeros[k] == '0'
    ensures DigitsValue(zeros) == 0
  {
    if |zeros| > 0 {
      DigitsValueOfZeros(zeros[..|zeros| - 1]);
    }
  }

  /** Leading zeros do not change the value of a run of digits. */
  lemma {:induction false} DigitsValueSkipsZeros(zeros: seq<char>, ds: seq<char>)
    requires forall k :: 0 <= k < |zeros| ==> zeros[k] == '0'
    ensures DigitsValue(zeros + ds) == DigitsValue(ds)
    decreases |ds|
  {
    if |ds| == 0 {
      assert zeros + ds == zeros;
      DigitsValueOfZeros(zeros);
    } else {
      var t := zeros + ds;
      assert t[..|t| - 1] == zeros + ds[..|ds| - 1];
      assert t[|t| - 1] == ds[|ds| - 1];
      DigitsValueSkipsZeros(zeros, ds[..|ds| - 1]);
    }
  }

  /** atoi reads back a zero-padded decimal field. */
  lemma AtoiOfPaddedText(n: nat, width: nat)
    ensures Atoi(PaddedText(n, width)) == n
  {
    var t := NatText(n);
    AtoiOfDigits(PaddedText(n, width));
    DigitsValueOfNatText(n);
    if |t| < width {
      DigitsValueSkipsZeros(seq(width - |t|, _ => '0'), t);
    }
  }
}
