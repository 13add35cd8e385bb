/** Models of the Python string built-ins the locker relies on: str.strip(),
    str.replace(pattern, '') and int(text) with base 10; and the canonical
    decimal text of an int, as str(n) writes it. */
module PyText {

  datatype Option<+T> = None | Some(value: T)

  /** str.isspace() for one character: the code points Python treats as white space. */
  predicate IsSpace(c: char) {
    var n := c as int;
    (9 <= n <= 13) || (28 <= n <= 32) || n == 0x85 || n == 0xA0 || n == 0x1680 ||
    (0x2000 <= n <= 0x200A) || n == 0x2028 || n == 0x2029 || n == 0x202F ||
    n == 0x205F || n == 0x3000
  }

  predicate AllSpace(s: string) {
    forall i :: 0 <= i < |s| ==> IsSpace(s[i])
  }

  lemma AllSpaceAppend(a: string, b: string)
    requires AllSpace(a) && AllSpace(b)
    ensures AllSpace(a + b)
  {
    forall k | 0 <= k < |a + b| ensures IsSpace((a + b)[k]) {
      if k >= |a| { assert (a + b)[k] == b[k - |a|]; }
    }
  }

  /** s.lstrip(): white space taken off the left end, one character at a
      time. */
  function LStrip(s: string): (r: string)
    ensures |r| <= |s|
    ensures r == [] || !IsSpace(r[0])
    decreases |s|
  {
    if s != [] && IsSpace(s[0]) then LStrip(s[1..]) else s
  }

  /** s.rstrip(): white space taken off the right end, one character at a
      time; the first character, if any is left, is the first of s. */
  function RStrip(s: string): (r: string)
    ensures |r| <= |s|
    ensures r == [] || (!IsSpace(r[|r| - 1]) && r[0] == s[0])
    decreases |s|
  {
    if s != [] && IsSpace(s[|s| - 1]) then RStrip(s[..|s| - 1]) else s
  }

  /** s.strip(): white space taken off both ends. */
  function Strip(s: string): (r: string)
    ensures |r| <= |s|
    ensures r == [] || (!IsSpace(r[0]) && !IsSpace(r[|r| - 1]))
  {
    RStrip(LStrip(s))
  }

  /** What lstrip keeps is a suffix of s, and what it drops is white space. */
  lemma {:induction false} LStripDropsSpace(s: string)
    ensures LStrip(s) == s[|s| - |LStrip(s)|..]
    ensures forall j :: 0 <= j < |s| - |LStrip(s)| ==> IsSpace(s[j])
    decreases |s|
  {
    if s != [] && IsSpace(s[0]) {
      var t := s[1..];
      LStripDropsSpace(t);
      assert LStrip(s) == LStrip(t);
      assert t[|t| - |LStrip(t)|..] == s[|s| - |LStrip(s)|..];
      forall j | 1 <= j < |s| - |LStrip(s)| ensures IsSpace(s[j]) {
        assert s[j] == t[j - 1];
      }
    }
  }

  /** What rstrip keeps is a prefix of s, and what it drops is white space. */
  lemma {:induction false} RStripDropsSpace(s: string)
    ensures RStrip(s) == s[..|RStrip(s)|]
    ensures forall j :: |RStrip(s)| <= j < |s| ==> IsSpace(s[j])
    decreases |s|
  {
    if s != [] && IsSpace(s[|s| - 1]) {
      var t := s[..|s| - 1];
      RStripDropsSpace(t);
      assert RStrip(s) == RStrip(t);
      assert t[..|RStrip(t)|] == s[..|RStrip(s)|];
      forall j | |RStrip(s)| <= j < |s| - 1 ensures IsSpace(s[j]) {
        assert s[j] == t[j];
      }
    }
  }

  lemma AllSpacePrefix(s: string, k: nat)
    requires k <= |s| && forall j :: 0 <= j < k ==> IsSpace(s[j])
    ensures AllSpace(s[..k])
  {
    forall j | 0 <= j < k ensures IsSpace(s[..k][j]) {
      assert s[..k][j] == s[j];
    }
  }

  lemma AllSpaceSuffix(s: string, k: nat)
    requires k <= |s| && forall j :: k <= j < |s| ==> IsSpace(s[j])
    ensures AllSpace(s[k..])
  {
    forall j | 0 <= j < |s| - k ensures IsSpace(s[k..][j]) {
      assert s[k..][j] == s[k + j];
    }
  }

  /** What strip keeps is the piece of s starting at offset i, and what it
      drops on either side of that piece is white space. */
  lemma StripKeepsInfix(s: string) returns (i: nat)
    ensures i + |Strip(s)| <= |s| && Strip(s) == s[i..i + |Strip(s)|]
    ensures AllSpace(s[..i]) && AllSpace(s[i + |Strip(s)|..])
  {
    var t := LStrip(s);
    var r := RStrip(t);
    i := |s| - |t|;
    LStripDropsSpace(s);
    RStripDropsSpace(t);
    AllSpacePrefix(s, i);
    AllSpaceSuffix(t, |r|);
    SliceOfSuffix(s, i, |r|);
  }

  /** The pieces of the suffix s[i..] are pieces of s. */
  lemma SliceOfSuffix(s: string, i: nat, k: nat)
    requires i + k <= |s|
    ensures s[i..][..k] == s[i..i + k] && s[i..][k..] == s[i + k..]
  {
  }

  /** A text that neither starts nor ends with white space is its own strip. */
  lemma StripUnpadded(t: string)
    requires t == [] || (!IsSpace(t[0]) && !IsSpace(t[|t| - 1]))
    ensures Strip(t) == t
  {
    assert LStrip(t) == t;
  }

  /** lstrip of nothing but white space leaves nothing. */
  lemma {:induction false} LStripAllSpace(s: string)
    requires AllSpace(s)
    ensures LStrip(s) == []
    decreases |s|
  {
    if s != [] {
      assert AllSpace(s[1..]) by {
        forall j | 0 <= j < |s| - 1 ensures IsSpace(s[1..][j]) { assert s[1..][j] == s[j + 1]; }
      }
      LStripAllSpace(s[1..]);
    }
  }

  /** lstrip takes off white space in front of a text that does not start
      with white space. */
  lemma {:induction false} LStripPadded(front: string, text: string)
    requires AllSpace(front) && (text == [] || !IsSpace(text[0]))
    ensures LStrip(front + text) == text
    decreases |front|
  {
    var s := front + text;
    if front != [] {
      assert s[0] == front[0];
      assert s[1..] == front[1..] + text;
      LStripPadded(front[1..], text);
    } else {
      assert s == text;
    }
  }

  /** rstrip takes off white space behind a text that does not end with
      white space. */
  lemma {:induction false} RStripPadded(text: string, back: string)
    requires AllSpace(back) && (text == [] || !IsSpace(text[|text| - 1]))
    ensures RStrip(text + back) == text
    decreases |back|
  {
    var s := text + back;
    if back != [] {
      assert s[|s| - 1] == back[|back| - 1];
      assert s[..|s| - 1] == text + back[..|back| - 1];
      RStripPadded(text, back[..|back| - 1]);
    } else {
      assert s == text;
    }
  }

  /** Strip undoes white-space padding on both sides of a text that neither
      starts nor ends with white space. */
  lemma StripPadded(front: string, text: string, back: string)
    requires AllSpace(front) && AllSpace(back)
    requires text == [] || (!IsSpace(text[0]) && !IsSpace(text[|text| - 1]))
    ensures Strip(front + text + back) == text
  {
    if text == [] {
      AllSpaceAppend(front, back);
      assert front + text + back == front + back;
      LStripAllSpace(front + back);
    } else {
      assert front + text + back == front + (text + back);
      LStripPadded(front, text + back);
      RStripPadded(text, back);
    }
  }

  /** s.replace(pattern, ''): every occurrence of pattern deleted, scanning from
      the left without overlap, whether or not s starts with it. */
  function RemoveAll(s: string, pattern: string): (r: string)
    requires pattern != []
    ensures |r| <= |s|
    decreases |s|
  {
    if s == [] then []
    else if pattern <= s then RemoveAll(s[|pattern|..], pattern)
    else [s[0]] + RemoveAll(s[1..], pattern)
  }

  /** A text that does not contain the first character of pattern has no
      occurrence to remove. */
  lemma {:induction false} RemoveAllAbsent(s: string, pattern: string)
    requires pattern != [] && pattern[0] !in s
    ensures RemoveAll(s, pattern) == s
  {
    if s != [] {
      assert !(pattern <= s) by { assert s[0] != pattern[0]; }
      assert pattern[0] !in s[1..] by {
        forall k | 0 <= k < |s| - 1 ensures s[1..][k] != pattern[0] { assert s[1..][k] == s[k + 1]; }
      }
      RemoveAllAbsent(s[1..], pattern);
    }
  }

  predicate IsDigit(c: char) {
    '0' <= c <= '9'
  }

  function DigitValue(c: char): (d: nat)
    requires IsDigit(c)
    ensures d < 10
  {
    c as int - '0' as int
  }

  function DigitChar(d: nat): (c: char)
    requires d < 10
    ensures IsDigit(c) && DigitValue(c) == d
  {
    ('0' as int + d) as char
  }

  /** The body of a base-10 literal as int() accepts it: digits, where a single
      underscore may stand between two digits. */
  predicate IsNumeral(t: string)
    decreases |t|
  {
    |t| > 0 && IsDigit(t[|t| - 1]) &&
    (|t| == 1 || IsNumeral(t[..|t| - 1]) ||
     (|t| >= 3 && t[|t| - 2] == '_' && IsNumeral(t[..|t| - 2])))
  }

  /** The value of the digits of t, read left to right, underscores skipped. */
  function NumeralValue(t: string): nat
    decreases |t|
  {
    if t == [] then 0
    else if IsDigit(t[|t| - 1]) then NumeralValue(t[..|t| - 1]) * 10 + DigitValue(t[|t| - 1])
    else NumeralValue(t[..|t| - 1])
  }

  /** The four characters str.isspace() counts as white space that int() does
      not skip: the file, group, record and unit separators U+001C..U+001F. */
  predicate IsSeparator(c: char) {
    0x1C <= c as int <= 0x1F
  }

  /** The white space int() skips around its numeral. */
  predicate IsIntSpace(c: char) {
    IsSpace(c) && !IsSeparator(c)
  }

  predicate HasSeparator(s: string) {
    exists i :: 0 <= i < |s| && IsSeparator(s[i])
  }

  predicate AllIntSpace(s: string) {
    forall i :: 0 <= i < |s| ==> IsIntSpace(s[i])
  }

  /** int(s): surrounding white space, then an optional sign, then a numeral;
      None where Python raises ValueError. A separator is neither skipped nor
      part of a numeral, so a text holding one anywhere is refused; on any
      other text, the white space int() skips is exactly what strip() takes
      off. */
  function ParseInt(s: string): Option<int> {
    if HasSeparator(s) then None
    else
    var t := Strip(s);
    if |t| > 0 && t[0] == '-' then
      (if IsNumeral(t[1..]) then Some(0 - NumeralValue(t[1..])) else None)
    else if |t| > 0 && t[0] == '+' then
      (if IsNumeral(t[1..]) then Some(NumeralValue(t[1..])) else None)
    else if IsNumeral(t) then Some(NumeralValue(t))
    else None
  }

  /** The decimal digits of n >= 0, most significant first. */
  function NatDigits(n: nat): (r: string)
    ensures |r| > 0 && forall i :: 0 <= i < |r| ==> IsDigit(r[i])
    decreases n
  {
    if n < 10 then [DigitChar(n)] else NatDigits(n / 10) + [DigitChar(n % 10)]
  }

  /** The canonical decimal text of n, as str(n) writes it: a minus sign for
      negative numbers, then the digits. */
  function Decimal(n: int): (r: string)
    ensures |r| > 0 && IsDigit(r[|r| - 1]) && (IsDigit(r[0]) || r[0] == '-')
    ensures forall i :: 0 < i < |r| ==> IsDigit(r[i])
  {
    if n < 0 then "-" + NatDigits(-n) else NatDigits(n)
  }

  lemma {:induction false} NatDigitsRoundTrip(n: nat)
    ensures IsNumeral(NatDigits(n)) && NumeralValue(NatDigits(n)) == n
    decreases n
  {
    var r := NatDigits(n);
    if n >= 10 {
      NatDigitsRoundTrip(n / 10);
      assert r[..|r| - 1] == NatDigits(n / 10);
    }
  }

  /** int() on a minus sign followed by a numeral. */
  lemma ParseIntMinus(r: string, d: string)
    requires |r| > 1 && r[0] == '-' && r[1..] == d && IsNumeral(d)
    ensures ParseInt(r) == Some(0 - NumeralValue(d))
  {
    assert !IsSpace(r[|r| - 1]) by { assert r[|r| - 1] == d[|d| - 1]; }
    StripUnpadded(r);
    NumeralChars(d);
    assert forall i :: 0 < i < |r| ==> r[i] == d[i - 1];
  }

  /** int() on a bare numeral. */
  lemma ParseIntPlain(r: string)
    requires IsNumeral(r) && IsDigit(r[0])
    ensures ParseInt(r) == Some(NumeralValue(r))
  {
    StripUnpadded(r);
    NumeralChars(r);
  }

  /** int(str(n)) == n for n < 0: the sign, then the digits of -n. */
  lemma ParseIntNegative(n: int)
    requires n < 0
    ensures ParseInt(Decimal(n)) == Some(n)
  {
    var d := NatDigits(-n);
    NatDigitsRoundTrip(-n);
    assert 0 - NumeralValue(d) == n;
    ParseIntMinus(Decimal(n), d);
  }

  /** int(str(n)) == n for n >= 0: the digits alone. */
  lemma ParseIntNonNegative(n: int)
    requires n >= 0
    ensures ParseInt(Decimal(n)) == Some(n)
  {
    NatDigitsRoundTrip(n);
    ParseIntPlain(Decimal(n));
  }

  /** int(str(n)) == n. */
  lemma ParseIntDecimal(n: int)
    ensures ParseInt(Decimal(n)) == Some(n)
  {
    if n < 0 { ParseIntNegative(n); } else { ParseIntNonNegative(n); }
  }

  lemma {:induction false} NumeralChars(t: string)
    requires IsNumeral(t)
    ensures IsDigit(t[0]) && forall i :: 0 <= i < |t| ==> IsDigit(t[i]) || t[i] == '_'
    decreases |t|
  {
    if |t| > 1 {
      var u := if IsNumeral(t[..|t| - 1]) then t[..|t| - 1] else t[..|t| - 2];
      NumeralChars(u);
      assert forall i :: 0 <= i < |u| ==> t[i] == u[i];
    }
  }

  /** Whatever int() accepts is, once stripped, an optional sign followed by
      digits and underscores, and starts with a digit after the sign. */
  lemma ParsedTextIsNumeral(s: string)
    requires ParseInt(s).Some?
    ensures forall i :: 0 <= i < |s| ==> !IsSeparator(s[i])
    ensures var t := Strip(s);
            IsNumeral(if |t| > 0 && (t[0] == '-' || t[0] == '+') then t[1..] else t)
    ensures var t := Strip(s);
            |t| > 0 &&
            (IsDigit(t[0]) || ((t[0] == '-' || t[0] == '+') && |t| > 1 && IsDigit(t[1]))) &&
            forall i :: 0 < i < |t| ==> IsDigit(t[i]) || t[i] == '_'
  {
    var t := Strip(s);
    if |t| > 0 && (t[0] == '-' || t[0] == '+') {
      NumeralChars(t[1..]);
      assert forall i :: 0 < i < |t| ==> t[i] == t[1..][i - 1];
    } else {
      NumeralChars(t);
    }
  }

  /** Strip takes off white space added on either side of a text, along
      with the text's own. */
  lemma StripSkipsPadding(front: string, t: string, back: string)
    requires AllSpace(front) && AllSpace(back)
    ensures Strip(front + t + back) == Strip(t)
  {
    var i := StripKeepsInfix(t);
    var r := Strip(t);
    var x, z := t[..i], t[i + |r|..];
    SplitThree(t, i, i + |r|);
    Regroup(front, x, r, z, back);
    AllSpaceAppend(front, x);
    AllSpaceAppend(z, back);
    StripPadded(front + x, r, z + back);
  }

  lemma SplitThree(t: string, i: nat, j: nat)
    requires i <= j <= |t|
    ensures t == t[..i] + t[i..j] + t[j..]
  {
  }

  lemma Regroup(front: string, x: string, y: string, z: string, back: string)
    ensures front + (x + y + z) + back == (front + x) + y + (z + back)
  {
  }

  /** Padding without separators adds no separator. */
  lemma SeparatorsOfPadded(front: string, t: string, back: string)
    requires AllIntSpace(front) && AllIntSpace(back)
    ensures HasSeparator(front + t + back) == HasSeparator(t)
  {
    var s := front + t + back;
    if HasSeparator(s) {
      var j :| 0 <= j < |s| && IsSeparator(s[j]);
      assert |front| <= j < |front| + |t| && t[j - |front|] == s[j];
    }
    if HasSeparator(t) {
      var j :| 0 <= j < |t| && IsSeparator(t[j]);
      assert s[|front| + j] == t[j];
    }
  }

  /** int() skips white space of its own kind on either side: padding the
      text with it never changes what int() makes of the text. */
  lemma ParseIntSkipsPadding(front: string, t: string, back: string)
    requires AllIntSpace(front) && AllIntSpace(back)
    ensures ParseInt(front + t + back) == ParseInt(t)
  {
    assert AllSpace(front) && AllSpace(back);
    StripSkipsPadding(front, t, back);
    SeparatorsOfPadded(front, t, back);
  }

  /** int() accepts every numeral, bare or after a sign, padded with its own
      white space, and returns the numeral's value with that sign. */
  lemma ParseIntNumeral(front: string, t: string, back: string)
    requires AllIntSpace(front) && AllIntSpace(back) && IsNumeral(t)
    ensures ParseInt(front + t + back) == Some(NumeralValue(t))
    ensures ParseInt(front + ("+" + t) + back) == Some(NumeralValue(t))
    ensures ParseInt(front + ("-" + t) + back) == Some(0 - NumeralValue(t))
  {
    NumeralChars(t);
    ParseIntSkipsPadding(front, t, back);
    ParseIntSkipsPadding(front, "+" + t, back);
    ParseIntSkipsPadding(front, "-" + t, back);
    ParseIntPlain(t);
    ParseIntMinus("-" + t, t);
    ParseIntPlus("+" + t, t);
  }

  /** int() on a plus sign followed by a numeral. */
  lemma ParseIntPlus(r: string, d: string)
    requires |r| > 1 && r[0] == '+' && r[1..] == d && IsNumeral(d)
    ensures ParseInt(r) == Some(NumeralValue(d))
  {
    assert !IsSpace(r[|r| - 1]) by { assert r[|r| - 1] == d[|d| - 1]; }
    StripUnpadded(r);
    NumeralChars(d);
    assert forall i :: 0 < i < |r| ==> r[i] == d[i - 1];
  }

  /** The converse of ParseIntNumeral: whatever int() accepts is a numeral,
      bare or after '+' or '-', padded with white space int() skips, and the
      value is the numeral's with that sign. */
  lemma AcceptedIsPaddedNumeral(s: string) returns (front: string, sign: string, n: string, back: string)
    requires ParseInt(s).Some?
    ensures AllIntSpace(front) && AllIntSpace(back) && IsNumeral(n)
    ensures sign == "" || sign == "+" || sign == "-"
    ensures s == front + (sign + n) + back
    ensures ParseInt(s) == Some(if sign == "-" then 0 - NumeralValue(n) else NumeralValue(n))
  {
    ParsedTextIsNumeral(s);
    var t := Strip(s);
    front, back := StripIntPadding(s);
    if t[0] == '-' || t[0] == '+' {
      sign, n := t[..1], t[1..];
    } else {
      sign, n := "", t;
    }
    assert t == sign + n;
  }

  /** On a text without separators, what strip() takes off either side is
      white space int() skips. */
  lemma StripIntPadding(s: string) returns (front: string, back: string)
    requires forall i :: 0 <= i < |s| ==> !IsSeparator(s[i])
    ensures AllIntSpace(front) && AllIntSpace(back)
    ensures s == front + Strip(s) + back
  {
    var i := StripKeepsInfix(s);
    var t := Strip(s);
    front, back := s[..i], s[i + |t|..];
    SplitThree(s, i, i + |t|);
    forall j | 0 <= j < |front| ensures IsIntSpace(front[j]) { assert front[j] == s[j]; }
    forall j | 0 <= j < |back| ensures IsIntSpace(back[j]) { assert back[j] == s[i + |t| + j]; }
  }

  /** What strip keeps are characters of the text. */
  lemma StripKeepsChars(s: string)
    ensures forall c :: c in Strip(s) ==> c in s
  {
    var i := StripKeepsInfix(s);
    forall c | c in Strip(s) ensures c in s {
      var j :| 0 <= j < |Strip(s)| && Strip(s)[j] == c;
      assert s[i + j] == c;
    }
  }

  /** strip keeps a text that starts with a non-space character starting
      with that character. */
  lemma StripKeepsHead(s: string)
    requires s != [] && !IsSpace(s[0])
    ensures Strip(s) != [] && Strip(s)[0] == s[0]
  {
    assert LStrip(s) == s;
    RStripDropsSpace(s);
  }

  /** replace(pattern, '') only deletes: every character it keeps is a
      character of the text. */
  lemma {:induction false} RemoveAllKeepsChars(s: string, pattern: string)
    requires pattern != []
    ensures forall c :: c in RemoveAll(s, pattern) ==> c in s
    decreases |s|
  {
    if s != [] {
      if pattern <= s {
        RemoveAllKeepsChars(s[|pattern|..], pattern);
        forall c | c in RemoveAll(s, pattern) ensures c in s {
          assert c in s[|pattern|..];
          var j :| 0 <= j < |s[|pattern|..]| && s[|pattern|..][j] == c;
          assert s[|pattern| + j] == c;
        }
      } else {
        RemoveAllKeepsChars(s[1..], pattern);
        forall c | c in RemoveAll(s, pattern) ensures c in s {
          if c != s[0] {
            assert c in RemoveAll(s[1..], pattern);
            var j :| 0 <= j < |s[1..]| && s[1..][j] == c;
            assert s[j + 1] == c;
          }
        }
      }
    }
  }

  /** int() refuses a text without a digit, whatever else it holds (the
      empty text and white space alone included). */
  lemma NoDigitNoNumber(word: string)
    requires forall i :: 0 <= i < |word| ==> !IsDigit(word[i])
    ensures ParseInt(word).None?
  {
    if ParseInt(word).Some? {
      ParsedTextIsNumeral(word);
      var _ := StripKeepsInfix(word);
    }
  }
}
