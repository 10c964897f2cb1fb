/** The machine word: an 8-character decimal string, a sign digit ('1' for negative)
    followed by a 7-digit magnitude, and its conversion to and from integers.
    A Word holds the characters of the C string up to its terminator, so its
    length is what strlen reports. */
module Words {

  type Word = seq<char>

  const WORD_LENGTH := 8
  const MAX_MAGNITUDE := 9999999
  const OVERFLOW_WORD: Word := "OVERFLOW"
  const ZERO_WORD: Word := "00000000"

  predicate IsDigit(c: char) {
    '0' <= c <= '9'
  }

  predicate AllDigits(s: seq<char>) {
    forall i :: 0 <= i < |s| ==> IsDigit(s[i])
  }

  function DigitValue(c: char): nat
    requires IsDigit(c)
  {
    c as int - '0' as int
  }

  function DigitChar(d: nat): (c: char)
    requires d < 10
    ensures IsDigit(c) && DigitValue(c) == d
  {
    ('0' as int + d) as char
  }

  function Pow10(k: nat): (r: nat)
    ensures r >= 1
  {
    if k == 0 then 1 else 10 * Pow10(k - 1)
  }

  /** The value of a string of digits read from left to right, as atoi accumulates it. */
  function DigitsValue(s: seq<char>): (r: nat)
    requires AllDigits(s)
    ensures r < Pow10(|s|)
  {
    if s == [] then 0 else DigitsValue(s[..|s| - 1]) * 10 + DigitValue(s[|s| - 1])
  }

  /** The longest prefix of `s` made of digits. */
  function LeadingDigits(s: seq<char>): (r: seq<char>)
    ensures AllDigits(r) && r <= s
    ensures |r| < |s| ==> !IsDigit(s[|r|])
  {
    if s != [] && IsDigit(s[0]) then [s[0]] + LeadingDigits(s[1..]) else []
  }

  /** The characters C's isspace accepts in the default locale. */
  predicate IsSpace(c: char) {
    c == ' ' || c == '\t' || c == '\n' || c == '\U{B}' || c == '\U{C}' || c == '\r'
  }

  function SkipSpaces(s: seq<char>): (r: seq<char>)
    ensures |r| <= |s| && r == s[|s| - |r|..]
    ensures r == [] || !IsSpace(r[0])
  {
    if s != [] && IsSpace(s[0]) then SkipSpaces(s[1..]) else s
  }

  /** C's atoi: leading white space, an optional sign, then the longest run of digits;
      0 when there are no digits. (The int overflow of very long digit runs, undefined
      in C, is not modelled.) */
  function Atoi(s: seq<char>): int {
    var t := SkipSpaces(s);
    if t != [] && t[0] == '-' then -(DigitsValue(LeadingDigits(t[1..])) as int)
    else if t != [] && t[0] == '+' then DigitsValue(LeadingDigits(t[1..]))
    else DigitsValue(LeadingDigits(t))
  }

  lemma Pow10Monotone(j: nat, k: nat)
    requires j <= k
    ensures Pow10(j) <= Pow10(k)
  {
    if j < k {
      Pow10Monotone(j, k - 1);
    }
  }

  /** atoi of an n-character string has fewer than n digits' worth of magnitude. */
  lemma AtoiBound(s: seq<char>)
    ensures -(Pow10(|s|) as int) < Atoi(s) < Pow10(|s|)
  {
    var t := SkipSpaces(s);
    if t != [] && (t[0] == '-' || t[0] == '+') {
      Pow10Monotone(|LeadingDigits(t[1..])|, |s|);
    } else {
      Pow10Monotone(|LeadingDigits(t)|, |s|);
    }
  }

  lemma LeadingDigitsOfDigits(s: seq<char>)
    requires AllDigits(s)
    ensures LeadingDigits(s) == s
  {
    if s != [] {
      LeadingDigitsOfDigits(s[1..]);
    }
  }

  lemma NoSpacesBeforeDigits(s: seq<char>)
    requires AllDigits(s)
    ensures SkipSpaces(s) == s
  {
    assert s != [] ==> !IsSpace(s[0]);
  }

  /** On a string of digits atoi is the plain decimal value. */
  lemma AtoiOfDigits(s: seq<char>)
    requires AllDigits(s)
    ensures Atoi(s) == DigitsValue(s)
  {
    LeadingDigitsOfDigits(s);
    NoSpacesBeforeDigits(s);
    assert s != [] ==> s[0] != '-' && s[0] != '+';
  }

  /** atoi stops at the first character that is not a digit. */
  lemma {:induction false} LeadingDigitsStop(d: seq<char>, c: char, rest: seq<char>)
    requires AllDigits(d) && !IsDigit(c)
    ensures LeadingDigits(d + [c] + rest) == d
  {
    if d != [] {
      LeadingDigitsStop(d[1..], c, rest);
      assert (d + [c] + rest)[1..] == d[1..] + [c] + rest;
    }
  }

  /** atoi of a non-empty run of digits followed by anything that starts with a non-digit. */
  lemma AtoiOfDigitsThen(d: seq<char>, c: char, rest: seq<char>)
    requires d != [] && AllDigits(d) && !IsDigit(c)
    ensures Atoi(d + [c] + rest) == DigitsValue(d)
  {
    LeadingDigitsStop(d, c, rest);
    assert (d + [c] + rest)[0] == d[0];
  }

  /** word_to_int: 0 for a word that is not 8 characters long; otherwise atoi of the
      7 magnitude characters, negated when the sign character is '1'. */
  function WordToInt(w: Word): (r: int)
    ensures |w| != WORD_LENGTH ==> r == 0
    ensures -MAX_MAGNITUDE <= r <= MAX_MAGNITUDE
  {
    if |w| != WORD_LENGTH then 0
    else
      AtoiBound(w[1..]);
      assert Pow10(7) == MAX_MAGNITUDE + 1;
      var magnitude := Atoi(w[1..]);
      if w[0] == '1' then -magnitude else magnitude
  }

  /** The last k decimal digits of m, zero padded (sprintf "%0kd" when m < 10^k). */
  function ZeroPad(m: nat, k: nat): (s: seq<char>)
    ensures |s| == k && AllDigits(s)
  {
    if k == 0 then [] else ZeroPad(m / 10, k - 1) + [DigitChar(m % 10)]
  }

  /** int_to_word: the sign digit and the 7-digit zero-padded magnitude, or the
      "OVERFLOW" sentinel when the magnitude needs more than 7 digits. */
  function IntToWord(v: int): (w: Word)
    ensures |w| == WORD_LENGTH
  {
    var magnitude := if v < 0 then -v else v;
    if magnitude > MAX_MAGNITUDE then OVERFLOW_WORD
    else [if v < 0 then '1' else '0'] + ZeroPad(magnitude, 7)
  }

  lemma {:induction false} ZeroPadZero(k: nat)
    ensures ZeroPad(0, k) == seq(k, _ => '0')
  {
    if k > 0 {
      ZeroPadZero(k - 1);
      assert seq(k - 1, _ => '0') + ['0'] == seq(k, _ => '0');
    }
  }

  /** Zero is written as the all-zero word, which reads back as zero. */
  lemma ZeroWordIsZero()
    ensures IntToWord(0) == ZERO_WORD && WordToInt(ZERO_WORD) == 0
  {
    ZeroPadZero(7);
    assert ['0'] + seq(7, _ => '0') == ZERO_WORD;
    RoundTrip(0);
  }

  lemma {:induction false} ZeroPadValue(m: nat, k: nat)
    requires m < Pow10(k)
    ensures DigitsValue(ZeroPad(m, k)) == m
  {
    if k > 0 {
      var q, d := m / 10, m % 10;
      assert q < Pow10(k - 1);
      ZeroPadValue(q, k - 1);
      var s := ZeroPad(m, k);
      assert s == ZeroPad(q, k - 1) + [DigitChar(d)];
      assert s[..|s| - 1] == ZeroPad(q, k - 1);
      assert DigitsValue(s) == q * 10 + d;
    }
  }

  lemma DivMod10(a: nat, d: nat)
    requires d < 10
    ensures (a * 10 + d) / 10 == a && (a * 10 + d) % 10 == d
  {
  }

  lemma {:induction false} ZeroPadOfDigits(s: seq<char>)
    requires AllDigits(s)
    ensures ZeroPad(DigitsValue(s), |s|) == s
  {
    if s != [] {
      var init, last := s[..|s| - 1], s[|s| - 1];
      var v := DigitsValue(s);
      ZeroPadOfDigits(init);
      assert v == DigitsValue(init) * 10 + DigitValue(last);
      DivMod10(DigitsValue(init), DigitValue(last));
      assert ZeroPad(v, |s|) == ZeroPad(v / 10, |init|) + [DigitChar(v % 10)];
      assert DigitChar(DigitValue(last)) == last;
      assert s == init + [last];
    }
  }

  /** An in-range value becomes exactly 8 characters: the sign digit, then 7 digits
      whose decimal value is the magnitude. */
  lemma IntToWordInRange(v: int)
    requires -MAX_MAGNITUDE <= v <= MAX_MAGNITUDE
    ensures IntToWord(v)[0] == (if v < 0 then '1' else '0')
    ensures AllDigits(IntToWord(v)[1..])
    ensures DigitsValue(IntToWord(v)[1..]) == (if v < 0 then -v else v)
  {
    var magnitude := if v < 0 then -v else v;
    assert Pow10(7) == MAX_MAGNITUDE + 1;
    ZeroPadValue(magnitude, 7);
    assert IntToWord(v)[1..] == ZeroPad(magnitude, 7);
  }

  /** A value whose magnitude needs more than 7 digits becomes "OVERFLOW", which reads back as 0. */
  lemma IntToWordOverflow(v: int)
    requires v < -MAX_MAGNITUDE || v > MAX_MAGNITUDE
    ensures IntToWord(v) == OVERFLOW_WORD
    ensures WordToInt(OVERFLOW_WORD) == 0
  {
    assert OVERFLOW_WORD[1..] == "VERFLOW";
    assert SkipSpaces("VERFLOW") == "VERFLOW";
    assert LeadingDigits("VERFLOW") == [];
  }

  /** decode(encode(v)) == v on the whole 7-digit range. */
  lemma RoundTrip(v: int)
    requires -MAX_MAGNITUDE <= v <= MAX_MAGNITUDE
    ensures WordToInt(IntToWord(v)) == v
  {
    IntToWordInRange(v);
    AtoiOfDigits(IntToWord(v)[1..]);
  }

  /** The words int_to_word produces for in-range values: sign '0' or '1', seven digits,
      and no negative zero. */
  predicate Canonical(w: Word) {
    |w| == WORD_LENGTH && (w[0] == '0' || w[0] == '1') && AllDigits(w[1..]) && w != "10000000"
  }

  /** word_to_int of a word whose magnitude characters are all digits. */
  lemma WordToIntOfDigits(w: Word)
    requires |w| == WORD_LENGTH && AllDigits(w[1..])
    ensures WordToInt(w) == (if w[0] == '1' then -(DigitsValue(w[1..]) as int) else DigitsValue(w[1..]))
  {
    AtoiOfDigits(w[1..]);
  }

  lemma NoNegativeZero(w: Word)
    requires Canonical(w)
    ensures w[0] == '1' ==> DigitsValue(w[1..]) != 0
  {
    ZeroPadOfDigits(w[1..]);
    assert ZeroPad(0, 7) == "0000000";
    assert w == [w[0]] + w[1..];
  }

  /** encode(decode(w)) == w for every canonical word. */
  lemma WordRoundTrip(w: Word)
    requires Canonical(w)
    ensures IntToWord(WordToInt(w)) == w
  {
    var digits := w[1..];
    var m := DigitsValue(digits);
    WordToIntOfDigits(w);
    NoNegativeZero(w);
    ZeroPadOfDigits(digits);
    assert m <= MAX_MAGNITUDE by {
      assert Pow10(7) == MAX_MAGNITUDE + 1;
    }
    assert w == [w[0]] + digits;
    SignedEncoding(w[0], m);
  }

  /** A sign digit and an in-range magnitude (nonzero under sign '1') encode as that sign
      followed by the zero-padded magnitude. */
  lemma SignedEncoding(sign: char, m: nat)
    requires sign == '0' || sign == '1'
    requires m <= MAX_MAGNITUDE && (sign == '1' ==> m != 0)
    ensures IntToWord(if sign == '1' then -(m as int) else m as int) == [sign] + ZeroPad(m, 7)
  {
  }

  /** Every in-range value is encoded as a canonical word. */
  lemma IntToWordCanonical(v: int)
    requires -MAX_MAGNITUDE <= v <= MAX_MAGNITUDE
    ensures Canonical(IntToWord(v))
  {
    IntToWordInRange(v);
    assert ZeroPad(0, 7) == "0000000";
    ZeroPadValue(0, 7);
  }
}
