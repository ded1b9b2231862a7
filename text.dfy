/**
 * The string primitives the two demos rely on, as the .NET runtime defines
 * them: ASCII decoding and encoding of stream bytes, trimming white space,
 * upper-casing, splitting on one separator character and the decimal
 * rendering of a 64-bit integer by String.Format.
 */
module Text {

  /** An octet read from or written to a network stream. */
  newtype byte = x: int | 0 <= x < 256

  const QuestionMark: byte := 63

  predicate IsAscii(c: char) { c as int < 128 }

  predicate AllAscii(s: string) { forall i :: 0 <= i < |s| ==> IsAscii(s[i]) }

  // ---------------------------------------------------------------------------
  // Encoding.ASCII: bytes above 0x7F decode to '?', characters above U+007F
  // encode to the byte of '?'.
  // ---------------------------------------------------------------------------

  function DecodeByte(b: byte): char {
    if b < 128 then (b as int) as char else '?'
  }

  function EncodeChar(c: char): byte {
    if IsAscii(c) then (c as int) as byte else QuestionMark
  }

  /** Encoding.ASCII.GetString over the bytes of one read. */
  function Decode(bytes: seq<byte>): (s: string)
    ensures |s| == |bytes| && AllAscii(s)
  {
    seq(|bytes|, i requires 0 <= i < |bytes| => DecodeByte(bytes[i]))
  }

  /** Encoding.ASCII.GetBytes. */
  function Encode(s: string): (bytes: seq<byte>)
    ensures |bytes| == |s|
  {
    seq(|s|, i requires 0 <= i < |s| => EncodeChar(s[i]))
  }

  /** Decoding what was encoded gives the text back exactly when the text is ASCII. */
  lemma DecodeEncode(s: string)
    ensures Decode(Encode(s)) == s <==> AllAscii(s)
  {
    if AllAscii(s) {
      assert forall i :: 0 <= i < |s| ==> Decode(Encode(s))[i] == s[i];
    } else {
      var i :| 0 <= i < |s| && !IsAscii(s[i]);
      assert Decode(Encode(s))[i] == '?' != s[i];
    }
  }

  /** Encoding what was decoded gives the bytes back exactly when no byte is above 0x7F. */
  lemma EncodeDecode(bytes: seq<byte>)
    ensures Encode(Decode(bytes)) == bytes <==> forall i :: 0 <= i < |bytes| ==> bytes[i] < 128
  {
    if exists i :: 0 <= i < |bytes| && bytes[i] >= 128 {
      var i :| 0 <= i < |bytes| && bytes[i] >= 128;
      assert Encode(Decode(bytes))[i] == QuestionMark != bytes[i];
    } else {
      assert forall i :: 0 <= i < |bytes| ==> Encode(Decode(bytes))[i] == bytes[i];
    }
  }

  // ---------------------------------------------------------------------------
  // String.Trim
  // ---------------------------------------------------------------------------

  /** Char.IsWhiteSpace: the Unicode separators plus U+0009..U+000D, U+0085 and U+00A0. */
  predicate IsWhiteSpace(c: char) {
    ('\t' <= c <= '\r') || c == ' ' || c == '\U{0085}' || c == '\U{00A0}' || c == '\U{1680}'
    || ('\U{2000}' <= c <= '\U{200A}') || c == '\U{2028}' || c == '\U{2029}'
    || c == '\U{202F}' || c == '\U{205F}' || c == '\U{3000}'
  }

  /** Neither end of `s` is white space. */
  predicate IsTrimmed(s: string) {
    s != [] ==> !IsWhiteSpace(s[0]) && !IsWhiteSpace(s[|s| - 1])
  }

  /** Where the text starts: the index of the first character from `lo` on that is not white space. */
  function TextStart(s: string, lo: nat): (i: nat)
    requires lo <= |s|
    ensures lo <= i <= |s|
    ensures forall k :: lo <= k < i ==> IsWhiteSpace(s[k])
    ensures i < |s| ==> !IsWhiteSpace(s[i])
    decreases |s| - lo
  {
    if lo < |s| && IsWhiteSpace(s[lo]) then TextStart(s, lo + 1) else lo
  }

  /** Where the text ends: one past the last character before `hi` and from `lo` on that is not white space. */
  function TextEnd(s: string, lo: nat, hi: nat): (j: nat)
    requires lo <= hi <= |s|
    ensures lo <= j <= hi
    ensures forall k :: j <= k < hi ==> IsWhiteSpace(s[k])
    ensures j > lo ==> !IsWhiteSpace(s[j - 1])
    decreases hi
  {
    if hi > lo && IsWhiteSpace(s[hi - 1]) then TextEnd(s, lo, hi - 1) else hi
  }

  /** String.Trim: drops the white space at both ends. */
  function Trim(s: string): (r: string)
    ensures IsTrimmed(r) && |r| <= |s|
  {
    var i := TextStart(s, 0);
    s[i..TextEnd(s, i, |s|)]
  }

  /**
   * Trim is the unique infix of `s` that leaves only white space outside it
   * and has no white space at either end.
   */
  lemma TrimIsTheWhiteSpaceFreeCore(s: string, i: nat, j: nat)
    requires i <= j <= |s|
    requires forall k :: 0 <= k < i ==> IsWhiteSpace(s[k])
    requires forall k :: j <= k < |s| ==> IsWhiteSpace(s[k])
    requires IsTrimmed(s[i..j])
    ensures Trim(s) == s[i..j]
  {
    var start := TextStart(s, 0);
    if i < j {
      assert s[i] == s[i..j][0] && s[j - 1] == s[i..j][j - i - 1];
      assert start == i;
      assert TextEnd(s, i, |s|) == j;
    } else {
      // Everything is white space, so nothing is left.
      assert start == |s|;
    }
  }

  /** Trimming is idempotent. */
  lemma TrimIdempotent(s: string)
    ensures Trim(Trim(s)) == Trim(s)
  {
    var r := Trim(s);
    TrimIsTheWhiteSpaceFreeCore(r, 0, |r|);
    assert r[0..|r|] == r;
  }

  // ---------------------------------------------------------------------------
  // String.ToUpper on ASCII text
  // ---------------------------------------------------------------------------

  predicate IsUpperLetter(c: char) { 'A' <= c <= 'Z' }

  function UpperChar(c: char): char {
    if 'a' <= c <= 'z' then (c as int - 32) as char else c
  }

  function LowerChar(c: char): char
    requires IsUpperLetter(c)
  {
    (c as int + 32) as char
  }

  function Upper(s: string): (u: string)
    ensures |u| == |s|
  {
    seq(|s|, i requires 0 <= i < |s| => UpperChar(s[i]))
  }

  /** `w` spells the all-capitals `keyword` letter by letter, each letter in either case. */
  predicate SpellsIgnoringCase(w: string, keyword: string) {
    |w| == |keyword| &&
    forall i :: 0 <= i < |w| ==>
      IsUpperLetter(keyword[i]) && (w[i] == keyword[i] || w[i] == LowerChar(keyword[i]))
  }

  /** A word upper-cases to an all-capitals keyword exactly when it spells the keyword in either case. */
  lemma UpperMatchesIgnoringCase(w: string, keyword: string)
    requires forall i :: 0 <= i < |keyword| ==> IsUpperLetter(keyword[i])
    ensures Upper(w) == keyword <==> SpellsIgnoringCase(w, keyword)
  {
    if Upper(w) == keyword {
      forall i | 0 <= i < |w|
        ensures w[i] == keyword[i] || w[i] == LowerChar(keyword[i])
      {
        assert UpperChar(w[i]) == keyword[i];
      }
    }
    if SpellsIgnoringCase(w, keyword) {
      assert forall i :: 0 <= i < |w| ==> Upper(w)[i] == keyword[i];
    }
  }

  // ---------------------------------------------------------------------------
  // String.Split(char) and its inverse String.Join
  // ---------------------------------------------------------------------------

  /**
   * String.Split on one separator character: every separator ends a word, so
   * adjacent separators give empty words and the result is never empty.
   */
  function Split(s: string, sep: char): (words: seq<string>)
    ensures |words| >= 1
    ensures forall i :: 0 <= i < |words| ==> sep !in words[i]
    ensures |words| == 1 <==> sep !in s
    ensures sep !in s ==> words == [s]
    ensures |words[0]| <= |s| && forall k :: 0 <= k < |words[0]| ==> words[0][k] == s[k]
    decreases |s|
  {
    if s == [] then [""]
    else
      var rest := Split(s[1..], sep);
      if s[0] == sep then [""] + rest
      else
        assert [s[0]] + s[1..] == s;
        [[s[0]] + rest[0]] + rest[1..]
  }

  /** String.Join: the words with one separator between neighbours. */
  function Join(words: seq<string>, sep: char): string
    requires |words| >= 1
    decreases |words|
  {
    if |words| == 1 then words[0] else words[0] + [sep] + Join(words[1..], sep)
  }

  /** Joining after an empty first word puts a separator in front. */
  lemma JoinEmptyFirst(rest: seq<string>, sep: char)
    requires |rest| >= 1
    ensures Join([""] + rest, sep) == [sep] + Join(rest, sep)
  {
    assert ([""] + rest)[1..] == rest;
  }

  /** Joining after extending the first word by a character in front extends the join by it. */
  lemma JoinExtendFirst(c: char, rest: seq<string>, sep: char)
    requires |rest| >= 1
    ensures Join([[c] + rest[0]] + rest[1..], sep) == [c] + Join(rest, sep)
  {
    var words := [[c] + rest[0]] + rest[1..];
    if |rest| > 1 {
      var tail := [sep] + Join(rest[1..], sep);
      assert words[1..] == rest[1..];
      assert ([c] + rest[0]) + tail == [c] + (rest[0] + tail);
    }
  }

  /** Joining the words of a split gives back the text. */
  lemma {:induction false} JoinSplit(s: string, sep: char)
    ensures Join(Split(s, sep), sep) == s
    decreases |s|
  {
    if s != [] {
      var rest := Split(s[1..], sep);
      JoinSplit(s[1..], sep);
      if s[0] == sep {
        JoinEmptyFirst(rest, sep);
      } else {
        JoinExtendFirst(s[0], rest, sep);
      }
      assert [s[0]] + s[1..] == s;
    }
  }

  /** Splitting a word that holds no separator, followed by a separator and more text. */
  lemma {:induction false} SplitAtFirstSeparator(w: string, sep: char, t: string)
    requires sep !in w
    ensures Split(w + [sep] + t, sep) == [w] + Split(t, sep)
    decreases |w|
  {
    var s := w + [sep] + t;
    if w == [] {
      assert s == [sep] + t && s[1..] == t;
    } else {
      assert s[0] == w[0] && s[1..] == w[1..] + [sep] + t;
      SplitAtFirstSeparator(w[1..], sep, t);
      var rest := Split(s[1..], sep);
      assert rest[0] == w[1..] && rest[1..] == Split(t, sep);
      assert [w[0]] + w[1..] == w;
    }
  }

  /** Splitting joined words that hold no separator gives back the words. */
  lemma {:induction false} SplitJoin(words: seq<string>, sep: char)
    requires |words| >= 1
    requires forall i :: 0 <= i < |words| ==> sep !in words[i]
    ensures Split(Join(words, sep), sep) == words
    decreases |words|
  {
    if |words| == 1 {
      assert sep !in words[0];
    } else {
      SplitJoin(words[1..], sep);
      SplitAtFirstSeparator(words[0], sep, Join(words[1..], sep));
      assert [words[0]] + words[1..] == words;
    }
  }

  /** Joined words have the same length when only the first word changed, keeping its length. */
  lemma JoinSameShape(w1: seq<string>, w2: seq<string>, sep: char)
    requires |w1| == |w2| >= 1 && |w1[0]| == |w2[0]| && w1[1..] == w2[1..]
    ensures |Join(w1, sep)| == |Join(w2, sep)|
  {
  }

  // ---------------------------------------------------------------------------
  // Int64.ToString as String.Format renders it
  // ---------------------------------------------------------------------------

  predicate IsDigit(c: char) { '0' <= c <= '9' }

  function DigitChar(d: nat): char
    requires d < 10
  {
    ('0' as int + d) as char
  }

  /** The decimal digits of `n`, most significant first, without leading zeros. */
  function NatDigits(n: nat): (s: string)
    ensures |s| >= 1 && forall i :: 0 <= i < |s| ==> IsDigit(s[i])
    ensures s[0] == '0' ==> n == 0 && s == "0"
    decreases n
  {
    if n < 10 then [DigitChar(n)] else NatDigits(n / 10) + [DigitChar(n % 10)]
  }

  /** Decimal rendering of an integer: a leading '-' for negative values. */
  function FormatInt(n: int): string {
    if n < 0 then "-" + NatDigits(-n) else NatDigits(n)
  }

  /** A non-empty string of digits with no leading zero, unless it is "0" itself. */
  predicate IsCanonicalDigits(d: string) {
    |d| >= 1 && (forall i :: 0 <= i < |d| ==> IsDigit(d[i])) && (d[0] == '0' ==> d == "0")
  }

  /** How .NET renders an integer in decimal: canonical digits, with a '-' before any but zero. */
  predicate IsCanonicalNumeral(s: string) {
    if s != [] && s[0] == '-' then IsCanonicalDigits(s[1..]) && s[1..] != "0"
    else IsCanonicalDigits(s)
  }

  /** The value a string of decimal digits denotes. */
  function DigitsValue(s: string): int
    decreases |s|
  {
    if s == [] then 0 else DigitsValue(s[..|s| - 1]) * 10 + (s[|s| - 1] as int - '0' as int)
  }

  /** The value a decimal numeral with an optional leading '-' denotes. */
  function Value(s: string): int {
    if s != [] && s[0] == '-' then -DigitsValue(s[1..]) else DigitsValue(s)
  }

  lemma {:induction false} NatDigitsValue(n: nat)
    ensures DigitsValue(NatDigits(n)) == n
    decreases n
  {
    if n >= 10 {
      NatDigitsValue(n / 10);
      var s := NatDigits(n / 10) + [DigitChar(n % 10)];
      assert s[..|s| - 1] == NatDigits(n / 10);
    }
  }

  /** The rendering denotes the integer it renders, so distinct values render differently. */
  lemma ValueOfFormatInt(n: int)
    ensures Value(FormatInt(n)) == n
  {
    if n < 0 {
      NatDigitsValue(-n);
      assert ("-" + NatDigits(-n))[1..] == NatDigits(-n);
    } else {
      NatDigitsValue(n);
    }
  }

  /** The rendering has the canonical form: no leading zero and no negative zero. */
  lemma FormatIntIsCanonical(n: int)
    ensures IsCanonicalNumeral(FormatInt(n))
  {
    if n < 0 {
      var s := FormatInt(n);
      assert s[1..] == NatDigits(-n);
    }
  }

  /** Canonical digits not starting with zero denote a positive number. */
  lemma {:induction false} LeadingDigitPositive(d: string)
    requires IsCanonicalDigits(d) && d[0] != '0'
    ensures DigitsValue(d) >= 1
    decreases |d|
  {
    if |d| > 1 {
      var front := d[..|d| - 1];
      assert front[0] == d[0];
      LeadingDigitPositive(front);
    }
  }

  /** Rendering the value of canonical digits gives back the digits. */
  lemma {:induction false} NatDigitsOfValue(d: string)
    requires IsCanonicalDigits(d)
    ensures DigitsValue(d) >= 0 && NatDigits(DigitsValue(d)) == d
    decreases |d|
  {
    var last := d[|d| - 1] as int - '0' as int;
    var front := d[..|d| - 1];
    if |d| == 1 {
      assert DigitsValue(front) == 0;
      assert d == [DigitChar(last)];
    } else {
      assert front[0] == d[0] && d[0] != '0';
      NatDigitsOfValue(front);
      LeadingDigitPositive(front);
      var v := DigitsValue(front);
      assert DigitsValue(d) == v * 10 + last;
      assert (v * 10 + last) / 10 == v && (v * 10 + last) % 10 == last;
      assert d == front + [DigitChar(last)];
    }
  }

  /**
   * Every canonical numeral is the rendering of its value, so with
   * ValueOfFormatInt the rendering and the value determine each other.
   */
  lemma FormatIntOfValue(s: string)
    requires IsCanonicalNumeral(s)
    ensures FormatInt(Value(s)) == s
  {
    if s != [] && s[0] == '-' {
      var d := s[1..];
      NatDigitsOfValue(d);
      assert d[0] != '0';
      LeadingDigitPositive(d);
      assert s == "-" + d;
    } else {
      NatDigitsOfValue(s);
    }
  }
}
