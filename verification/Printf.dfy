/**
 Number formatting: digits are written into a buffer, then leading zeroes and
 separators are removed by shifting the rest down in place.  Reading the text
 back gives the number that was printed.
 */
module Printf {
  import opened Machine

  const DIGITS := "0123456789ABCDEF"

  type Digit = d: nat | d < 16

  function Digit2Char(d: Digit): (c: char)
    ensures CharValue(c) == d
  {
    DIGITS[d]
  }

  // The digit a character stands for; a separator stands for none.
  function CharValue(c: char): nat {
    if '0' <= c <= '9' then c as int - '0' as int
    else if 'A' <= c <= 'F' then c as int - 'A' as int + 10
    else 0
  }

  predicate IsSeparator(c: char) { c == ',' || c == '.' }

  // ---------- reading back ----------

  // Reading a text from the left when `acc` has been read so far; separators
  // are passed over.
  function ReadFrom(acc: nat, s: seq<char>, sep: char, base: nat): nat
    decreases |s|
  {
    if s == [] then acc
    else ReadFrom(if s[0] == sep then acc else acc * base + CharValue(s[0]), s[1..], sep, base)
  }

  // The number a text shows in a base.
  function Read(s: seq<char>, sep: char, base: nat): nat {
    ReadFrom(0, s, sep, base)
  }

  function NumberFrom(acc: nat, digits: seq<Digit>, base: nat): nat
    decreases |digits|
  {
    if digits == [] then acc else NumberFrom(acc * base + digits[0], digits[1..], base)
  }

  // The number a list of digits stands for, most significant first.
  function Number(digits: seq<Digit>, base: nat): nat {
    NumberFrom(0, digits, base)
  }

  predicate Skipped(c: char, sep: char) { c == '0' || c == sep }

  // How many leading zeroes and separators a text has.
  function Leading(s: seq<char>, sep: char): (n: nat)
    ensures n <= |s|
    ensures forall i | 0 <= i < n :: Skipped(s[i], sep)
    ensures n < |s| ==> !Skipped(s[n], sep)
  {
    if s == [] || !Skipped(s[0], sep) then 0 else 1 + Leading(s[1..], sep)
  }

  // A text without leading zeroes and separators; one with nothing else is
  // cut to the minimum width, ending in a zero.
  function Trim(s: seq<char>, sep: char, minWidth: nat): seq<char>
    requires 0 < minWidth <= |s|
  {
    var n := Leading(s, sep);
    if n == |s| then s[..minWidth - 1] + ['0'] else s[n..]
  }

  lemma {:induction false} SkippedReadsZero(s: seq<char>, sep: char, base: nat)
    requires forall i | 0 <= i < |s| :: Skipped(s[i], sep)
    ensures Read(s, sep, base) == 0
  {
    if s != [] {
      SkippedReadsZero(s[1..], sep, base);
    }
  }

  lemma {:induction false} DropLeading(s: seq<char>, sep: char, base: nat)
    ensures Read(s[Leading(s, sep)..], sep, base) == Read(s, sep, base)
  {
    if s != [] && Skipped(s[0], sep) {
      DropLeading(s[1..], sep, base);
      assert s[1..][Leading(s[1..], sep)..] == s[Leading(s, sep)..];
    }
  }

  // A text that does not start with a zero or a separator.
  predicate Significant(s: seq<char>, sep: char) {
    s != [] && s[0] != '0' && s[0] != sep
  }

  // Trimming keeps the number, and what is left starts with a significant
  // digit unless the number is zero.
  lemma TrimReads(s: seq<char>, sep: char, minWidth: nat, base: nat)
    requires 0 < minWidth <= |s|
    ensures Read(Trim(s, sep, minWidth), sep, base) == Read(s, sep, base)
    ensures Read(s, sep, base) != 0 ==> Significant(Trim(s, sep, minWidth), sep)
  {
    DropLeading(s, sep, base);
    if Leading(s, sep) == |s| {
      SkippedReadsZero(s[..minWidth - 1] + ['0'], sep, base);
      SkippedReadsZero(s, sep, base);
    }
  }

  // ---------- digits with separators ----------

  // Digits as characters; a set bit in `commas` puts a separator after the
  // corresponding digit.
  function Render(digits: seq<Digit>, commas: nat, sep: char): (s: seq<char>)
    ensures |s| >= |digits|
    decreases |digits|
  {
    if digits == [] then []
    else
      var rest := Render(digits[1..], commas / 2, sep);
      [Digit2Char(digits[0])] + if commas % 2 == 1 then [sep] + rest else rest
  }

  // Whatever the separators, the text of the digits shows their number.
  lemma {:induction false} RenderReads(acc: nat, digits: seq<Digit>, commas: nat, sep: char, base: nat)
    requires IsSeparator(sep)
    ensures ReadFrom(acc, Render(digits, commas, sep), sep, base) == NumberFrom(acc, digits, base)
    decreases |digits|
  {
    if digits != [] {
      var c, rest := Digit2Char(digits[0]), Render(digits[1..], commas / 2, sep);
      RenderReads(acc * base + digits[0], digits[1..], commas / 2, sep, base);
      var tail := if commas % 2 == 1 then [sep] + rest else rest;
      assert ([c] + tail)[1..] == tail;
      assert ([sep] + rest)[1..] == rest;
    }
  }

  // ---------- the formats ----------

  function Nibbles(bytes: seq<U8>): seq<Digit> {
    if bytes == [] then [] else [bytes[0] / 16, bytes[0] % 16] + Nibbles(bytes[1..])
  }

  // Where separators go in a score, by its width.
  function Commas(width: nat): nat {
    if width == 8 then 0x12 else if width == 10 then 0x49 else 0
  }

  // %b with the width of the score.
  function BcdText(bytes: seq<U8>, sep: char): seq<char> {
    Rendered(bytes, Commas(2 * |bytes|), sep)
  }

  // %d of a byte: the hundreds digit only if there is one.
  function DecimalDigits(b: U8): seq<Digit> {
    if b >= 200 then [2, (b - 200) / 10, (b - 200) % 10]
    else if b >= 100 then [1, (b - 100) / 10, (b - 100) % 10]
    else [b / 10, b % 10]
  }

  // %ld of a 16-bit word.
  function LongDigits(w: U16): seq<Digit> {
    if w == 0 then [0]
    else [w / 10000, w % 10000 / 1000, w % 1000 / 100, w % 100 / 10, w % 10]
  }

  lemma {:induction false} NibblesLength(bytes: seq<U8>)
    ensures |Nibbles(bytes)| == 2 * |bytes|
  {
    if bytes != [] { NibblesLength(bytes[1..]); }
  }

  // Printing any digits and reading them back gives their number.
  lemma PrintReads(digits: seq<Digit>, commas: nat, sep: char, minWidth: nat, base: nat)
    requires IsSeparator(sep) && 0 < minWidth <= |digits|
    ensures Read(Trim(Render(digits, commas, sep), sep, minWidth), sep, base) == Number(digits, base)
    ensures Number(digits, base) != 0 ==> Significant(Trim(Render(digits, commas, sep), sep, minWidth), sep)
  {
    RenderReads(0, digits, commas, sep, base);
    TrimReads(Render(digits, commas, sep), sep, minWidth, base);
  }

  // Zeroes and separators only: the text keeps its minimum width and ends in a zero.
  lemma TrimZeroes(s: seq<char>, sep: char, minWidth: nat)
    requires 0 < minWidth <= |s| && forall i | 0 <= i < |s| :: s[i] == '0' || s[i] == sep
    ensures var r := Trim(s, sep, minWidth); |r| == minWidth && r[..minWidth - 1] == s[..minWidth - 1] && r[minWidth - 1] == '0'
  {
  }

  lemma {:induction false} ZeroesRender(digits: seq<Digit>, commas: nat, sep: char)
    requires forall i | 0 <= i < |digits| :: digits[i] == 0
    ensures forall c | c in Render(digits, commas, sep) :: c == '0' || c == sep
    ensures digits != [] ==> Render(digits, commas, sep)[0] == '0'
  {
    if digits != [] { ZeroesRender(digits[1..], commas / 2, sep); }
  }

  // Decimal digits show as the characters '0' to '9'.
  lemma {:induction false} DecimalChars(digits: seq<Digit>, sep: char)
    requires forall i | 0 <= i < |digits| :: digits[i] <= 9
    ensures forall c | c in Render(digits, 0, sep) :: '0' <= c <= '9'
  {
    if digits != [] { DecimalChars(digits[1..], sep); }
  }

  lemma TrimChars(s: seq<char>, sep: char, minWidth: nat)
    requires 0 < minWidth <= |s| && forall c | c in s :: '0' <= c <= '9'
    ensures forall c | c in Trim(s, sep, minWidth) :: '0' <= c <= '9'
  {
    var r := Trim(s, sep, minWidth);
    forall i | 0 <= i < |r| ensures '0' <= r[i] <= '9' {
      var j := if Leading(s, sep) < |s| then Leading(s, sep) + i else i;
      assert s[j] in s;
      assert r[i] == s[j] || r[i] == '0';
    }
  }

  // What %ld and %d leave is written in decimal digits only, and is "0" for zero.
  lemma LongText(w: U16, sep: char)
    requires IsSeparator(sep)
    ensures forall c | c in Trim(Render(LongDigits(w), 0, sep), sep, 1) :: '0' <= c <= '9'
    ensures w == 0 ==> Trim(Render(LongDigits(w), 0, sep), sep, 1) == ['0']
  {
    DecimalChars(LongDigits(w), sep);
    TrimChars(Render(LongDigits(w), 0, sep), sep, 1);
    if w == 0 {
      ZeroesRender([0], 0, sep);
      TrimZeroes(Render([0], 0, sep), sep, 1);
    }
  }

  lemma DecimalText(b: U8, sep: char)
    requires IsSeparator(sep)
    ensures forall c | c in Trim(Render(DecimalDigits(b), 0, sep), sep, 1) :: '0' <= c <= '9'
    ensures b == 0 ==> Trim(Render(DecimalDigits(b), 0, sep), sep, 1) == ['0']
  {
    DecimalChars(DecimalDigits(b), sep);
    TrimChars(Render(DecimalDigits(b), 0, sep), sep, 1);
    if b == 0 {
      ZeroesRender([0, 0], 0, sep);
      TrimZeroes(Render([0, 0], 0, sep), sep, 1);
    }
  }

  // A score of nothing shows as two zeroes.
  lemma ZeroScoreText(bytes: seq<U8>, sep: char)
    requires bytes != [] && forall i | 0 <= i < |bytes| :: bytes[i] == 0
    ensures |BcdText(bytes, sep)| >= 2 && Trim(BcdText(bytes, sep), sep, 2) == ['0', '0']
  {
    NibblesLength(bytes);
    ZeroNibbles(bytes);
    ZeroesRender(Nibbles(bytes), Commas(2 * |bytes|), sep);
    var s := BcdText(bytes, sep);
    forall i | 0 <= i < |s| ensures s[i] == '0' || s[i] == sep { assert s[i] in s; }
    TrimZeroes(BcdText(bytes, sep), sep, 2);
  }

  lemma {:induction false} ZeroNibbles(bytes: seq<U8>)
    requires forall i | 0 <= i < |bytes| :: bytes[i] == 0
    ensures forall i | 0 <= i < |Nibbles(bytes)| :: Nibbles(bytes)[i] == 0
  {
    if bytes != [] { ZeroNibbles(bytes[1..]); }
  }

  // A score, in any base.
  lemma BcdRoundTrip(bytes: seq<U8>, sep: char, base: nat)
    requires bytes != [] && IsSeparator(sep)
    ensures |BcdText(bytes, sep)| >= 2
    ensures Read(Trim(BcdText(bytes, sep), sep, 2), sep, base) == Number(Nibbles(bytes), base)
    ensures Number(Nibbles(bytes), base) != 0 ==> Significant(Trim(BcdText(bytes, sep), sep, 2), sep)
  {
    NibblesLength(bytes);
    PrintReads(Nibbles(bytes), Commas(2 * |bytes|), sep, 2, base);
  }

  lemma LongRoundTrip(w: U16, sep: char)
    requires IsSeparator(sep)
    ensures Read(Trim(Render(LongDigits(w), 0, sep), sep, 1), sep, 10) == w
    ensures w != 0 ==> Significant(Trim(Render(LongDigits(w), 0, sep), sep, 1), sep)
  {
    PrintReads(LongDigits(w), 0, sep, 1, 10);
    if w == 0 { NumberOf1(0); } else { LongDigitsNumber(w); }
  }

  lemma DecimalRoundTrip(b: U8, sep: char)
    requires IsSeparator(sep)
    ensures Read(Trim(Render(DecimalDigits(b), 0, sep), sep, 1), sep, 10) == b
    ensures b != 0 ==> Significant(Trim(Render(DecimalDigits(b), 0, sep), sep, 1), sep)
  {
    var d := DecimalDigits(b);
    PrintReads(d, 0, sep, 1, 10);
    if b >= 100 { NumberOf3(d[0], d[1], d[2]); } else { NumberOf2(0, d[0], d[1]); }
  }

  lemma NumberStep(acc: nat, d: Digit, rest: seq<Digit>)
    ensures NumberFrom(acc, [d] + rest, 10) == NumberFrom(10 * acc + d, rest, 10)
  {
    assert ([d] + rest)[1..] == rest;
  }

  lemma NumberOf1(a: Digit)
    ensures Number([a], 10) == a
  {
    NumberStep(0, a, []);
    assert [a] + [] == [a];
  }

  lemma NumberOf2(acc: nat, a: Digit, b: Digit)
    ensures NumberFrom(acc, [a, b], 10) == 100 * acc + 10 * a + b
  {
    NumberStep(acc, a, [b]);
    NumberStep(10 * acc + a, b, []);
    assert [a] + [b] == [a, b] && [b] + [] == [b];
  }

  lemma NumberOf3(a: Digit, b: Digit, c: Digit)
    ensures Number([a, b, c], 10) == 100 * a + 10 * b + c
  {
    NumberStep(0, a, [b, c]);
    NumberOf2(a, b, c);
    assert [a] + [b, c] == [a, b, c];
  }

  lemma NumberOf5(a: Digit, b: Digit, c: Digit, d: Digit, e: Digit)
    ensures Number([a, b, c, d, e], 10) == 10000 * a + 1000 * b + 100 * c + 10 * d + e
  {
    NumberStep(0, a, [b, c, d, e]);
    NumberStep(a, b, [c, d, e]);
    NumberStep(10 * a + b, c, [d, e]);
    NumberOf2(100 * a + 10 * b + c, d, e);
    assert [a] + [b, c, d, e] == [a, b, c, d, e] && [b] + [c, d, e] == [b, c, d, e] && [c] + [d, e] == [c, d, e];
  }

  lemma LongDigitsNumber(w: U16)
    requires w != 0
    ensures Number(LongDigits(w), 10) == w
  {
    NumberOf5(w / 10000, w % 10000 / 1000, w % 1000 / 100, w % 100 / 10, w % 10);
    Splits(w);
  }

  // A 16-bit word is put together from its decimal digits.
  lemma Splits(w: U16)
    ensures 10000 * (w / 10000) + 1000 * (w % 10000 / 1000) + 100 * (w % 1000 / 100) + 10 * (w % 100 / 10) + w % 10 == w
  {
    ModMod(w, 1000);
    ModMod(w, 100);
    ModMod(w, 10);
  }

  // ---------- where the separators are ----------

  // Counting from the right, every fourth character is a separator and no
  // other is.
  ghost predicate Grouped(s: seq<char>, sep: char) {
    forall i | 0 <= i < |s| :: s[i] == sep <==> (|s| - i) % 4 == 0
  }

  // A set bit for each digit that is followed by a whole number of threes.
  predicate CommasFit(commas: nat, n: nat) {
    n == 0 || ((commas % 2 == 1 <==> n > 1 && (n - 1) % 3 == 0) && CommasFit(commas / 2, n - 1))
  }

  // The length of n digits with their separators.
  function Width(n: nat): nat {
    if n == 0 then 0 else n + (n - 1) / 3
  }

  lemma WidthStep(n: nat)
    requires n >= 1
    ensures if n > 1 && (n - 1) % 3 == 0 then Width(n) == Width(n - 1) + 2 && Width(n) % 4 == 1
            else Width(n) == Width(n - 1) + 1 && Width(n) % 4 != 0
  {
    var q, r := (n - 1) / 3, (n - 1) % 3;
    hide Width;
    WidthOf(n, q, r);
    if n == 1 {
      WidthOfNone();
    } else if r == 0 {
      WidthOf(n - 1, q - 1, 2);
    } else {
      WidthOf(n - 1, q, r - 1);
    }
  }

  lemma WidthOfNone()
    ensures Width(0) == 0
  {
  }

  lemma WidthOf(n: nat, q: nat, r: nat)
    requires n >= 1 && n - 1 == 3 * q + r && r < 3
    ensures Width(n) == 4 * q + r + 1 && Width(n) % 4 == r + 1
  {
    DivModUnique(n - 1, 3, q, r);
    DivModUnique(4 * q + r + 1, 4, q, r + 1);
  }

  lemma {:induction false} RenderGrouped(digits: seq<Digit>, commas: nat, sep: char)
    requires IsSeparator(sep) && CommasFit(commas, |digits|)
    ensures Grouped(Render(digits, commas, sep), sep) && |Render(digits, commas, sep)| == Width(|digits|)
    decreases |digits|
  {
    if digits != [] {
      RenderGrouped(digits[1..], commas / 2, sep);
      GroupedStep(Digit2Char(digits[0]), Render(digits[1..], commas / 2, sep), commas % 2 == 1, |digits|, sep);
    }
  }

  lemma GroupedStep(c: char, rest: seq<char>, comma: bool, n: nat, sep: char)
    requires n > 0 && Grouped(rest, sep) && |rest| == Width(n - 1) && c != sep
    requires comma <==> n > 1 && (n - 1) % 3 == 0
    ensures var s := [c] + if comma then [sep] + rest else rest; Grouped(s, sep) && |s| == Width(n)
  {
    WidthStep(n);
    hide Width, Grouped;
    if comma {
      GroupedCons(sep, rest, sep);
      GroupedCons(c, [sep] + rest, sep);
    } else {
      GroupedCons(c, rest, sep);
    }
  }

  lemma GroupedCons(c: char, rest: seq<char>, sep: char)
    requires Grouped(rest, sep)
    requires c == sep <==> (|rest| + 1) % 4 == 0
    ensures Grouped([c] + rest, sep)
  {
    var s := [c] + rest;
    forall i | 0 <= i < |s| ensures s[i] == sep <==> (|s| - i) % 4 == 0 {
      if i > 0 { assert s[i] == rest[i - 1]; }
    }
  }

  lemma CommasFitScores()
    ensures CommasFit(0x12, 8) && CommasFit(0x49, 10) && CommasFit(0, 2)
  {
    assert CommasFit(0, 0) && CommasFit(0, 1) && CommasFit(0, 2) && CommasFit(0, 3);
    assert CommasFit(0x1, 4) && CommasFit(0x2, 5) && CommasFit(0x4, 6);
    assert CommasFit(0x9, 7) && CommasFit(0x12, 8) && CommasFit(0x24, 9);
  }

  lemma {:induction false} RenderPlain(digits: seq<Digit>, sep: char)
    requires IsSeparator(sep)
    ensures |Render(digits, 0, sep)| == |digits| && sep !in Render(digits, 0, sep)
  {
    if digits != [] { RenderPlain(digits[1..], sep); }
  }

  // Without separators the text is one character per digit.
  lemma {:induction false} RenderPlainChars(digits: seq<Digit>, sep: char)
    ensures var s := Render(digits, 0, sep);
      |s| == |digits| && forall i | 0 <= i < |s| :: s[i] == Digit2Char(digits[i])
  {
    if digits != [] { RenderPlainChars(digits[1..], sep); }
  }

  // The text of one byte, two digits, while `commas` is being used up.
  function ByteText(byte: U8, commas: nat, sep: char): seq<char> {
    DigitText(byte / 16, commas, sep) + DigitText(byte % 16, commas / 2, sep)
  }

  function DigitText(d: Digit, commas: nat, sep: char): seq<char> {
    [Digit2Char(d)] + if commas % 2 == 1 then [sep] else []
  }

  lemma RenderDigit(d: Digit, rest: seq<Digit>, commas: nat, sep: char)
    ensures Render([d] + rest, commas, sep) == DigitText(d, commas, sep) + Render(rest, commas / 2, sep)
  {
    assert ([d] + rest)[1..] == rest;
  }

  function Rendered(bytes: seq<U8>, commas: nat, sep: char): seq<char> {
    Render(Nibbles(bytes), commas, sep)
  }

  lemma RenderedNone(commas: nat, sep: char)
    ensures Rendered([], commas, sep) == []
  {
  }

  // Bytes are rendered one after the other.
  lemma RenderByte(bytes: seq<U8>, commas: nat, sep: char)
    requires bytes != []
    ensures Rendered(bytes, commas, sep) == ByteText(bytes[0], commas, sep) + Rendered(bytes[1..], commas / 2 / 2, sep)
  {
    var a, b, rest := bytes[0] / 16, bytes[0] % 16, Nibbles(bytes[1..]);
    assert Nibbles(bytes) == [a] + ([b] + rest);
    RenderDigit(a, [b] + rest, commas, sep);
    RenderDigit(b, rest, commas / 2, sep);
  }

  // What remains of a word before its digit i is written.
  function Rest(w: U16, i: nat): U16
    requires i <= 5
  {
    if i == 0 then w else w % POWERS[i - 1]
  }

  const POWERS: seq<nat> := [10000, 1000, 100, 10, 1]

  lemma RestStep(w: U16, i: nat)
    requires i < 5 && w != 0
    ensures LongDigits(w)[i] == Rest(w, i) / POWERS[i] && Rest(w, i) % POWERS[i] == Rest(w, i + 1)
  {
    if i > 0 { ModMod(w, POWERS[i]); }
  }

  // Scores of 8 and 10 digits get a separator exactly every three digits;
  // other widths, 12 digits included, get none, which is right only for 2.
  lemma GroupedIff(bytes: seq<U8>, sep: char)
    requires bytes != [] && IsSeparator(sep)
    ensures Grouped(BcdText(bytes, sep), sep) <==> |bytes| in {1, 4, 5}
  {
    var digits := Nibbles(bytes);
    NibblesLength(bytes);
    CommasFitScores();
    if |bytes| in {1, 4, 5} {
      RenderGrouped(digits, Commas(2 * |bytes|), sep);
    } else {
      RenderPlain(digits, sep);
      var s := BcdText(bytes, sep);
      assert s[|s| - 4] != sep;
    }
  }

  // Removing leading zeroes leaves the separators where they belong.
  lemma TrimGrouped(s: seq<char>, sep: char, minWidth: nat)
    requires Grouped(s, sep) && 0 < minWidth <= 2 <= |s| && IsSeparator(sep) && s[0] != sep
    ensures Grouped(Trim(s, sep, minWidth), sep)
  {
    var n, t := Leading(s, sep), Trim(s, sep, minWidth);
    if n < |s| {
      forall i | 0 <= i < |t| ensures t[i] == sep <==> (|t| - i) % 4 == 0 {
        assert t[i] == s[n + i] && |s| - (n + i) == |t| - i;
      }
    }
  }
}
