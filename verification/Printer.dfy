/**
 The formatting routines as they run: characters are written at a moving
 position of one buffer, by repeated subtraction and an in-place shift.
 */
module Printers {
  import opened Machine
  import P = Printf

  class Printer {
    const buffer: array<char>
    const separator: char
    var commaPositions: nat

    constructor (size: nat, separator: char)
      ensures buffer.Length == size && this.separator == separator && fresh(buffer)
    {
      buffer := new char[size](_ => ' ');
      this.separator := separator;
      commaPositions := 0;
    }

    // A byte in decimal: the hundreds digit is removed first.
    method Decimal(at: nat, byte: U8) returns (end: nat)
      requires at + 3 <= buffer.Length
      modifies buffer
      ensures at <= end <= buffer.Length
      ensures buffer[at..end] == P.Render(P.DecimalDigits(byte), 0, separator)
      ensures buffer[..at] == old(buffer[..at])
    {
      hide P.Render, P.Digit2Char;
      P.RenderPlainChars(P.DecimalDigits(byte), separator);
      var b: U8 := byte;
      end := at;
      if b >= 200 {
        buffer[end] := P.Digit2Char(2);
        end := end + 1;
        b := b - 200;
      } else if b >= 100 {
        buffer[end] := P.Digit2Char(1);
        end := end + 1;
        b := b - 100;
      }
      buffer[end] := P.Digit2Char(b / 10);
      buffer[end + 1] := P.Digit2Char(b % 10);
      end := end + 2;
    }

    // One decimal digit, by repeated subtraction of a power of ten.
    method DigitOf(w: nat, power: nat) returns (digit: nat, rest: nat)
      requires power > 0
      ensures digit == w / power && rest == w % power
    {
      digit, rest := 0, w;
      while rest >= power
        invariant w == power * digit + rest
      {
        digit := digit + 1;
        rest := rest - power;
      }
      DivModUnique(w, power, digit, rest);
    }

    method LongDecimal(at: nat, word: U16) returns (end: nat)
      requires at + 5 <= buffer.Length
      modifies buffer
      ensures at <= end <= buffer.Length
      ensures buffer[at..end] == P.Render(P.LongDigits(word), 0, separator)
      ensures buffer[..at] == old(buffer[..at])
    {
      P.RenderPlainChars(P.LongDigits(word), separator);
      if word == 0 {
        buffer[at] := P.Digit2Char(0);
        return at + 1;
      }
      ghost var digits := P.LongDigits(word);
      assert |digits| == 5 && word == P.Rest(word, 0);
      hide P.Render, P.LongDigits, P.Rest, P.Digit2Char;
      var i, w: nat := 0, word;
      while i < 5
        invariant i <= 5 && w == P.Rest(word, i)
        invariant buffer[..at] == old(buffer[..at])
        invariant forall j | 0 <= j < i :: buffer[at + j] == P.Digit2Char(digits[j])
      {
        P.RestStep(word, i);
        var digit, rest := DigitOf(w, P.POWERS[i]);
        buffer[at + i] := P.Digit2Char(digit);
        w := rest;
        i := i + 1;
      }
      return at + 5;
    }

    // One hexadecimal digit, with a separator after it if one is due.
    method HexDigit(at: nat, digit: P.Digit) returns (end: nat)
      requires at + 2 <= buffer.Length
      modifies buffer, this`commaPositions
      ensures commaPositions == old(commaPositions) / 2
      ensures at <= end <= at + 2
      ensures buffer[..end] == old(buffer[..at]) + P.DigitText(digit, old(commaPositions), separator)
    {
      buffer[at] := P.Digit2Char(digit);
      end := at + 1;
      if commaPositions % 2 == 1 {
        buffer[end] := separator;
        end := end + 1;
      }
      commaPositions := commaPositions / 2;
    }

    method HexByte(at: nat, byte: U8) returns (end: nat)
      requires at + 4 <= buffer.Length
      modifies buffer, this`commaPositions
      ensures commaPositions == old(commaPositions) / 2 / 2
      ensures at <= end <= at + 4
      ensures buffer[..end] == old(buffer[..at]) + P.ByteText(byte, old(commaPositions), separator)
    {
      hide P.DigitText;
      end := HexDigit(at, byte / 16);
      end := HexDigit(end, byte % 16);
    }

    // A score: its bytes in hexadecimal, with separators by width.
    method Bcd(at: nat, bytes: seq<U8>) returns (end: nat)
      requires at + 4 * |bytes| <= buffer.Length
      modifies buffer, this`commaPositions
      ensures at <= end <= at + 4 * |bytes|
      ensures buffer[..end] == old(buffer[..at]) + P.BcdText(bytes, separator)
    {
      hide P.Rendered, P.Render, P.Commas, P.ByteText;
      commaPositions := P.Commas(2 * |bytes|);
      end := at;
      ghost var target := buffer[..at] + P.BcdText(bytes, separator);
      assert bytes[0..] == bytes;
      for i := 0 to |bytes|
        invariant at <= end <= at + 4 * i
        invariant buffer[..end] + P.Rendered(bytes[i..], commaPositions, separator) == target
      {
        P.RenderByte(bytes[i..], commaPositions, separator);
        assert bytes[i..][0] == bytes[i] && bytes[i..][1..] == bytes[i + 1..];
        end := HexByte(end, bytes[i]);
      }
      P.RenderedNone(commaPositions, separator);
    }

    // How many characters of the text are leading zeroes or separators.
    method CountLeading(at: nat, end: nat) returns (lead: nat)
      requires at <= end <= buffer.Length
      ensures lead == P.Leading(buffer[at..end], separator)
    {
      lead := 0;
      while at + lead < end && (buffer[at + lead] == '0' || buffer[at + lead] == separator)
        invariant at + lead <= end
        invariant lead + P.Leading(buffer[at + lead..end], separator) == P.Leading(buffer[at..end], separator)
      {
        assert buffer[at + lead..end][1..] == buffer[at + lead + 1..end];
        lead := lead + 1;
      }
    }

    // Shift the text down over its first `lead` characters.
    method ShiftDown(at: nat, end: nat, lead: nat)
      requires at + lead <= end <= buffer.Length
      modifies buffer
      ensures buffer[at..end - lead] == old(buffer[at + lead..end])
      ensures buffer[..at] == old(buffer[..at])
    {
      var moved := 0;
      while moved < end - at - lead
        invariant moved <= end - at - lead
        invariant forall j | 0 <= j < at || at + moved <= j < end :: buffer[j] == old(buffer[j])
        invariant forall j | at <= j < at + moved :: buffer[j] == old(buffer[j + lead])
      {
        buffer[at + moved] := buffer[at + moved + lead];
        moved := moved + 1;
      }
      assert |old(buffer[at + lead..end])| == end - lead - at;
    }

    // The common end of the number formats: unless leading zeroes are wanted,
    // remove them.
    method Fixup(at: nat, end: nat, minWidth: nat, leadingZeroes: bool) returns (newEnd: nat)
      requires at + minWidth <= end <= buffer.Length && minWidth > 0
      modifies buffer
      ensures at <= newEnd <= end
      ensures buffer[at..newEnd] ==
        if leadingZeroes then old(buffer[at..end]) else P.Trim(old(buffer[at..end]), separator, minWidth)
      ensures buffer[..at] == old(buffer[..at])
    {
      ghost var text := buffer[at..end];
      var lead := CountLeading(at, end);
      hide P.Leading;
      if leadingZeroes { return end; }
      if lead == end - at {
        assert text[..minWidth - 1] == buffer[at..at + minWidth - 1];
        buffer[at + minWidth - 1] := '0';
        newEnd := at + minWidth;
      } else {
        assert text[lead..] == buffer[at + lead..end];
        ShiftDown(at, end, lead);
        newEnd := end - lead;
      }
    }

    // %ld, %d and %b without the zero flag: reading the text back gives the
    // number, and it has no leading zero or separator unless that is zero.
    method PrintLong(at: nat, word: U16) returns (newEnd: nat)
      requires at + 5 <= buffer.Length && P.IsSeparator(separator)
      modifies buffer
      ensures at <= newEnd <= buffer.Length && buffer[..at] == old(buffer[..at])
      ensures P.Read(buffer[at..newEnd], separator, 10) == word
      ensures word != 0 ==> P.Significant(buffer[at..newEnd], separator)
      ensures word == 0 ==> buffer[at..newEnd] == ['0']
      ensures forall c | c in buffer[at..newEnd] :: '0' <= c <= '9'
    {
      var end := LongDecimal(at, word);
      newEnd := Fixup(at, end, 1, false);
      P.LongRoundTrip(word, separator);
      P.LongText(word, separator);
    }

    method PrintByte(at: nat, byte: U8) returns (newEnd: nat)
      requires at + 3 <= buffer.Length && P.IsSeparator(separator)
      modifies buffer
      ensures at <= newEnd <= buffer.Length && buffer[..at] == old(buffer[..at])
      ensures P.Read(buffer[at..newEnd], separator, 10) == byte
      ensures byte != 0 ==> P.Significant(buffer[at..newEnd], separator)
      ensures byte == 0 ==> buffer[at..newEnd] == ['0']
      ensures forall c | c in buffer[at..newEnd] :: '0' <= c <= '9'
    {
      var end := Decimal(at, byte);
      newEnd := Fixup(at, end, 1, false);
      P.DecimalRoundTrip(byte, separator);
      P.DecimalText(byte, separator);
    }

    method PrintScore(at: nat, bytes: seq<U8>) returns (newEnd: nat)
      requires bytes != [] && at + 4 * |bytes| <= buffer.Length && P.IsSeparator(separator)
      modifies buffer, this`commaPositions
      ensures at <= newEnd <= buffer.Length && buffer[..at] == old(buffer[..at])
      ensures P.Read(buffer[at..newEnd], separator, 10) == P.Number(P.Nibbles(bytes), 10)
      ensures P.Number(P.Nibbles(bytes), 10) != 0 ==> P.Significant(buffer[at..newEnd], separator)
      ensures (forall i | 0 <= i < |bytes| :: bytes[i] == 0) ==> buffer[at..newEnd] == ['0', '0']
      ensures |bytes| in {4, 5} ==> P.Grouped(buffer[at..newEnd], separator)
    {
      hide P.Read, P.Number, P.Nibbles, P.Trim, P.Grouped, P.Significant;
      var end := Bcd(at, bytes);
      P.BcdRoundTrip(bytes, separator, 10);
      P.GroupedIff(bytes, separator);
      if forall i | 0 <= i < |bytes| :: bytes[i] == 0 { P.ZeroScoreText(bytes, separator); }
      if |bytes| in {4, 5} { P.TrimGrouped(buffer[at..end], separator, 2); }
      newEnd := Fixup(at, end, 2, false);
    }
  }
}
