/** Reading the serial number out of the PIC: the registers are gathered into a
 structure and the digits stripped into the serial number in place. */
module PicReaders {
  import opened Machine
  import P = Pic

  class PicReader {
    const encoded: array<U8>
    const serialNumber: array<U8>

    ghost predicate Valid()
    {
      encoded.Length == P.STRUCT_SIZE && serialNumber.Length == P.SERIAL_SIZE && encoded != serialNumber
    }

    constructor ()
      ensures Valid() && fresh(encoded) && fresh(serialNumber)
    {
      encoded := new U8[P.STRUCT_SIZE];
      serialNumber := new U8[P.SERIAL_SIZE];
    }

    // Strip the decimal places of a register by repeated subtraction; the
    // digit counter is a byte.
    method StripDigits(reg: U32, row: nat)
      requires Valid() && row < 4 && P.Info(P.STRIP_INFO[row])
      modifies serialNumber
      ensures serialNumber[..] == P.StripFrom(old(serialNumber[..]), reg, P.STRIP_INFO[row], 0)
    {
      var place, w: nat := 0, reg;
      var info := P.STRIP_INFO[row];
      while place < 5
        invariant place <= 5
        invariant w == if place == 0 then reg else reg % P.PLACE_VALUE[place - 1]
        invariant P.StripFrom(serialNumber[..], reg, info, place) == P.StripFrom(old(serialNumber[..]), reg, info, 0)
      {
        var digit, rest := StripOne(w, P.PLACE_VALUE[place]);
        ghost var sn := serialNumber[..];
        if info[place] != -1 {
          serialNumber[info[place]] := Wrap8(digit + P.ZERO);
          assert serialNumber[..] == sn[info[place] := P.Digit(reg, place)];
        }
        if 0 < place < 5 { ModMod(reg, P.PLACE_VALUE[place]); }
        w := rest;
        place := place + 1;
      }
    }

    method StripOne(w: nat, value: nat) returns (digit: U8, rest: nat)
      requires value > 0
      ensures digit == Wrap8(w / value) && rest == w % value
    {
      ghost var count := 0;
      digit, rest := 0, w;
      while rest >= value
        invariant w == value * count + rest && digit == Wrap8(count)
      {
        rest := rest - value;
        digit := Wrap8(digit + 1);
        count := count + 1;
      }
      DivModUnique(w, value, count, rest);
    }

    // Initialization, given what the external registers read as.
    method Init(external: seq<U8>)
      requires Valid() && |external| == 16
      modifies encoded, serialNumber
      ensures serialNumber[..] == P.Decode(external)
    {
      forall k | 0 <= k < P.SERIAL_SIZE { serialNumber[k] := P.ZERO; }
      forall k | 0 <= k < P.STRUCT_SIZE { encoded[k] := 0; }
      assert serialNumber[..] == P.Zeroes(P.SERIAL_SIZE, P.ZERO) && encoded[..] == P.Zeroes(P.STRUCT_SIZE, 0);
      ghost var st := P.GatherFrom(encoded[..], external, 0);
      P.MapInverse();
      hide P.StripFrom, P.Decoded;
      var i := 0;
      while i < 16
        invariant i <= 16 && P.GatherFrom(encoded[..], external, i) == st
        invariant serialNumber[..] == P.Zeroes(P.SERIAL_SIZE, P.ZERO)
      {
        ghost var before := encoded[..];
        if P.SERIAL_MAP[i].Some? {
          encoded[P.SERIAL_MAP[i].value] := external[i];
          assert encoded[..] == before[P.SERIAL_MAP[i].value := external[i]];
        }
        i := i + 1;
      }
      P.StripInfoValid();
      var row := 0;
      while row < 4
        invariant row <= 4 && encoded[..] == st
        invariant P.DecodeFrom(serialNumber[..], st, row) == P.Decode(external)
      {
        StripDigits(P.Decoded(encoded[..], row), row);
        row := row + 1;
      }
    }
  }
}
