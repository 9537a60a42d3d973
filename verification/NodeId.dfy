/** Device addresses as text (proto_frame.cpp): two upper-case hexadecimal digits a byte. */
module NodeId {
  import opened Bytes

  // ---- Digits

  /** What hex_nibble returns for a character that is no digit. */
  const NO_DIGIT: byte := 0xFF

  function Upper(ch: char): char {
    if 'a' <= ch <= 'z' then (ch as int - 32) as char else ch
  }

  /** hex_nibble. */
  function Nibble(ch: char): (n: byte)
    ensures n < 0x10 || n == NO_DIGIT
  {
    var upper := Upper(ch);
    if upper == '0' then 0x00 else if upper == '1' then 0x01 else if upper == '2' then 0x02 else
    if upper == '3' then 0x03 else if upper == '4' then 0x04 else if upper == '5' then 0x05 else
    if upper == '6' then 0x06 else if upper == '7' then 0x07 else if upper == '8' then 0x08 else
    if upper == '9' then 0x09 else if upper == 'A' then 0x0A else if upper == 'B' then 0x0B else
    if upper == 'C' then 0x0C else if upper == 'D' then 0x0D else if upper == 'E' then 0x0E else
    if upper == 'F' then 0x0F else NO_DIGIT
  }

  /** The digits of either case have the values of base 16, and nothing else is a digit. */
  lemma NibbleValue(ch: char)
    ensures Nibble(ch) as int ==
            if '0' <= ch <= '9' then ch as int - '0' as int
            else if 'A' <= ch <= 'F' then ch as int - 'A' as int + 10
            else if 'a' <= ch <= 'f' then ch as int - 'a' as int + 10
            else 255
  {
  }

  function Digit(n: byte): (ch: char)
    requires n < 0x10
  {
    if n == 0x00 then '0' else if n == 0x01 then '1' else if n == 0x02 then '2' else
    if n == 0x03 then '3' else if n == 0x04 then '4' else if n == 0x05 then '5' else
    if n == 0x06 then '6' else if n == 0x07 then '7' else if n == 0x08 then '8' else
    if n == 0x09 then '9' else if n == 0x0A then 'A' else if n == 0x0B then 'B' else
    if n == 0x0C then 'C' else if n == 0x0D then 'D' else if n == 0x0E then 'E' else
    'F'
  }

  lemma DigitNibble(n: byte)
    requires n < 0x10
    ensures Nibble(Digit(n)) == n
  {
  }

  lemma NibbleDigit(ch: char)
    requires Nibble(ch) != NO_DIGIT
    ensures Digit(Nibble(ch)) == Upper(ch)
  {
  }

  function High(b: byte): (n: byte)
    ensures n < 0x10
  {
    b >> 4
  }

  function Low(b: byte): (n: byte)
    ensures n < 0x10
  {
    b & 0x0F
  }

  function Join(high: byte, low: byte): byte {
    (high << 4) | low
  }

  /** The first digit counts sixteen times. */
  lemma JoinValue(high: byte, low: byte)
    requires high < 0x10 && low < 0x10
    ensures Join(high, low) as nat == 16 * high as nat + low as nat
  {
  }

  lemma JoinSplit(b: byte)
    ensures Join(High(b), Low(b)) == b
  {
  }

  lemma SplitJoin(high: byte, low: byte)
    requires high < 0x10 && low < 0x10
    ensures High(Join(high, low)) == high && Low(Join(high, low)) == low
  {
  }

  // ---- Strings

  /** `%02X` for each byte. */
  function ToHex(id: seq<byte>): (s: string)
    ensures |s| == 2 * |id|
    ensures forall i :: 0 <= i < |id| ==> s[2 * i] == Digit(High(id[i])) && s[2 * i + 1] == Digit(Low(id[i]))
  {
    if id == [] then ""
    else
      var n := |id| - 1;
      ToHex(id[..n]) + [Digit(High(id[n])), Digit(Low(id[n]))]
  }

  predicate IsHex(s: string) {
    forall i :: 0 <= i < |s| ==> Nibble(s[i]) != NO_DIGIT
  }

  /** What a string of digits stands for. */
  function FromHex(hex: string): (id: seq<byte>)
    requires |hex| % 2 == 0
    ensures |id| == |hex| / 2
  {
    seq(|hex| / 2, i requires 0 <= i < |hex| / 2 => Join(Nibble(hex[2 * i]), Nibble(hex[2 * i + 1])))
  }

  /** Accepts exactly the strings of the right length whose characters are all digits.  Of another string of that
      length the bytes before the first wrong pair are taken; everything else is cleared. */
  method HexToBytes(hex: string, out: array<byte>) returns (ok: bool)
    modifies out
    ensures ok <==> |hex| == 2 * out.Length && IsHex(hex)
    ensures ok ==> out[..] == FromHex(hex)
    ensures forall k :: 0 <= k < out.Length ==>
              out[k] == if |hex| == 2 * out.Length && IsHex(hex[..2 * k + 2]) then FromHex(hex)[k] else 0
  {
    hide Nibble, Join;
    for i := 0 to out.Length
      invariant forall k :: 0 <= k < i ==> out[k] == 0
    {
      out[i] := 0;
    }
    if |hex| != out.Length * 2 {
      return false;
    }
    for i := 0 to out.Length
      invariant forall k :: 0 <= k < 2 * i ==> Nibble(hex[k]) != NO_DIGIT
      invariant forall k :: 0 <= k < i ==> out[k] == FromHex(hex)[k]
      invariant forall k :: i <= k < out.Length ==> out[k] == 0
    {
      var high := Nibble(hex[i * 2]);
      var low := Nibble(hex[i * 2 + 1]);
      if high == NO_DIGIT || low == NO_DIGIT {
        forall k | i <= k < out.Length
          ensures !IsHex(hex[..2 * k + 2])
        {
          assert hex[..2 * k + 2][2 * i] == hex[2 * i] && hex[..2 * k + 2][2 * i + 1] == hex[2 * i + 1];
        }
        return false;
      }
      out[i] := Join(high, low);
    }
    ok := true;
  }

  /** An address is read back from its text. */
  lemma TextRoundTrip(id: seq<byte>)
    ensures IsHex(ToHex(id)) && FromHex(ToHex(id)) == id
  {
    hide ToHex, Nibble, Digit, High, Low, Join;
    var s := ToHex(id);
    forall i | 0 <= i < |s|
      ensures Nibble(s[i]) != NO_DIGIT
    {
      var k := i / 2;
      DigitNibble(High(id[k]));
      DigitNibble(Low(id[k]));
      assert i == 2 * k || i == 2 * k + 1;
    }
    forall i | 0 <= i < |id|
      ensures FromHex(s)[i] == id[i]
    {
      DigitNibble(High(id[i]));
      DigitNibble(Low(id[i]));
      JoinSplit(id[i]);
    }
  }

  /** Text is reproduced up to the case of its letters; two addresses never share a text. */
  lemma AddressRoundTrip(hex: string)
    requires IsHex(hex) && |hex| % 2 == 0
    ensures |ToHex(FromHex(hex))| == |hex|
    ensures forall i :: 0 <= i < |hex| ==> ToHex(FromHex(hex))[i] == Upper(hex[i])
  {
    hide ToHex, Nibble, Digit, Upper, High, Low, Join;
    var id := FromHex(hex);
    forall i | 0 <= i < |hex|
      ensures ToHex(id)[i] == Upper(hex[i])
    {
      var k := i / 2;
      assert i == 2 * k || i == 2 * k + 1;
      SplitJoin(Nibble(hex[2 * k]), Nibble(hex[2 * k + 1]));
      NibbleDigit(hex[2 * k]);
      NibbleDigit(hex[2 * k + 1]);
      assert ToHex(id)[2 * k] == Digit(High(id[k])) && ToHex(id)[2 * k + 1] == Digit(Low(id[k]));
    }
  }
}
