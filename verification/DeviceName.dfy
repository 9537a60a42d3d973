/** The device-name codec of proto_codecs.cpp: UTF-8 in the program, Latin-1 on the wire.  Strings are
    byte sequences, as in the original. */
module DeviceName {
  import opened Bytes

  const DEVICE_NAME_BUFFER_SIZE: nat := 32
  const DEVICE_NAME_WRITE_CHAR_LIMIT: nat := 15
  const DEVICE_NAME_WRITE_PAYLOAD_SIZE: nat := 16
  const NAME_PADDING_NUL: byte := 0x00
  const NAME_PADDING_SPACE: byte := 0x20

  datatype NameError = None | Empty | InvalidUtf8 | UnsupportedChar | TooLong

  // ---- UTF-8 (section 3 of RFC 3629)

  /** The encoding of a code point below 256. */
  function Utf8Char(c: byte): (u: seq<byte>)
    ensures 1 <= |u| <= 2
  {
    if c < 0x80 then [c] else [0xC0 | (c >> 6), 0x80 | (c & 0x3F)]
  }

  /** A character of the upper half follows 0xC2 as itself or 0xC3 less 0x40. */
  lemma UpperHalf(c: byte)
    requires c >= 0x80
    ensures Utf8Char(c) == if c < 0xC0 then [0xC2, c] else [0xC3, c - 0x40]
  {
  }

  function Utf8(chars: seq<byte>): (u: seq<byte>)
    ensures |chars| <= |u| <= 2 * |chars|
  {
    if chars == [] then [] else Utf8Char(chars[0]) + Utf8(chars[1..])
  }

  predicate Tail(b: byte) {
    0x80 <= b <= 0xBF
  }

  /** The length of the well-formed sequence a string starts with, or 0. */
  function LeadLength(s: seq<byte>): (n: nat)
    ensures n <= |s|
  {
    if s == [] then 0
    else if s[0] <= 0x7F then 1
    else if |s| >= 2 && 0xC2 <= s[0] <= 0xDF && Tail(s[1]) then 2
    else if |s| >= 3 && Tail(s[2])
      && ((s[0] == 0xE0 && 0xA0 <= s[1] <= 0xBF) || (0xE1 <= s[0] <= 0xEC && Tail(s[1]))
          || (s[0] == 0xED && 0x80 <= s[1] <= 0x9F) || (0xEE <= s[0] <= 0xEF && Tail(s[1]))) then 3
    else if |s| >= 4 && Tail(s[2]) && Tail(s[3])
      && ((s[0] == 0xF0 && 0x90 <= s[1] <= 0xBF) || (0xF1 <= s[0] <= 0xF3 && Tail(s[1]))
          || (s[0] == 0xF4 && 0x80 <= s[1] <= 0x8F)) then 4
    else 0
  }

  predicate WellFormed(s: seq<byte>)
    decreases |s|
  {
    s == [] || (LeadLength(s) > 0 && WellFormed(s[LeadLength(s)..]))
  }

  lemma CharWellFormed(c: byte, rest: seq<byte>)
    ensures LeadLength(Utf8Char(c) + rest) == |Utf8Char(c)|
  {
  }

  lemma {:induction false} Utf8WellFormed(chars: seq<byte>)
    ensures WellFormed(Utf8(chars))
  {
    hide LeadLength, Utf8Char;
    if chars != [] {
      var u := Utf8Char(chars[0]);
      Utf8WellFormed(chars[1..]);
      CharWellFormed(chars[0], Utf8(chars[1..]));
      assert Utf8(chars)[|u|..] == Utf8(chars[1..]);
    }
  }

  // ---- latin1_to_utf8

  /** As many characters as fit into the name buffer with its terminator. */
  function Fitting(chars: seq<byte>, used: nat): (n: nat)
    ensures n <= |chars|
    ensures used < 32 ==> used + |Utf8(chars[..n])| < 32
    ensures used + 2 * |chars| < 32 ==> n == |chars|
  {
    if chars == [] || used + |Utf8Char(chars[0])| >= DEVICE_NAME_BUFFER_SIZE then 0
    else
      var n := Fitting(chars[1..], used + |Utf8Char(chars[0])|);
      assert chars[..n + 1][1..] == chars[1..][..n];
      n + 1
  }

  lemma Utf8Nothing()
    ensures Utf8([]) == []
  {
  }

  lemma Utf8Cons(chars: seq<byte>)
    requires chars != []
    ensures Utf8(chars) == Utf8Char(chars[0]) + Utf8(chars[1..])
  {
  }

  lemma {:induction false} Utf8Snoc(chars: seq<byte>, c: byte)
    ensures Utf8(chars + [c]) == Utf8(chars) + Utf8Char(c)
  {
    hide Utf8Char;
    if chars != [] {
      Utf8Snoc(chars[1..], c);
      assert (chars + [c])[1..] == chars[1..] + [c];
    }
  }

  /** Where the scan stops when the first `i` characters fitted. */
  lemma {:induction false} FittingStep(chars: seq<byte>, i: nat, used: nat)
    requires i <= Fitting(chars, used) && i < |chars|
    ensures i < Fitting(chars, used) <==>
            used + |Utf8(chars[..i])| + |Utf8Char(chars[i])| < 32
  {
    hide Utf8Char, Utf8;
    Utf8Nothing();
    if i > 0 {
      Utf8Cons(chars[..i]);
      FittingStep(chars[1..], i - 1, used + |Utf8Char(chars[0])|);
      assert chars[..i][1..] == chars[1..][..i - 1];
    }
  }

  method Latin1ToUtf8(data: seq<byte>) returns (result: seq<byte>)
    ensures result == Utf8(data[..Fitting(data, 0)])
  {
    hide Utf8, Fitting, Utf8Char;
    result := [];
    assert data[..0] == [] && Utf8([]) == [] by { Utf8Nothing(); }
    for index := 0 to |data|
      invariant index <= Fitting(data, 0)
      invariant result == Utf8(data[..index])
    {
      var c := data[index];
      FittingStep(data, index, 0);
      Utf8Snoc(data[..index], c);
      CharForm(c);
      assert data[..index + 1] == data[..index] + [c];
      if c < 0x80 {
        if |result| + 1 >= DEVICE_NAME_BUFFER_SIZE {
          return;
        }
        result := result + [c];
        continue;
      }
      if |result| + 2 >= DEVICE_NAME_BUFFER_SIZE {
        return;
      }
      result := result + [0xC0 | (c >> 6)];
      result := result + [0x80 | (c & 0x3F)];
    }
  }

  lemma CharForm(c: byte)
    ensures Utf8Char(c) == if c < 0x80 then [c] else [0xC0 | (c >> 6)] + [0x80 | (c & 0x3F)]
  {
  }

  // ---- Trimming

  /** isspace in the C locale. */
  predicate IsSpace(b: byte): (r: bool)
    ensures r <==> b == 0x20 || b == 0x09 || b == 0x0A || b == 0x0B || b == 0x0C || b == 0x0D
  {
    b == 0x20 || 0x09 <= b <= 0x0D
  }

  function TrimLeft(s: seq<byte>): (t: seq<byte>)
    ensures t != [] ==> !IsSpace(t[0])
  {
    if s != [] && IsSpace(s[0]) then TrimLeft(s[1..]) else s
  }

  function TrimRight(s: seq<byte>): (t: seq<byte>)
    ensures t <= s
    ensures t != [] ==> !IsSpace(t[|t| - 1]) && t[0] == s[0]
  {
    if s != [] && IsSpace(s[|s| - 1]) then TrimRight(s[..|s| - 1]) else s
  }

  function Trim(s: seq<byte>): (t: seq<byte>)
    ensures t != [] ==> !IsSpace(t[0]) && !IsSpace(t[|t| - 1])
  {
    TrimRight(TrimLeft(s))
  }

  lemma TrimLeftAt(value: seq<byte>, begin: nat)
    requires begin <= |value|
    ensures TrimLeft(value[begin..]) ==
            if begin < |value| && IsSpace(value[begin]) then TrimLeft(value[begin + 1..]) else value[begin..]
  {
    if begin < |value| {
      assert value[begin..][1..] == value[begin + 1..];
    }
  }

  lemma TrimRightAt(value: seq<byte>, begin: nat, end: nat)
    requires begin <= end <= |value|
    ensures TrimRight(value[begin..end]) ==
            if begin < end && IsSpace(value[end - 1]) then TrimRight(value[begin..end - 1]) else value[begin..end]
  {
    if begin < end {
      assert value[begin..end][..end - begin - 1] == value[begin..end - 1];
    }
  }

  method TrimAsciiWhitespace(value: seq<byte>) returns (trimmed: seq<byte>)
    ensures trimmed == Trim(value)
  {
    hide TrimLeft, TrimRight, IsSpace;
    var begin := 0;
    assert value[0..] == value;
    TrimLeftAt(value, begin);
    while begin < |value| && IsSpace(value[begin])
      invariant begin <= |value| && TrimLeft(value) == TrimLeft(value[begin..])
    {
      TrimLeftAt(value, begin);
      begin := begin + 1;
    }
    TrimLeftAt(value, begin);
    var end := |value|;
    assert value[begin..end] == value[begin..];
    while end > begin && IsSpace(value[end - 1])
      invariant begin <= end <= |value| && TrimRight(value[begin..]) == TrimRight(value[begin..end])
    {
      TrimRightAt(value, begin, end);
      end := end - 1;
    }
    TrimRightAt(value, begin, end);
    trimmed := value[begin..end];
  }

  // ---- Decoding a payload

  predicate IsPadding(b: byte) {
    b == NAME_PADDING_NUL || b == NAME_PADDING_SPACE
  }

  function WithoutPadding(s: seq<byte>): (t: seq<byte>)
    ensures t <= s
    ensures t != [] ==> !IsPadding(t[|t| - 1])
    ensures forall k :: |t| <= k < |s| ==> IsPadding(s[k])
  {
    if s != [] && IsPadding(s[|s| - 1]) then WithoutPadding(s[..|s| - 1]) else s
  }

  /** The characters of a payload: a first byte that is a control or a blank is skipped. */
  function NameBytes(data: seq<byte>): seq<byte> {
    if data == [] then []
    else WithoutPadding(if data[0] > NAME_PADDING_SPACE then data else data[1..])
  }

  function Decode(data: seq<byte>): seq<byte> {
    Utf8(NameBytes(data)[..Fitting(NameBytes(data), 0)])
  }

  lemma WithoutPaddingAt(data: seq<byte>, begin: nat, end: nat)
    requires begin <= end <= |data|
    ensures WithoutPadding(data[begin..end]) ==
            if begin < end && IsPadding(data[end - 1]) then WithoutPadding(data[begin..end - 1]) else data[begin..end]
  {
    if begin < end {
      assert data[begin..end][..end - begin - 1] == data[begin..end - 1];
    }
  }

  method DecodeDeviceNamePayload(data: seq<byte>) returns (name: seq<byte>)
    requires |data| < 256
    ensures name == Decode(data)
  {
    hide Utf8, Fitting, WithoutPadding, IsPadding;
    Utf8Nothing();
    if |data| == 0 {
      return [];
    }
    var begin := if data[0] > NAME_PADDING_SPACE then 0 else 1;
    if begin >= |data| {
      return [];
    }
    var rawLen := |data| - begin;
    assert data[begin..begin + rawLen] == data[begin..];
    assert NameBytes(data) == WithoutPadding(data[begin..]) by {
      assert data[0..] == data;
    }
    while rawLen > 0 && IsPadding(data[begin + rawLen - 1])
      invariant 0 <= rawLen <= |data| - begin
      invariant WithoutPadding(data[begin..]) == WithoutPadding(data[begin..begin + rawLen])
    {
      WithoutPaddingAt(data, begin, begin + rawLen);
      rawLen := rawLen - 1;
    }
    WithoutPaddingAt(data, begin, begin + rawLen);
    assert NameBytes(data) == data[begin..begin + rawLen];
    if rawLen == 0 {
      return [];
    }
    name := Latin1ToUtf8(data[begin..begin + rawLen]);
  }

  /** Whatever the payload, the decoded name is well-formed UTF-8 and fits the name buffer. */
  lemma DecodeWellFormed(data: seq<byte>)
    ensures WellFormed(Decode(data)) && |Decode(data)| < 32
  {
    Utf8WellFormed(NameBytes(data)[..Fitting(NameBytes(data), 0)]);
  }

  // ---- Encoding a name

  /** The character a string starts with, or why there is none. */
  datatype Point = Bad(error: NameError) | Point(value: bv16, advance: nat)

  function FirstPoint(s: seq<byte>): (p: Point)
    requires s != []
    ensures p.Point? ==> 1 <= p.advance <= |s|
    ensures p.Bad? ==> p.error != None
  {
    if s[0] <= 0x7F then Point(s[0] as bv16, 1)
    else if s[0] & 0xE0 == 0xC0 then
      if |s| < 2 || s[1] & 0xC0 != 0x80 then Bad(InvalidUtf8)
      else
        var value := (((s[0] & 0x1F) as bv16) << 6) | ((s[1] & 0x3F) as bv16);
        if value < 0x80 then Bad(InvalidUtf8) else Point(value, 2)
    else if s[0] & 0xF0 == 0xE0 || s[0] & 0xF8 == 0xF0 then Bad(UnsupportedChar)
    else Bad(InvalidUtf8)
  }

  datatype Reading = Fails(error: NameError) | Chars(chars: seq<byte>)

  /** The Latin-1 characters of a string, when `count` of the fifteen are taken already. */
  function Read(s: seq<byte>, count: nat): (r: Reading)
    ensures r.Fails? ==> r.error != None
    decreases |s|
  {
    if s == [] then Chars([])
    else
      var p := FirstPoint(s);
      if p.Bad? then Fails(p.error)
      else if p.value > 0xFF then Fails(UnsupportedChar)
      else if count >= DEVICE_NAME_WRITE_CHAR_LIMIT then Fails(TooLong)
      else
        match Read(s[p.advance..], count + 1)
        case Fails(e) => Fails(e)
        case Chars(cs) => Chars([p.value as byte] + cs)
  }

  /** What is left to read after the characters read so far. */
  ghost predicate Continues(s: seq<byte>, done: seq<byte>, rest: seq<byte>) {
    Read(s, 0) == match Read(rest, |done|) case Fails(e) => Fails(e) case Chars(cs) => Chars(done + cs)
  }

  /** The reading goes on past a Latin-1 character when there is room. */
  lemma ReadNext(s: seq<byte>, count: nat)
    requires s != [] && FirstPoint(s).Point? && FirstPoint(s).value <= 0xFF && count < DEVICE_NAME_WRITE_CHAR_LIMIT
    ensures var p := FirstPoint(s);
            Read(s, count) ==
            match Read(s[p.advance..], count + 1)
            case Fails(e) => Fails(e)
            case Chars(cs) => Chars([p.value as byte] + cs)
  {
    hide FirstPoint;
  }

  lemma ReadEnds(s: seq<byte>, count: nat)
    ensures s == [] ==> Read(s, count) == Chars([])
    ensures s != [] && FirstPoint(s).Point? && FirstPoint(s).value <= 0xFF && count >= DEVICE_NAME_WRITE_CHAR_LIMIT
            ==> Read(s, count) == Fails(TooLong)
  {
    hide FirstPoint;
  }

  lemma ContinuesNext(s: seq<byte>, done: seq<byte>, rest: seq<byte>)
    requires Continues(s, done, rest) && rest != [] && FirstPoint(rest).Point? && FirstPoint(rest).value <= 0xFF
    requires |done| < DEVICE_NAME_WRITE_CHAR_LIMIT
    ensures var p := FirstPoint(rest); Continues(s, done + [p.value as byte], rest[p.advance..])
  {
    hide FirstPoint, Read;
    ReadNext(rest, |done|);
    var p := FirstPoint(rest);
    var tail := Read(rest[p.advance..], |done| + 1);
    if tail.Chars? {
      assert done + ([p.value as byte] + tail.chars) == done + [p.value as byte] + tail.chars;
    }
  }

  /** Where the reading stops. */
  lemma ContinuesEnds(s: seq<byte>, done: seq<byte>, rest: seq<byte>)
    requires Continues(s, done, rest)
    ensures rest == [] ==> Read(s, 0) == Chars(done)
    ensures rest != [] ==>
              var p := FirstPoint(rest);
              && (p.Bad? ==> Read(s, 0) == Fails(p.error))
              && (p.Point? && p.value > 0xFF ==> Read(s, 0) == Fails(UnsupportedChar))
              && (p.Point? && p.value <= 0xFF && |done| >= DEVICE_NAME_WRITE_CHAR_LIMIT ==>
                    Read(s, 0) == Fails(TooLong))
  {
    hide FirstPoint;
    assert done + [] == done;
  }

  method EncodeDeviceNamePayload(name: seq<byte>, payload: array<byte>)
    returns (error: NameError, normalized: seq<byte>)
    requires payload.Length == DEVICE_NAME_WRITE_PAYLOAD_SIZE
    modifies payload
    ensures var r := if Trim(name) == [] then Fails(Empty) else Read(Trim(name), 0);
            match r
            case Fails(e) => error == e && normalized == []
            case Chars(cs) =>
              && error == None && |cs| <= 15 && payload[..] == cs + Zeros(16 - |cs|)
              && normalized == Utf8(cs[..Fitting(cs, 0)])
    ensures payload[15] == 0 && (Trim(name) == [] ==> payload[..] == Zeros(16))
  {
    hide Trim, FirstPoint, Utf8, Fitting, Read, Continues;
    normalized := [];
    for i := 0 to DEVICE_NAME_WRITE_PAYLOAD_SIZE
      invariant forall k :: 0 <= k < i ==> payload[k] == 0
    {
      payload[i] := 0;
    }
    var trimmed := TrimAsciiWhitespace(name);
    if |trimmed| == 0 {
      assert payload[..] == Zeros(16);
      return Empty, normalized;
    }
    var latin1Len := 0;
    var index := 0;
    assert trimmed[0..] == trimmed;
    assert payload[..0] == [];
    assert Continues(trimmed, [], trimmed) by { ContinuesStart(trimmed); }
    while index < |trimmed|
      invariant 0 <= index <= |trimmed| && 0 <= latin1Len <= DEVICE_NAME_WRITE_CHAR_LIMIT
      invariant forall k :: latin1Len <= k < DEVICE_NAME_WRITE_PAYLOAD_SIZE ==> payload[k] == 0
      invariant Continues(trimmed, payload[..latin1Len], trimmed[index..])
    {
      var rest := trimmed[index..];
      ContinuesEnds(trimmed, payload[..latin1Len], rest);
      var p := NextPoint(rest);
      if p.Bad? {
        return p.error, normalized;
      }
      if p.value > 0xFF {
        return UnsupportedChar, normalized;
      }
      if latin1Len >= DEVICE_NAME_WRITE_CHAR_LIMIT {
        return TooLong, normalized;
      }
      ContinuesNext(trimmed, payload[..latin1Len], rest);
      ghost var done := payload[..latin1Len];
      payload[latin1Len] := p.value as byte;
      latin1Len := latin1Len + 1;
      assert payload[..latin1Len] == done + [p.value as byte];
      assert rest[p.advance..] == trimmed[index + p.advance..];
      index := index + p.advance;
    }
    assert trimmed[index..] == [];
    ContinuesEnds(trimmed, payload[..latin1Len], []);
    assert payload[..] == payload[..latin1Len] + Zeros(DEVICE_NAME_WRITE_PAYLOAD_SIZE - latin1Len);
    normalized := Latin1ToUtf8(payload[..latin1Len]);
    error := None;
  }

  lemma ContinuesStart(s: seq<byte>)
    ensures Continues(s, [], s)
  {
    hide FirstPoint;
    if Read(s, 0).Chars? {
      assert [] + Read(s, 0).chars == Read(s, 0).chars;
    }
  }

  /** The body of the encoding loop up to the character's value. */
  method NextPoint(rest: seq<byte>) returns (p: Point)
    requires rest != []
    ensures p == FirstPoint(rest)
  {
    var b := rest[0];
    if b <= 0x7F {
      return Point(b as bv16, 1);
    } else if b & 0xE0 == 0xC0 {
      if |rest| <= 1 {
        return Bad(InvalidUtf8);
      }
      var continuation := rest[1];
      if continuation & 0xC0 != 0x80 {
        return Bad(InvalidUtf8);
      }
      var value := (((b & 0x1F) as bv16) << 6) | ((continuation & 0x3F) as bv16);
      if value < 0x80 {
        return Bad(InvalidUtf8);
      }
      return Point(value, 2);
    } else if b & 0xF0 == 0xE0 || b & 0xF8 == 0xF0 {
      return Bad(UnsupportedChar);
    } else {
      return Bad(InvalidUtf8);
    }
  }

  // ---- Reading undoes writing

  lemma PointOfChar(c: byte, rest: seq<byte>)
    ensures FirstPoint(Utf8Char(c) + rest) == Point(c as bv16, |Utf8Char(c)|)
  {
  }

  lemma CharFits(c: byte)
    ensures c as bv16 <= 0xFF && c as bv16 as byte == c
  {
  }

  lemma CharOfPoint(s: seq<byte>)
    requires s != [] && FirstPoint(s).Point? && FirstPoint(s).value <= 0xFF
    ensures Utf8Char(FirstPoint(s).value as byte) == s[..FirstPoint(s).advance]
  {
  }

  /** A string of Latin-1 characters is read back, unless it is too long. */
  lemma {:induction false} ReadUtf8(cs: seq<byte>, count: nat)
    requires count <= DEVICE_NAME_WRITE_CHAR_LIMIT
    ensures Read(Utf8(cs), count) ==
            if count + |cs| <= DEVICE_NAME_WRITE_CHAR_LIMIT then Chars(cs) else Fails(TooLong)
    decreases |cs|
  {
    hide FirstPoint, Utf8Char, Utf8, Read;
    Utf8Nothing();
    ReadEnds(Utf8(cs), count);
    if cs != [] {
      var u := Utf8Char(cs[0]);
      Utf8Cons(cs);
      PointOfChar(cs[0], Utf8(cs[1..]));
      assert Utf8(cs)[|u|..] == Utf8(cs[1..]);
      CharFits(cs[0]);
      if count < DEVICE_NAME_WRITE_CHAR_LIMIT {
        ReadNext(Utf8(cs), count);
        ReadUtf8(cs[1..], count + 1);
        assert [cs[0]] + cs[1..] == cs;
      }
    }
  }

  /** Whatever is read is the encoding of what it is read as. */
  lemma {:induction false} ReadSound(s: seq<byte>, count: nat)
    requires Read(s, count).Chars? && count <= DEVICE_NAME_WRITE_CHAR_LIMIT
    ensures var cs := Read(s, count).chars; Utf8(cs) == s && count + |cs| <= DEVICE_NAME_WRITE_CHAR_LIMIT
    decreases |s|
  {
    hide FirstPoint, Utf8Char;
    if s != [] {
      var p := FirstPoint(s);
      ReadSound(s[p.advance..], count + 1);
      CharOfPoint(s);
      assert s == s[..p.advance] + s[p.advance..];
    }
  }

  /** Encoding succeeds exactly for the names that, trimmed, are one to fifteen Latin-1 characters in
      UTF-8, and the normalized name is the trimmed one byte for byte. */
  lemma EncodesExactly(name: seq<byte>, cs: seq<byte>)
    ensures Trim(name) != [] && Read(Trim(name), 0) == Chars(cs)
       <==> 1 <= |cs| <= 15 && Utf8(cs) == Trim(name)
    ensures |cs| <= 15 ==> Utf8(cs[..Fitting(cs, 0)]) == Utf8(cs)
  {
    hide Trim, FirstPoint;
    if Read(Trim(name), 0) == Chars(cs) {
      ReadSound(Trim(name), 0);
    }
    if Utf8(cs) == Trim(name) {
      ReadUtf8(cs, 0);
    }
    assert cs[..|cs|] == cs;
  }

  // ---- The round trip

  lemma ZerosPrefix(n: nat)
    requires n > 0
    ensures Zeros(n)[..n - 1] == Zeros(n - 1)
  {
  }

  lemma PaddingDropped(s: seq<byte>)
    requires s != [] && IsPadding(s[|s| - 1])
    ensures WithoutPadding(s) == WithoutPadding(s[..|s| - 1])
  {
  }

  lemma {:induction false} PaddingRemoved(cs: seq<byte>, n: nat)
    ensures WithoutPadding(cs + Zeros(n)) == WithoutPadding(cs)
  {
    hide WithoutPadding, Zeros;
    if n == 0 {
      assert cs + Zeros(0) == cs;
    } else {
      PaddingRemoved(cs, n - 1);
      var s := cs + Zeros(n);
      ZerosPrefix(n);
      assert s[..|s| - 1] == cs + Zeros(n)[..n - 1];
      assert s[|s| - 1] == Zeros(n)[n - 1];
      PaddingDropped(s);
    }
  }

  lemma {:induction false} Utf8Concat(a: seq<byte>, b: seq<byte>)
    ensures Utf8(a + b) == Utf8(a) + Utf8(b)
  {
    hide Utf8Char;
    if a == [] {
      assert a + b == b;
    } else {
      Utf8Concat(a[1..], b);
      assert (a + b)[1..] == a[1..] + b;
      var u, v, w := Utf8Char(a[0]), Utf8(a[1..]), Utf8(b);
      ConcatAssociates(u, v, w);
    }
  }

  lemma ConcatAssociates(a: seq<byte>, b: seq<byte>, c: seq<byte>)
    ensures (a + b) + c == a + (b + c)
  {
  }

  /** The ends of the encoding show the ends of the text. */
  lemma Utf8Ends(cs: seq<byte>)
    requires cs != []
    ensures Utf8(cs) != []
    ensures Utf8(cs)[0] > NAME_PADDING_SPACE <==> cs[0] > NAME_PADDING_SPACE
    ensures var u := Utf8(cs); var c := cs[|cs| - 1];
            (u[|u| - 1] == NAME_PADDING_NUL <==> c == NAME_PADDING_NUL)
            && (u[|u| - 1] == NAME_PADDING_SPACE <==> c == NAME_PADDING_SPACE)
  {
    hide Utf8Char;
    var n := |cs| - 1;
    FirstByte(cs[0]);
    LastByte(cs[n]);
    Utf8Snoc(cs[..n], cs[n]);
    assert cs[..n] + [cs[n]] == cs;
  }

  lemma FirstByte(c: byte)
    ensures Utf8Char(c)[0] > NAME_PADDING_SPACE <==> c > NAME_PADDING_SPACE
  {
  }

  lemma LastByte(c: byte)
    ensures var u := Utf8Char(c);
            (u[|u| - 1] == NAME_PADDING_NUL <==> c == NAME_PADDING_NUL)
            && (u[|u| - 1] == NAME_PADDING_SPACE <==> c == NAME_PADDING_SPACE)
  {
  }

  /** A proper part of a text has a shorter encoding. */
  lemma PartIsShorter(cs: seq<byte>, from: nat, to: nat)
    requires from <= to <= |cs| && to - from < |cs|
    ensures |Utf8(cs[from..to])| < |Utf8(cs)|
  {
    hide Utf8;
    Utf8Concat(cs[..from], cs[from..]);
    Utf8Concat(cs[from..to], cs[to..]);
    assert cs == cs[..from] + cs[from..];
    assert cs[from..] == cs[from..to] + cs[to..];
  }

  lemma KeepsAll(cs: seq<byte>)
    requires cs != []
    ensures WithoutPadding(cs) == cs <==> !IsPadding(cs[|cs| - 1])
    ensures WithoutPadding(cs) != cs ==> |WithoutPadding(cs)| < |cs|
  {
  }

  /** The characters the decoder finds in a payload: the ones encoded, less what looks like padding. */
  lemma PayloadName(cs: seq<byte>) returns (kept: seq<byte>)
    requires 1 <= |cs| <= DEVICE_NAME_WRITE_CHAR_LIMIT
    ensures kept == NameBytes(cs + Zeros(DEVICE_NAME_WRITE_PAYLOAD_SIZE - |cs|)) && |kept| <= |cs|
    ensures if cs[0] > NAME_PADDING_SPACE && !IsPadding(cs[|cs| - 1]) then kept == cs
            else |Utf8(kept)| < |Utf8(cs)|
  {
    hide WithoutPadding, Utf8;
    var n := DEVICE_NAME_WRITE_PAYLOAD_SIZE - |cs|;
    var from := if cs[0] > NAME_PADDING_SPACE then 0 else 1;
    kept := WithoutPadding(cs[from..]);
    PaddingRemoved(cs[from..], n);
    assert (cs + Zeros(n))[from..] == cs[from..] + Zeros(n);
    assert kept == cs[from..from + |kept|];
    if from == 0 {
      assert cs[0..] == cs;
      KeepsAll(cs);
    }
    if |kept| < |cs| {
      PartIsShorter(cs, from, from + |kept|);
    }
  }

  /** What the decoder makes of the payload for these characters: the text, unless its ends look like
      padding. */
  lemma DecodePayload(cs: seq<byte>)
    requires 1 <= |cs| <= DEVICE_NAME_WRITE_CHAR_LIMIT
    ensures Decode(cs + Zeros(DEVICE_NAME_WRITE_PAYLOAD_SIZE - |cs|)) == Utf8(cs)
       <==> cs[0] > NAME_PADDING_SPACE && !IsPadding(cs[|cs| - 1])
  {
    hide Utf8, NameBytes, Zeros, Fitting, IsPadding, Decode;
    var kept := PayloadName(cs);
    DecodesTo(cs + Zeros(DEVICE_NAME_WRITE_PAYLOAD_SIZE - |cs|), kept);
  }

  lemma DecodesTo(data: seq<byte>, kept: seq<byte>)
    requires kept == NameBytes(data) && |kept| <= DEVICE_NAME_WRITE_CHAR_LIMIT
    ensures Decode(data) == Utf8(kept)
  {
    assert kept[..|kept|] == kept;
  }

  /** Decoding what was encoded returns the trimmed name exactly when that begins above the blank and
      does not end in NUL; otherwise the decoder takes its ends for padding. */
  lemma DecodeEncoded(name: seq<byte>, cs: seq<byte>)
    requires 1 <= |cs| <= DEVICE_NAME_WRITE_CHAR_LIMIT && Utf8(cs) == Trim(name)
    ensures Decode(cs + Zeros(DEVICE_NAME_WRITE_PAYLOAD_SIZE - |cs|)) == Trim(name)
       <==> Trim(name)[0] > NAME_PADDING_SPACE && Trim(name)[|Trim(name)| - 1] != NAME_PADDING_NUL
  {
    hide Utf8, Trim, Decode, Zeros;
    DecodePayload(cs);
    Utf8Ends(cs);
  }
}
