/** Standard base64 (section 4 of RFC 4648) as encoding/base64's StdEncoding reads and
    writes it: padded, line breaks ignored, left-over low bits not checked. */
module Base64 {
  import opened Basics

  type Byte = b: int | 0 <= b < 256
  type Bytes = seq<Byte>

  type Sextet = d: int | 0 <= d < 64

  const PAD: Byte := 61
  const CR: Byte := 13
  const LF: Byte := 10

  // ---- The alphabet ----

  function Digit(d: Sextet): Byte {
    if d < 26 then 65 + d
    else if d < 52 then 97 + (d - 26)
    else if d < 62 then 48 + (d - 52)
    else if d == 62 then 43 else 47
  }

  function Value(c: Byte): Option<Sextet> {
    if 65 <= c <= 90 then Some(c - 65)
    else if 97 <= c <= 122 then Some(c - 97 + 26)
    else if 48 <= c <= 57 then Some(c - 48 + 52)
    else if c == 43 then Some(62)
    else if c == 47 then Some(63)
    else None
  }

  predicate InAlphabet(c: Byte) {
    Value(c).Some? || c == PAD
  }

  // ---- Encoding ----

  function Encode(data: Bytes): Bytes
    decreases |data|
  {
    if data == [] then []
    else if |data| == 1 then [Digit(data[0] / 4), Digit(data[0] % 4 * 16), PAD, PAD]
    else if |data| == 2 then
      [Digit(data[0] / 4), Digit(data[0] % 4 * 16 + data[1] / 16), Digit(data[1] % 16 * 4), PAD]
    else
      [Digit(data[0] / 4), Digit(data[0] % 4 * 16 + data[1] / 16),
       Digit(data[1] % 16 * 4 + data[2] / 64), Digit(data[2] % 64)] + Encode(data[3..])
  }

  // ---- Decoding ----

  function DropBreaks(s: Bytes): Bytes
    decreases |s|
  {
    if s == [] then []
    else if s[0] == CR || s[0] == LF then DropBreaks(s[1..])
    else [s[0]] + DropBreaks(s[1..])
  }

  /** One or two bytes from the closing, padded group. */
  function DecodeLast(s: Bytes): Option<Bytes>
    requires |s| == 4 && s[3] == PAD
  {
    var a, b := Value(s[0]), Value(s[1]);
    if a.None? || b.None? then None
    else if s[2] == PAD then Some([a.value * 4 + b.value / 16])
    else
      var c := Value(s[2]);
      if c.None? then None else Some([a.value * 4 + b.value / 16, b.value % 16 * 16 + c.value / 4])
  }

  function DecodeGroup(s: Bytes): Option<Bytes>
    requires |s| == 4
  {
    var a, b, c, d := Value(s[0]), Value(s[1]), Value(s[2]), Value(s[3]);
    if a.None? || b.None? || c.None? || d.None? then None
    else Some([a.value * 4 + b.value / 16, b.value % 16 * 16 + c.value / 4, c.value % 4 * 64 + d.value])
  }

  function DecodeGroups(s: Bytes): Option<Bytes>
    decreases |s|
  {
    if s == [] then Some([])
    else if |s| < 4 then None
    else if |s| == 4 && s[3] == PAD then DecodeLast(s)
    else
      var first, rest := DecodeGroup(s[..4]), DecodeGroups(s[4..]);
      if first.None? || rest.None? then None else Some(first.value + rest.value)
  }

  /** base64.StdEncoding.DecodeString; None is an error. */
  function Decode(s: Bytes): Option<Bytes> {
    DecodeGroups(DropBreaks(s))
  }

  // ---- Round trip ----

  lemma DigitValue(d: Sextet)
    ensures Value(Digit(d)) == Some(d) && Digit(d) != PAD && Digit(d) != CR && Digit(d) != LF
  {
  }

  lemma {:induction false} EncodeInAlphabet(data: Bytes)
    ensures forall i :: 0 <= i < |Encode(data)| ==> InAlphabet(Encode(data)[i])
    decreases |data|
  {
    if |data| >= 3 { EncodeInAlphabet(data[3..]); }
  }

  lemma {:induction false} NoBreaksToDrop(s: Bytes)
    requires forall i :: 0 <= i < |s| ==> InAlphabet(s[i])
    ensures DropBreaks(s) == s
    decreases |s|
  {
    if s != [] {
      NoBreaksToDrop(s[1..]);
      assert s == [s[0]] + s[1..];
    }
  }

  lemma OneByte(a: Byte)
    ensures Encode([a])[3] == PAD && DecodeLast(Encode([a])) == Some([a])
  {
    DigitValue(a / 4);
    DigitValue(a % 4 * 16);
  }

  lemma TwoBytes(a: Byte, b: Byte)
    ensures Encode([a, b])[3] == PAD && DecodeLast(Encode([a, b])) == Some([a, b])
  {
    DigitValue(a / 4);
    DigitValue(a % 4 * 16 + b / 16);
    DigitValue(b % 16 * 4);
  }

  lemma ThreeBytes(a: Byte, b: Byte, c: Byte)
    ensures Digit(c % 64) != PAD
    ensures DecodeGroup([Digit(a / 4), Digit(a % 4 * 16 + b / 16), Digit(b % 16 * 4 + c / 64), Digit(c % 64)]) == Some([a, b, c])
  {
    DigitValue(a / 4);
    DigitValue(a % 4 * 16 + b / 16);
    DigitValue(b % 16 * 4 + c / 64);
    DigitValue(c % 64);
  }

  lemma {:induction false} GroupsRoundTrip(data: Bytes)
    ensures DecodeGroups(Encode(data)) == Some(data)
    decreases |data|
  {
    if |data| == 1 {
      OneByte(data[0]);
      assert data == [data[0]];
    } else if |data| == 2 {
      TwoBytes(data[0], data[1]);
      assert data == [data[0], data[1]];
    } else if |data| >= 3 {
      GroupsRoundTrip(data[3..]);
      ThreeBytes(data[0], data[1], data[2]);
      var s := Encode(data);
      assert s[4..] == Encode(data[3..]);
      assert s[..4] == [Digit(data[0] / 4), Digit(data[0] % 4 * 16 + data[1] / 16),
                        Digit(data[1] % 16 * 4 + data[2] / 64), Digit(data[2] % 64)];
      assert data == [data[0], data[1], data[2]] + data[3..];
    }
  }

  lemma RoundTrip(data: Bytes)
    ensures Decode(Encode(data)) == Some(data)
  {
    EncodeInAlphabet(data);
    NoBreaksToDrop(Encode(data));
    GroupsRoundTrip(data);
  }
}
