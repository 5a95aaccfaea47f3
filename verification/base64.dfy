/**
 Standard base64 with padding, as in section 4 of RFC 4648 (Go's
 `base64.StdEncoding`). Every 3 input bytes become 4 characters of the
 alphabet A-Z a-z 0-9 + /; a final group of 1 or 2 bytes becomes 2 or 3
 characters followed by "==" or "=".

 The bot only encodes. Decode is the reference inverse used to state that
 nothing of the document text is lost.
 */
module Base64 {
  import opened GoTypes

  const Pad: char := '='

  /** The alphabet character of a sextet value 0..63. */
  function Letter(n: int): (c: char)
    requires 0 <= n < 64
    ensures Index(c) == n
  {
    if n < 26 then ('A' as int + n) as char
    else if n < 52 then ('a' as int + (n - 26)) as char
    else if n < 62 then ('0' as int + (n - 52)) as char
    else if n == 62 then '+'
    else '/'
  }

  /** The sextet value of an alphabet character; -1 for any other character. */
  function Index(c: char): (n: int)
    ensures -1 <= n < 64
  {
    if 'A' <= c <= 'Z' then c as int - 'A' as int
    else if 'a' <= c <= 'z' then c as int - 'a' as int + 26
    else if '0' <= c <= '9' then c as int - '0' as int + 52
    else if c == '+' then 62
    else if c == '/' then 63
    else -1
  }

  /** The character of a 6-bit value. */
  function CharOf(x: bv8): (c: char)
    requires x < 64
    ensures ValueOf(c) == Some(x)
  {
    Letter(x as int)
  }

  /** The 6-bit value of an alphabet character; None for any other character. */
  function ValueOf(c: char): (r: Option<bv8>)
    ensures r.Some? ==> r.value < 64
  {
    var n := Index(c);
    if n < 0 then None else Some(n as bv8)
  }

  predicate InAlphabet(c: char) {
    ValueOf(c).Some?
  }

  /** Three bytes as four characters. */
  function EncodeGroup(a: bv8, b: bv8, c: bv8): string {
    [CharOf(a >> 2), CharOf(((a & 3) << 4) | (b >> 4)), CharOf(((b & 15) << 2) | (c >> 6)), CharOf(c & 63)]
  }

  /** `base64.StdEncoding.EncodeToString`. */
  function Encode(data: Bytes): (s: string)
    ensures |s| == 4 * ((|data| + 2) / 3)
    ensures forall i | 0 <= i < |s| :: InAlphabet(s[i]) || s[i] == Pad
    decreases |data|
  {
    if |data| == 0 then ""
    else if |data| == 1 then
      [CharOf(data[0] >> 2), CharOf((data[0] & 3) << 4), Pad, Pad]
    else if |data| == 2 then
      [CharOf(data[0] >> 2), CharOf(((data[0] & 3) << 4) | (data[1] >> 4)), CharOf((data[1] & 15) << 2), Pad]
    else
      EncodeGroup(data[0], data[1], data[2]) + Encode(data[3..])
  }

  /** Four characters, none of them padding, as three bytes. */
  function DecodeGroup(q: string): Option<Bytes>
    requires |q| == 4
  {
    match (ValueOf(q[0]), ValueOf(q[1]), ValueOf(q[2]), ValueOf(q[3]))
    case (Some(w), Some(x), Some(y), Some(z)) =>
      Some([(w << 2) | (x >> 4), (x << 4) | (y >> 2), (y << 6) | z])
    case _ => None
  }

  /**
   The last four characters, which may end in "=" or "==". The bits of the
   last character that no byte uses must be zero (section 3.5 of RFC 4648),
   so every byte sequence has exactly one encoding this accepts.
   */
  function DecodeLast(q: string): Option<Bytes>
    requires |q| == 4
  {
    if q[2] == Pad && q[3] == Pad then
      match (ValueOf(q[0]), ValueOf(q[1]))
      case (Some(w), Some(x)) => if x & 15 != 0 then None else Some([(w << 2) | (x >> 4)])
      case _ => None
    else if q[3] == Pad then
      match (ValueOf(q[0]), ValueOf(q[1]), ValueOf(q[2]))
      case (Some(w), Some(x), Some(y)) =>
        if y & 3 != 0 then None else Some([(w << 2) | (x >> 4), (x << 4) | (y >> 2)])
      case _ => None
    else DecodeGroup(q)
  }

  /** Padded standard base64 decoding; None on a malformed text. */
  function Decode(s: string): (r: Option<Bytes>)
    decreases |s|
  {
    if |s| == 0 then Some([])
    else if |s| < 4 then None
    else if |s| == 4 then DecodeLast(s)
    else
      match (DecodeGroup(s[..4]), Decode(s[4..]))
      case (Some(head), Some(tail)) => Some(head + tail)
      case _ => None
  }

  /** The bit-level heart of the round trip: the 6-bit pieces reassemble the bytes. */
  lemma SplitBits(a: bv8, b: bv8, c: bv8)
    ensures ((a >> 2) << 2) | ((((a & 3) << 4) | (b >> 4)) >> 4) == a
    ensures ((((a & 3) << 4) | (b >> 4)) << 4) | ((((b & 15) << 2) | (c >> 6)) >> 2) == b
    ensures ((((b & 15) << 2) | (c >> 6)) << 6) | (c & 63) == c
    ensures ((a & 3) << 4) & 15 == 0
    ensures ((b & 15) << 2) & 3 == 0
  {
  }

  lemma GroupRoundTrip(a: bv8, b: bv8, c: bv8)
    ensures DecodeGroup(EncodeGroup(a, b, c)) == Some([a, b, c])
  {
    SplitBits(a, b, c);
    var q := EncodeGroup(a, b, c);
    assert ValueOf(q[0]) == Some(a >> 2);
    assert ValueOf(q[1]) == Some(((a & 3) << 4) | (b >> 4));
    assert ValueOf(q[2]) == Some(((b & 15) << 2) | (c >> 6));
    assert ValueOf(q[3]) == Some(c & 63);
  }

  lemma OneByteRoundTrip(a: bv8)
    ensures Decode(Encode([a])) == Some([a])
  {
    SplitBits(a, 0, 0);
  }

  lemma TwoByteRoundTrip(a: bv8, b: bv8)
    ensures Decode(Encode([a, b])) == Some([a, b])
  {
    SplitBits(a, b, 0);
    assert ((b & 15) << 2) | (0 >> 6) == (b & 15) << 2;
  }

  lemma ThreeByteRoundTrip(data: Bytes)
    requires |data| == 3
    ensures Decode(Encode(data)) == Some(data)
  {
    GroupRoundTrip(data[0], data[1], data[2]);
    assert Encode(data) == EncodeGroup(data[0], data[1], data[2]);
    assert data == [data[0], data[1], data[2]];
  }

  lemma FirstThree(s: Bytes)
    requires |s| >= 3
    ensures s == [s[0], s[1], s[2]] + s[3..]
  {
  }

  lemma DecodeCons(head: string, tail: string)
    requires |head| == 4 && |tail| >= 4
    ensures Decode(head + tail) ==
      match (DecodeGroup(head), Decode(tail))
      case (Some(h), Some(t)) => Some(h + t)
      case _ => None
  {
    assert (head + tail)[..4] == head;
    assert (head + tail)[4..] == tail;
  }

  /** One full group in front of an encoding that already round-trips. */
  lemma GroupThenRest(data: Bytes)
    requires |data| > 3
    requires Decode(Encode(data[3..])) == Some(data[3..])
    ensures Decode(Encode(data)) == Some(data)
  {
    var group := EncodeGroup(data[0], data[1], data[2]);
    var rest := Encode(data[3..]);
    assert Encode(data) == group + rest;
    GroupRoundTrip(data[0], data[1], data[2]);
    DecodeCons(group, rest);
    FirstThree(data);
  }

  /** Decoding an encoding gives back the original bytes, byte for byte. */
  lemma {:induction false} RoundTrip(data: Bytes)
    ensures Decode(Encode(data)) == Some(data)
    decreases |data|
  {
    if |data| == 1 {
      assert data == [data[0]];
      OneByteRoundTrip(data[0]);
    } else if |data| == 2 {
      assert data == [data[0], data[1]];
      TwoByteRoundTrip(data[0], data[1]);
    } else if |data| == 3 {
      ThreeByteRoundTrip(data);
    } else if |data| > 3 {
      RoundTrip(data[3..]);
      GroupThenRest(data);
    }
  }

  /** A padded example: "Hello" encodes as "SGVsbG8=", with the unused bits of "8" zero. */
  lemma HelloEncoding()
    ensures Encode([0x48, 0x65, 0x6C, 0x6C, 0x6F]) == "SGVsbG8="
  {
    assert EncodeGroup(0x48, 0x65, 0x6C) == "SGVs";
    assert [0x48, 0x65, 0x6C, 0x6C, 0x6F][3..] == [0x6C, 0x6F];
    assert Encode([0x6C, 0x6F]) == "bG8=";
  }

  /** The document of the usage example, "Hello Exa", encodes as "SGVsbG8gRXhh". */
  lemma HelloExaEncoding()
    ensures Encode([0x48, 0x65, 0x6C, 0x6C, 0x6F, 0x20, 0x45, 0x78, 0x61]) == "SGVsbG8gRXhh"
  {
    assert EncodeGroup(0x48, 0x65, 0x6C) == "SGVs";
    assert EncodeGroup(0x6C, 0x6F, 0x20) == "bG8g";
    assert EncodeGroup(0x45, 0x78, 0x61) == "RXhh";
  }
}
