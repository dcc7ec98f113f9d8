/** The base 64 encoding of section 4 of RFC 4648 (the "standard" alphabet,
    with `=` padding), which Go exposes as `base64.StdEncoding`. `Encode`
    models `EncodeToString`; `Decode` is a reference inverse used to state
    that nothing is lost. */
module Base64 {
  import opened Wrappers

  type byte = x: int | 0 <= x < 256
  /** A 6-bit group: the value one base 64 character carries. */
  type sextet = x: int | 0 <= x < 64

  const Pad: char := '='

  /** Table 1 of RFC 4648: the character that encodes a 6-bit value. */
  function CharOf(v: sextet): (c: char)
    ensures c != Pad
  {
    if v < 26 then ('A' as int + v) as char
    else if v < 52 then ('a' as int + (v - 26)) as char
    else if v < 62 then ('0' as int + (v - 52)) as char
    else if v == 62 then '+'
    else '/'
  }

  /** Reads Table 1 backwards; `None` for a character outside the alphabet,
      the pad character included. */
  function ValueOf(c: char): (v: Option<sextet>) {
    if 'A' <= c <= 'Z' then Some(c as int - 'A' as int)
    else if 'a' <= c <= 'z' then Some(c as int - 'a' as int + 26)
    else if '0' <= c <= '9' then Some(c as int - '0' as int + 52)
    else if c == '+' then Some(62)
    else if c == '/' then Some(63)
    else None
  }

  lemma ValueOfCharOf(v: sextet)
    ensures ValueOf(CharOf(v)) == Some(v)
  {
  }

  /** Is `c` one of the characters Table 1 lists? */
  predicate InAlphabet(c: char) {
    ValueOf(c).Some?
  }

  /** The four 6-bit groups of a 24-bit quantum `b0 b1 b2`, most
      significant first. */
  function Sextet0(b0: byte): (v: sextet) { b0 / 4 }
  function Sextet1(b0: byte, b1: byte): (v: sextet) { (b0 % 4) * 16 + b1 / 16 }
  function Sextet2(b1: byte, b2: byte): (v: sextet) { (b1 % 16) * 4 + b2 / 64 }
  function Sextet3(b2: byte): (v: sextet) { b2 % 64 }

  /** The three bytes that four 6-bit groups `v0 v1 v2 v3` spell. */
  function Byte0(v0: sextet, v1: sextet): (b: byte) { v0 * 4 + v1 / 16 }
  function Byte1(v1: sextet, v2: sextet): (b: byte) { (v1 % 16) * 16 + v2 / 4 }
  function Byte2(v2: sextet, v3: sextet): (b: byte) { (v2 % 4) * 64 + v3 }

  /** Regrouping 8-bit groups into 6-bit groups loses nothing. */
  lemma RegroupBits(b0: byte, b1: byte, b2: byte)
    ensures Byte0(Sextet0(b0), Sextet1(b0, b1)) == b0
    ensures Byte1(Sextet1(b0, b1), Sextet2(b1, b2)) == b1
    ensures Byte2(Sextet2(b1, b2), Sextet3(b2)) == b2
  {
  }

  /** Three bytes, 24 bits, become four characters (section 4, no padding). */
  function EncodeQuantum(b0: byte, b1: byte, b2: byte): (s: string) {
    [CharOf(Sextet0(b0)), CharOf(Sextet1(b0, b1)), CharOf(Sextet2(b1, b2)), CharOf(Sextet3(b2))]
  }

  /** Base 64 of `b`: full quanta from the front; a final one or two bytes
      are zero-filled to whole sextets and padded with `=` to four
      characters (cases (2) and (3) at the end of section 4). */
  function Encode(b: seq<byte>): (s: string)
    decreases |b|
  {
    if |b| == 0 then ""
    else if |b| == 1 then [CharOf(Sextet0(b[0])), CharOf(Sextet1(b[0], 0)), Pad, Pad]
    else if |b| == 2 then [CharOf(Sextet0(b[0])), CharOf(Sextet1(b[0], b[1])), CharOf(Sextet2(b[1], 0)), Pad]
    else EncodeQuantum(b[0], b[1], b[2]) + Encode(b[3..])
  }

  /** Four alphabet characters back to three bytes. */
  function DecodeQuantum(c0: char, c1: char, c2: char, c3: char): (r: Option<seq<byte>>)
    ensures r.Some? ==> |r.value| == 3
  {
    match (ValueOf(c0), ValueOf(c1), ValueOf(c2), ValueOf(c3))
    case (Some(v0), Some(v1), Some(v2), Some(v3)) =>
      Some([Byte0(v0, v1), Byte1(v1, v2), Byte2(v2, v3)])
    case _ => None
  }

  /** The last quantum, which may carry one or two `=`. */
  function DecodeFinal(c0: char, c1: char, c2: char, c3: char): (r: Option<seq<byte>>)
    ensures r.Some? ==> 1 <= |r.value| <= 3
  {
    if c2 == Pad && c3 == Pad then
      match (ValueOf(c0), ValueOf(c1))
      case (Some(v0), Some(v1)) => Some([Byte0(v0, v1)])
      case _ => None
    else if c3 == Pad then
      match (ValueOf(c0), ValueOf(c1), ValueOf(c2))
      case (Some(v0), Some(v1), Some(v2)) => Some([Byte0(v0, v1), Byte1(v1, v2)])
      case _ => None
    else DecodeQuantum(c0, c1, c2, c3)
  }

  /** Padded base 64 back to bytes; `None` for a length that is not a
      multiple of four, a character outside the alphabet, or padding
      anywhere but the end. */
  function Decode(s: string): (r: Option<seq<byte>>)
    decreases |s|
  {
    if |s| == 0 then Some([])
    else if |s| < 4 then None
    else if |s| == 4 then DecodeFinal(s[0], s[1], s[2], s[3])
    else
      match (DecodeQuantum(s[0], s[1], s[2], s[3]), Decode(s[4..]))
      case (Some(head), Some(tail)) => Some(head + tail)
      case _ => None
  }

  /** The length of an encoding: four characters per started group of three bytes. */
  lemma {:induction false} EncodeLength(b: seq<byte>)
    ensures |Encode(b)| == 4 * ((|b| + 2) / 3)
    decreases |b|
  {
    if |b| > 2 {
      EncodeLength(b[3..]);
      assert (|b| + 2) / 3 == (|b[3..]| + 2) / 3 + 1;
    }
  }

  /** Every character of an encoding is in the alphabet, except for at most
      two `=` at the very end. */
  lemma {:induction false} EncodeAlphabet(b: seq<byte>)
    ensures forall i :: 0 <= i < |Encode(b)| ==>
      InAlphabet(Encode(b)[i]) || (Encode(b)[i] == Pad && i >= |Encode(b)| - 2)
    decreases |b|
  {
    if |b| > 2 {
      EncodeAlphabet(b[3..]);
      var q, rest := EncodeQuantum(b[0], b[1], b[2]), Encode(b[3..]);
      ValueOfCharOf(Sextet0(b[0]));
      ValueOfCharOf(Sextet1(b[0], b[1]));
      ValueOfCharOf(Sextet2(b[1], b[2]));
      ValueOfCharOf(Sextet3(b[2]));
      assert Encode(b) == q + rest;
      assert forall i :: 4 <= i < |q + rest| ==> (q + rest)[i] == rest[i - 4];
    } else if |b| > 0 {
      ValueOfCharOf(Sextet0(b[0]));
      if |b| == 1 {
        ValueOfCharOf(Sextet1(b[0], 0));
      } else {
        ValueOfCharOf(Sextet1(b[0], b[1]));
        ValueOfCharOf(Sextet2(b[1], 0));
      }
    }
  }

  lemma QuantumRoundTrip(b0: byte, b1: byte, b2: byte)
    ensures var q := EncodeQuantum(b0, b1, b2); DecodeQuantum(q[0], q[1], q[2], q[3]) == Some([b0, b1, b2])
  {
    ValueOfCharOf(Sextet0(b0));
    ValueOfCharOf(Sextet1(b0, b1));
    ValueOfCharOf(Sextet2(b1, b2));
    ValueOfCharOf(Sextet3(b2));
    RegroupBits(b0, b1, b2);
  }

  /** Decoding a full first quantum, then the rest. */
  lemma DecodeFront(q: string, rest: string, head: seq<byte>, tail: seq<byte>)
    requires |q| == 4 && |rest| > 0
    requires DecodeQuantum(q[0], q[1], q[2], q[3]) == Some(head) && Decode(rest) == Some(tail)
    ensures Decode(q + rest) == Some(head + tail)
  {
    var s := q + rest;
    assert s[0] == q[0] && s[1] == q[1] && s[2] == q[2] && s[3] == q[3];
    assert s[4..] == rest;
  }

  /** A string of exactly four characters is a final quantum. */
  lemma DecodeLast(s: string)
    requires |s| == 4
    ensures Decode(s) == DecodeFinal(s[0], s[1], s[2], s[3])
  {
  }

  /** A final quantum `xx==` spells one byte. */
  lemma DecodeOnePadded(v0: sextet, v1: sextet)
    ensures Decode([CharOf(v0), CharOf(v1), Pad, Pad]) == Some([Byte0(v0, v1)])
  {
    ValueOfCharOf(v0);
    ValueOfCharOf(v1);
    DecodeLast([CharOf(v0), CharOf(v1), Pad, Pad]);
  }

  /** A final single byte survives its `xx==` quantum. */
  lemma FinalOneRoundTrip(b0: byte)
    ensures Decode(Encode([b0])) == Some([b0])
  {
    var v0, v1 := Sextet0(b0), Sextet1(b0, 0);
    assert Encode([b0]) == [CharOf(v0), CharOf(v1), Pad, Pad];
    DecodeOnePadded(v0, v1);
    RegroupBits(b0, 0, 0);
  }

  /** A final pair of bytes survives its `xxx=` quantum. */
  lemma FinalTwoRoundTrip(b0: byte, b1: byte)
    ensures Decode(Encode([b0, b1])) == Some([b0, b1])
  {
    var v0, v1, v2 := Sextet0(b0), Sextet1(b0, b1), Sextet2(b1, 0);
    ValueOfCharOf(v0);
    ValueOfCharOf(v1);
    ValueOfCharOf(v2);
    RegroupBits(b0, b1, 0);
    var s := Encode([b0, b1]);
    assert s == [CharOf(v0), CharOf(v1), CharOf(v2), Pad];
    assert DecodeFinal(CharOf(v0), CharOf(v1), CharOf(v2), Pad) == Some([Byte0(v0, v1), Byte1(v1, v2)]);
  }

  lemma EncodeNonEmpty(b: seq<byte>)
    requires |b| > 0
    ensures |Encode(b)| >= 4
  {
  }

  /** Three bytes in front of `tail` encode as a full quantum in front of
      the encoding of `tail`. */
  lemma EncodeFront(b0: byte, b1: byte, b2: byte, tail: seq<byte>)
    ensures Encode([b0, b1, b2] + tail) == EncodeQuantum(b0, b1, b2) + Encode(tail)
  {
    var b := [b0, b1, b2] + tail;
    assert b[0] == b0 && b[1] == b1 && b[2] == b2 && b[3..] == tail;
  }

  /** Exactly three bytes: one full quantum, no padding. */
  lemma QuantumOnlyRoundTrip(b: seq<byte>)
    requires |b| == 3
    ensures Decode(Encode(b)) == Some(b)
  {
    var q := EncodeQuantum(b[0], b[1], b[2]);
    EncodeFront(b[0], b[1], b[2], []);
    assert b == [b[0], b[1], b[2]] + [];
    assert Encode([]) == "" && Encode(b) == q;
    QuantumRoundTrip(b[0], b[1], b[2]);
    DecodeLast(q);
    assert q[2] != Pad && q[3] != Pad;
    assert DecodeFinal(q[0], q[1], q[2], q[3]) == DecodeQuantum(q[0], q[1], q[2], q[3]);
    assert b == [b[0], b[1], b[2]];
  }

  /** A full quantum in front of a string that round-trips. */
  lemma QuantumFrontRoundTrip(b0: byte, b1: byte, b2: byte, tail: seq<byte>)
    requires |tail| > 0 && Decode(Encode(tail)) == Some(tail)
    ensures Decode(Encode([b0, b1, b2] + tail)) == Some([b0, b1, b2] + tail)
  {
    var q := EncodeQuantum(b0, b1, b2);
    EncodeFront(b0, b1, b2, tail);
    QuantumRoundTrip(b0, b1, b2);
    EncodeNonEmpty(tail);
    DecodeFront(q, Encode(tail), [b0, b1, b2], tail);
  }

  /** Decoding an encoding gives back exactly the bytes encoded. */
  lemma {:induction false} DecodeEncode(b: seq<byte>)
    ensures Decode(Encode(b)) == Some(b)
    decreases |b|
  {
    if |b| == 1 {
      FinalOneRoundTrip(b[0]);
      assert b == [b[0]];
    } else if |b| == 2 {
      FinalTwoRoundTrip(b[0], b[1]);
      assert b == [b[0], b[1]];
    } else if |b| == 3 {
      QuantumOnlyRoundTrip(b);
    } else if |b| > 3 {
      DecodeEncode(b[3..]);
      QuantumFrontRoundTrip(b[0], b[1], b[2], b[3..]);
      assert [b[0], b[1], b[2]] + b[3..] == b;
    }
  }

  /** Different byte strings never share an encoding. */
  lemma EncodeInjective(a: seq<byte>, b: seq<byte>)
    requires Encode(a) == Encode(b)
    ensures a == b
  {
    DecodeEncode(a);
    DecodeEncode(b);
  }

  /** Test vectors from section 10 of RFC 4648. */
  lemma RfcTestVectors()
    ensures Encode([]) == ""
    ensures Encode([0x66]) == "Zg=="
    ensures Encode([0x66, 0x6F]) == "Zm8="
    ensures Encode([0x66, 0x6F, 0x6F]) == "Zm9v"
    ensures Encode([0x66, 0x6F, 0x6F, 0x62, 0x61, 0x72]) == "Zm9vYmFy"
  {
  }

  /** The two section 10 vectors that end in a padded quantum after a full
      one. */
  lemma RfcPaddedVectors()
    ensures Encode([0x66, 0x6F, 0x6F, 0x62]) == "Zm9vYg=="
    ensures Encode([0x66, 0x6F, 0x6F, 0x62, 0x61]) == "Zm9vYmE="
  {
    EncodeFront(0x66, 0x6F, 0x6F, [0x62]);
    EncodeFront(0x66, 0x6F, 0x6F, [0x62, 0x61]);
    assert EncodeQuantum(0x66, 0x6F, 0x6F) == "Zm9v";
    assert Encode([0x62]) == "Yg==";
    assert Encode([0x62, 0x61]) == "YmE=";
  }

  /** The bits an encoding adds to fill its last sextet are zero: before
      `==` the last character carries 2 data bits and 4 zero bits, before a
      single `=` it carries 4 data bits and 2 zero bits. */
  predicate ZeroFilled(s: string) {
    |s| >= 4 ==>
      && (s[|s| - 2] == Pad ==> ValueOf(s[|s| - 3]).Some? && ValueOf(s[|s| - 3]).value % 16 == 0)
      && (s[|s| - 2] != Pad && s[|s| - 1] == Pad ==> ValueOf(s[|s| - 2]).Some? && ValueOf(s[|s| - 2]).value % 4 == 0)
  }

  lemma {:induction false} EncodeZeroFill(b: seq<byte>)
    ensures ZeroFilled(Encode(b))
    decreases |b|
  {
    if |b| == 1 {
      ValueOfCharOf(Sextet1(b[0], 0));
    } else if |b| == 2 {
      ValueOfCharOf(Sextet2(b[1], 0));
    } else if |b| > 3 {
      var q := EncodeQuantum(b[0], b[1], b[2]);
      var e := Encode(b[3..]);
      EncodeZeroFill(b[3..]);
      EncodeNonEmpty(b[3..]);
      assert Encode(b) == q + e;
      assert (q + e)[|q + e| - 1] == e[|e| - 1];
      assert (q + e)[|q + e| - 2] == e[|e| - 2];
      assert (q + e)[|q + e| - 3] == e[|e| - 3];
    }
  }
}
