/**
 * Base64 as defined in section 4 of RFC 4648: the standard 64-character
 * alphabet (Table 1 of the RFC) with '=' padding. The EXIF sanitiser turns
 * every raw `bytes` value into this text; the decoder below is the strict
 * (canonical) reading of section 4 and serves as the partner that shows the
 * encoding loses nothing.
 */
module Base64 {
  import opened Wrappers

  /** One octet of a Python `bytes` object. */
  type byte = x: int | 0 <= x < 256

  /** The 6-bit value carried by one encoded character. */
  type sextet = x: int | 0 <= x < 64

  /** The pad character of section 3.2. */
  const Pad: char := '='

  /** Table 1 of RFC 4648: 0..25 are 'A'..'Z', 26..51 'a'..'z', 52..61 '0'..'9', then '+' and '/'. */
  function Char(v: sextet): (c: char)
    ensures Index(c) == Some(v)
    ensures c != Pad
  {
    if v < 26 then ('A' as int + v) as char
    else if v < 52 then ('a' as int + (v - 26)) as char
    else if v < 62 then ('0' as int + (v - 52)) as char
    else if v == 62 then '+'
    else '/'
  }

  /** The value of an alphabet character, or None for any other character (the pad included). */
  function Index(c: char): Option<sextet>
  {
    if 'A' <= c <= 'Z' then Some(c as int - 'A' as int)
    else if 'a' <= c <= 'z' then Some(c as int - 'a' as int + 26)
    else if '0' <= c <= '9' then Some(c as int - '0' as int + 52)
    else if c == '+' then Some(62)
    else if c == '/' then Some(63)
    else None
  }

  predicate InAlphabet(c: char)
  {
    Index(c).Some?
  }

  /** Every alphabet character is the encoding of its own value: Char and Index are inverse. */
  lemma IndexInverse(c: char)
    requires InAlphabet(c)
    ensures Char(Index(c).value) == c
  {
  }

  /** Number of '=' characters that end the encoding of n octets (section 4, cases (2) and (3)). */
  function PadCount(n: nat): nat
  {
    (3 - n % 3) % 3
  }

  // ---------------------------------------------------------------------------
  // Encoding

  /** Three octets become four characters (section 4, the 24-bit group). */
  function EncodeGroup(b0: byte, b1: byte, b2: byte): string
  {
    [Char(b0 / 4), Char((b0 % 4) * 16 + b1 / 16), Char((b1 % 16) * 4 + b2 / 64), Char(b2 % 64)]
  }

  /** A final quantum of one octet: two characters and two pads. */
  function EncodeFinal1(b0: byte): string
  {
    [Char(b0 / 4), Char((b0 % 4) * 16), Pad, Pad]
  }

  /** A final quantum of two octets: three characters and one pad. */
  function EncodeFinal2(b0: byte, b1: byte): string
  {
    [Char(b0 / 4), Char((b0 % 4) * 16 + b1 / 16), Char((b1 % 16) * 4), Pad]
  }

  /**
   * `base64.b64encode(s).decode("utf-8")`. The text has 4 * ceil(n / 3)
   * characters, the last PadCount(n) of them '=' and every other one from
   * the alphabet.
   */
  function Encode(s: seq<byte>): (r: string)
    ensures |r| == 4 * ((|s| + 2) / 3)
    ensures forall i | 0 <= i < |r| :: r[i] == Pad <==> i >= |r| - PadCount(|s|)
    ensures forall i | 0 <= i < |r| :: InAlphabet(r[i]) || r[i] == Pad
    decreases |s|
  {
    if |s| == 0 then ""
    else if |s| == 1 then EncodeFinal1(s[0])
    else if |s| == 2 then EncodeFinal2(s[0], s[1])
    else EncodeGroup(s[0], s[1], s[2]) + Encode(s[3..])
  }

  // ---------------------------------------------------------------------------
  // Decoding

  /** Four alphabet characters become three octets. */
  function DecodeGroup(c0: char, c1: char, c2: char, c3: char): Option<seq<byte>>
  {
    if InAlphabet(c0) && InAlphabet(c1) && InAlphabet(c2) && InAlphabet(c3) then
      var v0, v1, v2, v3 := Index(c0).value, Index(c1).value, Index(c2).value, Index(c3).value;
      Some([v0 * 4 + v1 / 16, (v1 % 16) * 16 + v2 / 4, (v2 % 4) * 64 + v3])
    else None
  }

  /**
   * The last four characters, which may end in one or two pads. The bits
   * that the pads leave over must be zero (the canonical encoding of
   * section 3.5).
   */
  function DecodeFinal(c0: char, c1: char, c2: char, c3: char): Option<seq<byte>>
  {
    if c2 == Pad && c3 == Pad then
      if InAlphabet(c0) && InAlphabet(c1) && Index(c1).value % 16 == 0 then
        Some([Index(c0).value * 4 + Index(c1).value / 16])
      else None
    else if c3 == Pad then
      if InAlphabet(c0) && InAlphabet(c1) && InAlphabet(c2) && Index(c2).value % 4 == 0 then
        var v0, v1, v2 := Index(c0).value, Index(c1).value, Index(c2).value;
        Some([v0 * 4 + v1 / 16, (v1 % 16) * 16 + v2 / 4])
      else None
    else DecodeGroup(c0, c1, c2, c3)
  }

  /** Strict decoding: a multiple of four characters, pads only in the last quantum. */
  function Decode(t: string): Option<seq<byte>>
    decreases |t|
  {
    if |t| == 0 then Some([])
    else if |t| < 4 then None
    else if |t| == 4 then DecodeFinal(t[0], t[1], t[2], t[3])
    else
      match DecodeGroup(t[0], t[1], t[2], t[3])
      case None => None
      case Some(head) =>
        match Decode(t[4..])
        case None => None
        case Some(rest) => Some(head + rest)
  }

  // ---------------------------------------------------------------------------
  // Round trips

  lemma DecodeEncodeGroup(b0: byte, b1: byte, b2: byte)
    ensures var g := EncodeGroup(b0, b1, b2); DecodeGroup(g[0], g[1], g[2], g[3]) == Some([b0, b1, b2])
  {
    var v1 := (b0 % 4) * 16 + b1 / 16;
    var v2 := (b1 % 16) * 4 + b2 / 64;
    assert v1 / 16 == b0 % 4 && v1 % 16 == b1 / 16;
    assert v2 / 4 == b1 % 16 && v2 % 4 == b2 / 64;
  }

  lemma DecodeEncodeFinal1(b0: byte)
    ensures Decode(EncodeFinal1(b0)) == Some([b0])
  {
    var v1 := (b0 % 4) * 16;
    assert v1 / 16 == b0 % 4 && v1 % 16 == 0;
  }

  lemma DecodeEncodeFinal2(b0: byte, b1: byte)
    ensures Decode(EncodeFinal2(b0, b1)) == Some([b0, b1])
  {
    var v1 := (b0 % 4) * 16 + b1 / 16;
    var v2 := (b1 % 16) * 4;
    assert v1 / 16 == b0 % 4 && v1 % 16 == b1 / 16;
    assert v2 / 4 == b1 % 16 && v2 % 4 == 0;
  }

  /** Decoding the encoding gives back the original octets. */
  lemma {:induction false} DecodeEncode(s: seq<byte>)
    ensures Decode(Encode(s)) == Some(s)
    decreases |s|
  {
    if |s| == 1 {
      DecodeEncodeFinal1(s[0]);
      assert [s[0]] == s;
    } else if |s| == 2 {
      DecodeEncodeFinal2(s[0], s[1]);
      assert [s[0], s[1]] == s;
    } else if |s| >= 3 {
      var g := EncodeGroup(s[0], s[1], s[2]);
      var t := Encode(s);
      DecodeEncodeGroup(s[0], s[1], s[2]);
      assert t == g + Encode(s[3..]);
      if |s| == 3 {
        assert s[3..] == [];
        assert t == g;
        assert [s[0], s[1], s[2]] == s;
      } else {
        DecodeEncode(s[3..]);
        assert t[..4] == g && t[4..] == Encode(s[3..]);
        assert Decode(t) == Some([s[0], s[1], s[2]] + s[3..]);
        assert [s[0], s[1], s[2]] + s[3..] == s;
      }
    }
  }

  /** Octets built from four sextets split back into the same sextets. */
  lemma SextetsSplit(v0: sextet, v1: sextet, v2: sextet, v3: sextet)
    ensures var b0, b1, b2 := v0 * 4 + v1 / 16, (v1 % 16) * 16 + v2 / 4, (v2 % 4) * 64 + v3;
            b0 / 4 == v0 && (b0 % 4) * 16 + b1 / 16 == v1 && (b1 % 16) * 4 + b2 / 64 == v2 && b2 % 64 == v3
  {
    var b0, b1, b2 := v0 * 4 + v1 / 16, (v1 % 16) * 16 + v2 / 4, (v2 % 4) * 64 + v3;
    assert b0 / 4 == v0 && b0 % 4 == v1 / 16;
    assert b1 / 16 == v1 % 16 && b1 % 16 == v2 / 4;
    assert b2 / 64 == v2 % 4 && b2 % 64 == v3;
  }

  lemma EncodeDecodeGroup(c0: char, c1: char, c2: char, c3: char)
    requires DecodeGroup(c0, c1, c2, c3).Some?
    ensures var b := DecodeGroup(c0, c1, c2, c3).value;
            |b| == 3 && EncodeGroup(b[0], b[1], b[2]) == [c0, c1, c2, c3]
  {
    var v0: int, v1: int, v2: int, v3: int := Index(c0).value, Index(c1).value, Index(c2).value, Index(c3).value;
    IndexInverse(c0); IndexInverse(c1); IndexInverse(c2); IndexInverse(c3);
    SextetsSplit(v0, v1, v2, v3);
    var b0, b1, b2 := v0 * 4 + v1 / 16, (v1 % 16) * 16 + v2 / 4, (v2 % 4) * 64 + v3;
    assert DecodeGroup(c0, c1, c2, c3).value == [b0, b1, b2];
    assert Char(b0 / 4) == c0;
    assert Char((b0 % 4) * 16 + b1 / 16) == c1;
    assert Char((b1 % 16) * 4 + b2 / 64) == c2;
    assert Char(b2 % 64) == c3;
  }

  lemma EncodeDecodeFinal(c0: char, c1: char, c2: char, c3: char)
    requires DecodeFinal(c0, c1, c2, c3).Some?
    ensures var b := DecodeFinal(c0, c1, c2, c3).value;
            1 <= |b| <= 3 && Encode(b) == [c0, c1, c2, c3]
  {
    if c2 == Pad && c3 == Pad {
      var v0: int, v1: int := Index(c0).value, Index(c1).value;
      IndexInverse(c0); IndexInverse(c1);
      SextetsSplit(v0, v1, 0, 0);
      var b := DecodeFinal(c0, c1, c2, c3).value;
      assert b == [v0 * 4 + v1 / 16];
      assert (b[0] % 4) * 16 == v1;
    } else if c3 == Pad {
      var v0: int, v1: int, v2: int := Index(c0).value, Index(c1).value, Index(c2).value;
      IndexInverse(c0); IndexInverse(c1); IndexInverse(c2);
      SextetsSplit(v0, v1, v2, 0);
      var b := DecodeFinal(c0, c1, c2, c3).value;
      assert b == [v0 * 4 + v1 / 16, (v1 % 16) * 16 + v2 / 4];
      assert (b[1] % 16) * 4 == v2;
    } else {
      EncodeDecodeGroup(c0, c1, c2, c3);
      var b := DecodeGroup(c0, c1, c2, c3).value;
      assert b[3..] == [];
    }
  }

  /** Encoding a three-octet prefix emits its group ahead of the rest. */
  lemma EncodePrefix(head: seq<byte>, rest: seq<byte>)
    requires |head| == 3
    ensures Encode(head + rest) == EncodeGroup(head[0], head[1], head[2]) + Encode(rest)
  {
    var s := head + rest;
    assert s[3..] == rest;
  }

  /** Every text the decoder accepts is the encoding of what it decodes to. */
  lemma {:induction false} EncodeDecode(t: string)
    requires Decode(t).Some?
    ensures Encode(Decode(t).value) == t
    decreases |t|
  {
    if |t| == 0 {
    } else if |t| == 4 {
      EncodeDecodeFinal(t[0], t[1], t[2], t[3]);
      assert [t[0], t[1], t[2], t[3]] == t;
    } else if |t| > 4 {
      var head := DecodeGroup(t[0], t[1], t[2], t[3]).value;
      var rest := Decode(t[4..]).value;
      assert Decode(t).value == head + rest;
      EncodeDecodeGroup(t[0], t[1], t[2], t[3]);
      EncodeDecode(t[4..]);
      EncodePrefix(head, rest);
      assert t == [t[0], t[1], t[2], t[3]] + t[4..];
    }
  }

  /** The test vectors of section 10 of RFC 4648 ("", "f", "fo", "foo", "foob", "fooba", "foobar"). */
  lemma TestVectors()
    ensures Encode([]) == ""
    ensures Encode([102]) == "Zg=="
    ensures Encode([102, 111]) == "Zm8="
    ensures Encode([102, 111, 111]) == "Zm9v"
    ensures Encode([102, 111, 111, 98]) == "Zm9vYg=="
    ensures Encode([102, 111, 111, 98, 97]) == "Zm9vYmE="
    ensures Encode([102, 111, 111, 98, 97, 114]) == "Zm9vYmFy"
  {
    assert [102, 111, 111, 98][3..] == [98];
    assert [102, 111, 111, 98, 97][3..] == [98, 97];
    assert [102, 111, 111, 98, 97, 114][3..] == [98, 97, 114];
  }
}
