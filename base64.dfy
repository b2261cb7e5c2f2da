/**
 * Base64 as defined in section 4 of RFC 4648 (the alphabet A-Z, a-z, 0-9,
 * '+', '/' and the pad character '='), decoded the way Python's
 * `base64.b64decode(s)` does without `validate=True`: the string must be
 * ASCII, characters outside the alphabet are skipped, a run of pad
 * characters that completes a quantum ends the input, and a final quantum
 * of one character or an unpadded partial quantum is an error. The encoder
 * is the decoder's partner; `DecodeEncode` is their round trip.
 */
module Base64 {
  import opened Outcomes

  type Byte = b: int | 0 <= b < 256

  /** The character that encodes a 6-bit value (table 1 of RFC 4648). */
  function SextetChar(v: nat): (c: char)
    requires v < 64
    ensures SextetValue(c) == Some(v) && c as int <= 127
  {
    if v < 26 then ('A' as int + v) as char
    else if v < 52 then ('a' as int + (v - 26)) as char
    else if v < 62 then ('0' as int + (v - 52)) as char
    else if v == 62 then '+'
    else '/'
  }

  /** The 6-bit value of an alphabet character; `None` for every other character. */
  function SextetValue(c: char): (r: Option<nat>)
    ensures r.Some? ==> r.value < 64
  {
    if 'A' <= c <= 'Z' then Some(c as int - 'A' as int)
    else if 'a' <= c <= 'z' then Some(c as int - 'a' as int + 26)
    else if '0' <= c <= '9' then Some(c as int - '0' as int + 52)
    else if c == '+' then Some(62)
    else if c == '/' then Some(63)
    else None
  }

  const Pad: char := '='

  predicate IsEncodingChar(c: char) {
    SextetValue(c).Some? || c == Pad
  }

  datatype DecodeError =
    | NonAscii          // the string argument holds a character above 127
    | DanglingChar      // one data character more than a multiple of four
    | IncorrectPadding  // a partial final quantum without enough padding

  /**
   * The decoder's state between two characters: how many data characters of
   * the current quantum were read, the bits still owed to the next byte, how
   * many pad characters were seen since the last data character, and the
   * bytes decoded so far.
   */
  datatype Decoder = Decoder(quad: nat, left: nat, pads: nat, out: seq<Byte>)

  ghost predicate Sound(d: Decoder) {
    && d.quad < 4
    && (d.quad == 0 ==> d.left == 0)
    && (d.quad == 1 ==> d.left < 64)
    && (d.quad == 2 ==> d.left < 16)
    && (d.quad == 3 ==> d.left < 4)
  }

  /** Consume one data character of value `v`; every second, third and fourth one completes a byte. */
  function Feed(d: Decoder, v: nat): (e: Decoder)
    requires Sound(d) && v < 64
    ensures Sound(e)
    ensures d.out <= e.out
  {
    match d.quad
    case 0 => Decoder(1, v, 0, d.out)
    case 1 => Decoder(2, v % 16, 0, d.out + [d.left * 4 + v / 16])
    case 2 => Decoder(3, v % 4, 0, d.out + [d.left * 16 + v / 4])
    case 3 => Decoder(0, 0, 0, d.out + [d.left * 64 + v])
  }

  /** The decoding loop over the characters of `s`, from decoder state `d`. */
  function Run(s: string, d: Decoder): (r: Result<seq<Byte>, DecodeError>)
    requires Sound(d)
    ensures r != Err(NonAscii)
    ensures r.Ok? ==> d.out <= r.value
    decreases |s|
  {
    if s == [] then
      if d.quad == 0 then Ok(d.out)
      else if d.quad == 1 then Err(DanglingChar)
      else Err(IncorrectPadding)
    else if s[0] == Pad then
      if d.quad >= 2 && d.quad + d.pads + 1 >= 4 then Ok(d.out)
      else Run(s[1..], if d.quad >= 2 then d.(pads := d.pads + 1) else d)
    else
      match SextetValue(s[0])
      case None => Run(s[1..], d)
      case Some(v) => Run(s[1..], Feed(d, v))
  }

  /** `base64.b64decode(s)`: a string argument must be ASCII, then the loop runs from the empty state. */
  function Decode(s: string): (r: Result<seq<Byte>, DecodeError>)
    ensures r == Err(NonAscii) <==> exists i :: 0 <= i < |s| && s[i] as int > 127
  {
    if exists i :: 0 <= i < |s| && s[i] as int > 127 then Err(NonAscii)
    else Run(s, Decoder(0, 0, 0, []))
  }

  /** Section 4 of RFC 4648: three bytes become four characters, a final one or two bytes are padded. */
  function Encode(b: seq<Byte>): (s: string)
    ensures |s| == (|b| + 2) / 3 * 4
    ensures EncodingText(s)
  {
    if |b| == 0 then ""
    else if |b| == 1 then OneByte(b[0])
    else if |b| == 2 then TwoBytes(b[0], b[1])
    else
      var rest := Encode(b[3..]);
      EncodingTextAppend(Quantum(b[0], b[1], b[2]), rest);
      QuantumCount(|b| - 3);
      Quantum(b[0], b[1], b[2]) + rest
  }

  /** Three bytes: four data characters. */
  function Quantum(x: Byte, y: Byte, z: Byte): (s: string)
    ensures |s| == 4 && EncodingText(s)
  {
    var s := [SextetChar(x / 4), SextetChar(x % 4 * 16 + y / 16), SextetChar(y % 16 * 4 + z / 64), SextetChar(z % 64)];
    FourChars(s);
    s
  }

  /** A final byte: two data characters and two pads. */
  function OneByte(x: Byte): (s: string)
    ensures |s| == 4 && EncodingText(s)
  {
    var s := [SextetChar(x / 4), SextetChar(x % 4 * 16), Pad, Pad];
    FourChars(s);
    s
  }

  /** Two final bytes: three data characters and one pad. */
  function TwoBytes(x: Byte, y: Byte): (s: string)
    ensures |s| == 4 && EncodingText(s)
  {
    var s := [SextetChar(x / 4), SextetChar(x % 4 * 16 + y / 16), SextetChar(y % 16 * 4), Pad];
    FourChars(s);
    s
  }

  /** Every character is in the alphabet or the pad, and is ASCII. */
  predicate EncodingText(s: string) {
    forall i :: 0 <= i < |s| ==> IsEncodingChar(s[i]) && s[i] as int <= 127
  }

  lemma FourChars(s: string)
    requires |s| == 4
    requires IsEncodingChar(s[0]) && s[0] as int <= 127 && IsEncodingChar(s[1]) && s[1] as int <= 127
    requires IsEncodingChar(s[2]) && s[2] as int <= 127 && IsEncodingChar(s[3]) && s[3] as int <= 127
    ensures EncodingText(s)
  {
  }

  lemma EncodingTextAppend(a: string, b: string)
    requires EncodingText(a) && EncodingText(b)
    ensures EncodingText(a + b)
  {
    forall i | 0 <= i < |a + b| ensures IsEncodingChar((a + b)[i]) && (a + b)[i] as int <= 127 {
      if i < |a| {
        assert (a + b)[i] == a[i];
      } else {
        assert (a + b)[i] == b[i - |a|];
      }
    }
  }

  /** Three more bytes make one more quantum of four characters. */
  lemma QuantumCount(n: nat)
    ensures (n + 3 + 2) / 3 * 4 == (n + 2) / 3 * 4 + 4
  {
    assert (n + 3 + 2) / 3 == (n + 2) / 3 + 1;
  }

  lemma RunData(c: char, t: string, d: Decoder)
    requires Sound(d) && SextetValue(c).Some?
    ensures Run([c] + t, d) == Run(t, Feed(d, SextetValue(c).value))
  {
    assert ([c] + t)[1..] == t;
  }

  lemma RunPad(t: string, d: Decoder)
    requires Sound(d)
    ensures Run([Pad] + t, d) ==
      if d.quad >= 2 && d.quad + d.pads + 1 >= 4 then Ok(d.out)
      else Run(t, if d.quad >= 2 then d.(pads := d.pads + 1) else d)
  {
    assert ([Pad] + t)[1..] == t;
  }

  /** The four characters of a full quantum decode back to its three bytes. */
  lemma RunQuantum(x: Byte, y: Byte, z: Byte, rest: string, out: seq<Byte>)
    ensures Run([SextetChar(x / 4), SextetChar(x % 4 * 16 + y / 16),
                 SextetChar(y % 16 * 4 + z / 64), SextetChar(z % 64)] + rest,
                Decoder(0, 0, 0, out))
         == Run(rest, Decoder(0, 0, 0, out + [x, y, z]))
  {
    RunFour(SextetChar(x / 4), SextetChar(x % 4 * 16 + y / 16),
            SextetChar(y % 16 * 4 + z / 64), SextetChar(z % 64), rest, Decoder(0, 0, 0, out));
    FeedQuantum(x, y, z, out);
  }

  /** Four data characters feed the decoder their four values in order. */
  lemma RunFour(c0: char, c1: char, c2: char, c3: char, rest: string, d0: Decoder)
    requires Sound(d0)
    requires SextetValue(c0).Some? && SextetValue(c1).Some? && SextetValue(c2).Some? && SextetValue(c3).Some?
    ensures Run([c0, c1, c2, c3] + rest, d0) ==
      Run(rest, Feed(Feed(Feed(Feed(d0, SextetValue(c0).value), SextetValue(c1).value),
                          SextetValue(c2).value), SextetValue(c3).value))
  {
    var d1 := Feed(d0, SextetValue(c0).value);
    var d2 := Feed(d1, SextetValue(c1).value);
    var d3 := Feed(d2, SextetValue(c2).value);
    assert [c0, c1, c2, c3] + rest == [c0] + ([c1] + ([c2] + ([c3] + rest)));
    RunData(c0, [c1] + ([c2] + ([c3] + rest)), d0);
    RunData(c1, [c2] + ([c3] + rest), d1);
    RunData(c2, [c3] + rest, d2);
    RunData(c3, rest, d3);
  }

  /** The four sextets of three bytes rebuild exactly those bytes. */
  lemma FeedQuantum(x: Byte, y: Byte, z: Byte, out: seq<Byte>)
    ensures Feed(Feed(Feed(Feed(Decoder(0, 0, 0, out), x / 4), x % 4 * 16 + y / 16), y % 16 * 4 + z / 64), z % 64)
         == Decoder(0, 0, 0, out + [x, y, z])
  {
    assert (x % 4 * 16 + y / 16) / 16 == x % 4 && (x % 4 * 16 + y / 16) % 16 == y / 16;
    assert (y % 16 * 4 + z / 64) / 4 == y % 16 && (y % 16 * 4 + z / 64) % 4 == z / 64;
  }

  /** A final single byte: two data characters, then two pads that end the input. */
  lemma RunLastOne(x: Byte, out: seq<Byte>)
    ensures Run(Encode([x]), Decoder(0, 0, 0, out)) == Ok(out + [x])
  {
    var d0 := Decoder(0, 0, 0, out);
    var c0, c1 := SextetChar(x / 4), SextetChar(x % 4 * 16);
    var d1 := Feed(d0, x / 4);
    var d2 := Feed(d1, x % 4 * 16);
    assert d2 == Decoder(2, 0, 0, out + [x]);
    assert Encode([x]) == [c0] + ([c1] + ([Pad] + [Pad]));
    RunData(c0, [c1] + ([Pad] + [Pad]), d0);
    RunData(c1, [Pad] + [Pad], d1);
    RunPad([Pad], d2);
    RunPad([], d2.(pads := 1));
  }

  /** A final pair of bytes: three data characters, then one pad that ends the input. */
  lemma RunLastTwo(x: Byte, y: Byte, out: seq<Byte>)
    ensures Run(Encode([x, y]), Decoder(0, 0, 0, out)) == Ok(out + [x, y])
  {
    var d0 := Decoder(0, 0, 0, out);
    var c0, c1, c2 := SextetChar(x / 4), SextetChar(x % 4 * 16 + y / 16), SextetChar(y % 16 * 4);
    var d1 := Feed(d0, x / 4);
    var d2 := Feed(d1, x % 4 * 16 + y / 16);
    var d3 := Feed(d2, y % 16 * 4);
    assert (x % 4 * 16 + y / 16) / 16 == x % 4 && (x % 4 * 16 + y / 16) % 16 == y / 16;
    assert d3 == Decoder(3, 0, 0, out + [x, y]);
    assert Encode([x, y]) == [c0] + ([c1] + ([c2] + [Pad]));
    RunData(c0, [c1] + ([c2] + [Pad]), d0);
    RunData(c1, [c2] + [Pad], d1);
    RunData(c2, [Pad], d2);
    RunPad([], d3);
  }

  lemma {:induction false} RunEncode(b: seq<Byte>, out: seq<Byte>)
    ensures Run(Encode(b), Decoder(0, 0, 0, out)) == Ok(out + b)
    decreases |b|
  {
    if |b| == 0 {
      assert out + b == out;
    } else if |b| == 1 {
      assert b == [b[0]];
      RunLastOne(b[0], out);
    } else if |b| == 2 {
      assert b == [b[0], b[1]];
      RunLastTwo(b[0], b[1], out);
    } else {
      EncodeQuantum(b);
      RunQuantum(b[0], b[1], b[2], Encode(b[3..]), out);
      RunEncode(b[3..], out + [b[0], b[1], b[2]]);
      QuantumThenRest(out, b);
    }
  }

  /** Three or more bytes: the first quantum's four characters, then the encoding of the rest. */
  lemma EncodeQuantum(b: seq<Byte>)
    requires |b| >= 3
    ensures Encode(b) ==
      [SextetChar(b[0] / 4), SextetChar(b[0] % 4 * 16 + b[1] / 16),
       SextetChar(b[1] % 16 * 4 + b[2] / 64), SextetChar(b[2] % 64)] + Encode(b[3..])
  {
  }

  lemma QuantumThenRest(out: seq<Byte>, b: seq<Byte>)
    requires |b| >= 3
    ensures out + [b[0], b[1], b[2]] + b[3..] == out + b
  {
    assert b == [b[0], b[1], b[2]] + b[3..];
  }

  /** Decoding what the encoder writes gives back the bytes. */
  lemma DecodeEncode(b: seq<Byte>)
    ensures Decode(Encode(b)) == Ok(b)
  {
    var s := Encode(b);
    assert !exists i :: 0 <= i < |s| && s[i] as int > 127;
    RunEncode(b, []);
    assert [] + b == b;
  }
}
