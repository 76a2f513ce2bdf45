/** The colour-set command of the "flux LED" / Magic Home bulb protocol.

    A command is an 8-byte frame: the opcode 0x31, the red, green and blue
    channel bytes, the fixed trailer 00 F0 0F, and an additive checksum (the
    sum of the seven preceding bytes modulo 256). Before that frame the client
    sends two fixed handshake messages, a probe and a continuation.

    `DecodeFrame` is this model's well-formedness check for a colour-set
    frame and the inverse of `EncodeFrame`: the lemmas below prove that it
    undoes `EncodeFrame`, that it accepts nothing else, and that it rejects a
    frame in which any single byte was changed. */
module ColorFrame {

  /** An unsigned 8-bit value, as one character of a Python 2 byte string. */
  newtype byte = x: int | 0 <= x < 256

  /** One RGB colour whose channels are already known to be bytes. */
  datatype Color = Color(r: byte, g: byte, b: byte)

  const SetColorOpcode: byte := 0x31
  const Trailer: seq<byte> := [0x00, 0xF0, 0x0F]
  const FrameLength: nat := 8

  /** The handshake probe, sent first on every colour update. */
  const Probe: seq<byte> := [0x81, 0x8A, 0x8B, 0x96]

  /** The handshake continuation, sent second on every colour update. */
  const Continuation: seq<byte> := [0x10, 0x14, 0x0F, 0x08, 0x0D, 0x05, 0x16, 0x15, 0x04, 0x00, 0x0F, 0x8B]

  /** The three messages of one colour update, in the order they go on the wire. */
  function Handshake(frame: seq<byte>): (msgs: seq<seq<byte>>)
    ensures |msgs| == 3 && msgs[2] == frame
    ensures |msgs[0]| == 4 && |msgs[1]| == 12
  {
    [Probe, Continuation, frame]
  }

  /** The sum of the bytes of `s`, as Python's `sum(bytearray(s))`. */
  function Sum(s: seq<byte>): nat
  {
    if s == [] then 0 else s[0] as nat + Sum(s[1..])
  }

  /** The additive checksum: the byte sum modulo 256. */
  function Checksum(s: seq<byte>): byte
  {
    (Sum(s) % 256) as byte
  }

  /** The colour-set frame, built the way the source builds it: the opcode,
      the three channels, the trailer, then the checksum of what came before. */
  function EncodeFrame(c: Color): (f: seq<byte>)
    ensures |f| == FrameLength
    ensures f[0] == SetColorOpcode
    ensures f[1] == c.r && f[2] == c.g && f[3] == c.b
    ensures f[4..7] == Trailer
    ensures f[7] == Checksum(f[..7])
  {
    var body := [SetColorOpcode] + [c.r, c.g, c.b] + Trailer;
    assert body == (body + [Checksum(body)])[..7];
    body + [Checksum(body)]
  }

  /** The well-formedness check of a colour-set frame: exactly 8 bytes, the
      opcode, the trailer and a matching checksum; the colour is then read
      from bytes 1 to 3. */
  function DecodeFrame(f: seq<byte>): (r: Option<Color>)
    ensures r.Some? ==> |f| == FrameLength && f[1..4] == [r.value.r, r.value.g, r.value.b]
  {
    if |f| == FrameLength && f[0] == SetColorOpcode && f[4..7] == Trailer && f[7] == Checksum(f[..7])
    then Some(Color(f[1], f[2], f[3]))
    else None
  }

  datatype Option<T> = None | Some(value: T)

  /** The byte sum distributes over concatenation. */
  lemma {:induction false} SumAppend(a: seq<byte>, b: seq<byte>)
    ensures Sum(a + b) == Sum(a) + Sum(b)
  {
    if a == [] {
      assert a + b == b;
    } else {
      assert (a + b)[1..] == a[1..] + b;
      SumAppend(a[1..], b);
    }
  }

  /** The checksum can be computed piecewise: the checksum of a
      concatenation depends only on the byte sums of its parts. */
  lemma ChecksumOfConcat(a: seq<byte>, b: seq<byte>)
    ensures Checksum(a + b) as int == (Sum(a) + Sum(b)) % 256
  {
    SumAppend(a, b);
  }

  /** Replacing one byte changes the sum by exactly the difference. */
  lemma {:induction false} SumUpdate(s: seq<byte>, i: nat, v: byte)
    requires i < |s|
    ensures Sum(s[i := v]) == Sum(s) - s[i] as int + v as int
  {
    if i == 0 {
      assert s[i := v][1..] == s[1..];
    } else {
      assert s[i := v][1..] == s[1..][i - 1 := v];
      SumUpdate(s[1..], i - 1, v);
    }
  }

  /** The whole frame in closed form: the fixed bytes contribute
      0x31 + 0x00 + 0xF0 + 0x0F = 0x130 to the checksum. */
  lemma EncodeFrameClosedForm(c: Color)
    ensures EncodeFrame(c) ==
      [SetColorOpcode, c.r, c.g, c.b, 0x00, 0xF0, 0x0F,
       ((0x130 + c.r as int + c.g as int + c.b as int) % 256) as byte]
  {
    var f := EncodeFrame(c);
    assert f[..7] == [SetColorOpcode, c.r, c.g, c.b] + Trailer;
    SumAppend([SetColorOpcode, c.r, c.g, c.b], Trailer);
    SumAppend([SetColorOpcode], [c.r, c.g, c.b]);
    SumAppend([c.r], [c.g, c.b]);
    SumAppend([c.g], [c.b]);
  }

  /** Round trip: decoding gives back exactly the colour that was encoded. */
  lemma DecodeEncode(c: Color)
    ensures DecodeFrame(EncodeFrame(c)) == Some(c)
  {
  }

  /** Converse round trip: every frame the check accepts is the encoding of
      the colour it reads, so nothing else is well formed. */
  lemma EncodeDecode(f: seq<byte>, c: Color)
    requires DecodeFrame(f) == Some(c)
    ensures EncodeFrame(c) == f
  {
    var e := EncodeFrame(c);
    forall i | 0 <= i < FrameLength
      ensures e[i] == f[i]
    {
      if 4 <= i < 7 {
        assert e[i] == e[4..7][i - 4] && f[i] == f[4..7][i - 4];
      } else if i == 7 {
        assert e[..7] == f[..7] by {
          forall j | 0 <= j < 7 ensures e[j] == f[j] {
            if 4 <= j {
              assert e[j] == e[4..7][j - 4] && f[j] == f[4..7][j - 4];
            }
          }
        }
      }
    }
  }

  /** Encoding is deterministic and injective: two colours give the same
      frame exactly when they are the same colour. */
  lemma EncodeFrameInjective(c1: Color, c2: Color)
    ensures EncodeFrame(c1) == EncodeFrame(c2) <==> c1 == c2
  {
    if EncodeFrame(c1) == EncodeFrame(c2) {
      DecodeEncode(c1);
      DecodeEncode(c2);
    }
  }

  /** The checksum detects any single corrupted byte: changing one byte of an
      encoded frame to a different value makes `DecodeFrame` reject it. */
  lemma SingleByteCorruptionDetected(c: Color, i: nat, v: byte)
    requires i < FrameLength
    requires v != EncodeFrame(c)[i]
    ensures DecodeFrame(EncodeFrame(c)[i := v]) == None
  {
    var f := EncodeFrame(c);
    var g := f[i := v];
    if 1 <= i < 4 {
      assert g[..7] == f[..7][i := v];
      SumUpdate(f[..7], i, v);
      assert g[7] == f[7];
    } else if 4 <= i < 7 {
      assert g[4..7][i - 4] == v;
      assert f[4..7][i - 4] == f[i];
    } else if i == 7 {
      assert g[..7] == f[..7];
    }
  }
}
