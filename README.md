# Magic Home / flux LED bulb controller — Dafny model

This project models the part of the `controlthosebulbs` controller that does
real work: how the `Bulb` class in `controller.py` sets a Wi-Fi bulb's colour.
It uses the vendor's undocumented "flux LED" / Magic Home protocol over TCP.
Each colour update sends three messages in order:

1. a fixed 4-byte handshake probe, `81 8A 8B 96`;
2. a fixed 12-byte handshake continuation, `10 14 0F 08 0D 05 16 15 04 00 0F 8B`;
3. the 8-byte colour-set frame `31 R G B 00 F0 0F C`, where `C` is the sum of
   the first seven bytes modulo 256.

The client ignores the bulb's replies to the first two messages. It swallows
any socket error.

- `frame.dfy` (module `ColorFrame`) holds the pure part. It defines the byte
  type, the frame encoder and the additive checksum. It also defines
  `DecodeFrame`, the model's well-formedness check for a colour-set frame and
  the inverse of the encoder. It says nothing about what the bulb's firmware
  accepts, which is not documented. The lemmas prove these facts:
  - decoding undoes encoding, in both directions;
  - encoding is injective;
  - the checksum has a closed form;
  - the checksum can be computed piecewise;
  - `DecodeFrame` rejects a frame in which any single byte was changed.
- `controller.dfy` (module `Controller`) holds the `Bulb` class. Its fields are
  the address and port. The socket is replaced by a ghost log `sent` of the
  messages handed to it. The network decides whether each socket call
  succeeds, so this is a parameter of each send (`SocketBehaviour`: either
  all five socket calls of `_send` succeed, or call 0..4 is the first to
  raise). The module also checks the colour tuple as `update_color` does, defines the
  named colour constants, and proves each constant's frame.

The checksum of the RED frame `(255, 0, 0)` is `0x2F`:
0x31 + 0xFF + 0x00 + 0x00 + 0x00 + 0xF0 + 0x0F = 0x22F, and 0x22F mod 256 =
0x2F. `Controller.NamedColourFrames` proves it.

Socket errors during connecting and sending are caught and printed, and the
call returns normally. So in the model `Connect` and `Send` never fail, and
only colour validation raises.

## Model

| member | source | states |
|---|---|---|
| ColorFrame.Handshake | controller.py:57-62 | one colour update sends exactly three messages: the 4-byte probe, the 12-byte continuation, then the frame unchanged, in that order |
| ColorFrame.ChecksumOfConcat | controller.py:78 | the checksum of a concatenation is the sum of the parts' byte sums modulo 256, so it can be computed piecewise |
| ColorFrame.EncodeFrame | controller.py:75-78 | for every colour, the frame is 8 bytes: byte 0 is opcode 0x31, bytes 1-3 are r, g, b in order, bytes 4-6 are the trailer 00 F0 0F, and byte 7 is the checksum of bytes 0-6 |
| ColorFrame.DecodeFrame | controller.py:71-78 | the model's well-formedness check, the inverse of the encoder: a frame is accepted only if it has 8 bytes, and the colour it yields is read from bytes 1-3 |
| ColorFrame.SumAppend | controller.py:78 | the byte sum behind the checksum distributes over concatenation |
| ColorFrame.SumUpdate | controller.py:78 | replacing one byte changes the byte sum by exactly the difference between the new and old values |
| ColorFrame.EncodeFrameClosedForm | controller.py:75-78 | the frame is `31 r g b 00 F0 0F`, followed by the checksum (0x130 + r + g + b) mod 256 |
| ColorFrame.DecodeEncode | controller.py:71-78 | round trip: decoding the frame of any colour gives back that colour |
| ColorFrame.EncodeDecode | controller.py:75-78 | converse round trip: every accepted frame is exactly the encoding of the colour decoded from it |
| ColorFrame.EncodeFrameInjective | controller.py:71-78 | two colours give byte-identical frames if and only if they are the same colour, so encoding is deterministic and injective |
| ColorFrame.SingleByteCorruptionDetected | controller.py:77-78 | changing any single byte of an encoded frame to a different value makes `DecodeFrame` reject it |
| Controller.Delivered | controller.py:56-64 | handshake message j reaches the socket if and only if its send call (socket call 2j) and every earlier socket call complete; at most three messages are delivered |
| Controller.DeliveredAllIffNoFailure | controller.py:56-64 | all three messages are delivered if and only if none of the five socket calls raises; that is, exactly when the behaviour is `AllSucceed`; a failure at the first call delivers nothing |
| Controller.ParseColor | controller.py:68-76 | a colour is accepted if and only if it has exactly three parts, each in 0..255; the channels are then taken in order; a tuple of the wrong length gives WrongArity; a three-part tuple that is rejected always gives ChannelOutOfRange, naming the first channel out of range |
| Controller.NamedColourFrames | controller.py:22-33 | each of the twelve named colours is valid; the lemma states each one's frame, e.g. RED gives `31 FF 00 00 00 F0 0F 2F` |
| Controller.PairRejected | tests.py:12-13 | the pair (1, 1) is refused by the length check |
| Controller.Bulb.constructor | controller.py:39-45 | a new bulb keeps the given address and port and has sent nothing |
| Controller.Bulb.Connect | controller.py:47-52 | connecting never raises, sends nothing and leaves address and port unchanged |
| Controller.Bulb.Send | controller.py:54-64 | the send log grows by a prefix of [probe, continuation, message]: all three when no socket call fails, otherwise those handed over before the failure; no error escapes; address and port are unchanged |
| Controller.Bulb.UpdateColor | controller.py:66-82 | a tuple with the wrong length or a channel outside 0..255 raises, and no byte is sent; otherwise the call returns, and the log grows by the handshake prefix ending in the colour's encoded frame; address and port are unchanged |

## Left out

- The socket itself is not modelled: opening the connection, the contents of `recv(1000)` and timeouts. The socket is the ghost send log, and the per-call socket outcome is a parameter. The replies are discarded by the code, so nothing depends on them.
- Controller.Bulb.Send: `socket.send` may hand over only part of a message, and the code ignores its return value. The model treats each send as all-or-nothing.
- Controller.Bulb.Connect: the socket's connected state is not modelled, because the code keeps no such flag. A send on a socket that never connected raises at its first call. That case is `RaisesAt(0)` for `Send`, and it delivers nothing.
- The `print` diagnostics and the `DEBUG_LEVEL` output are console I/O.
- `purple_green_cycle`, `xmas_red_green_pulse` and `pulse` are left out:
  - they are endless loops paced by `time.sleep`;
  - their delay checks compare floating-point numbers;
  - their only other work is calling `update_color` in a fixed order.
- `fall_orange`, `blood_red`, `get_bulb` and `main` are one-line wrappers around `update_color`, the constructor and `Connect`.
- The environment-variable configuration (`MAGIC_BULB_IP`, `MAGIC_BULB_PORT`, `MAGIC_LIGHT_DEBUG`) is process start-up plumbing. The address and port are plain constructor parameters.
- A colour channel that is not an integer (a float, say, which makes `chr` raise a `TypeError`) is not modelled. Channels are `int`, and a value outside 0..255 is the `ChannelOutOfRange` error.
