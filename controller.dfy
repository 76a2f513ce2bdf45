/** The `Bulb` object of the controller: it keeps a bulb's address and port
    and a socket, and sets the bulb's colour by sending the handshake and the
    colour-set frame.

    The socket is replaced by a ghost log `sent` of the messages handed to it,
    in order. Whether each socket call succeeds is decided by the network, so
    it is a parameter of each send (`SocketBehaviour`). */
module Controller {
  import opened ColorFrame

  /** Why `update_color` raises before anything is sent: the colour tuple has
      other than three parts (the length assertion), or one channel is not a
      byte (`chr` rejects it). `index` is the first bad channel, 0 = red. */
  datatype ColorError = WrongArity(length: nat) | ChannelOutOfRange(index: nat)

  /** How `update_color` ends: it returns, or it raises a colour error. Socket
      errors never escape. */
  datatype Outcome = Returned | Raised(error: ColorError)

  /** The number of a socket call within one send sequence. `_send` makes
      five socket calls, numbered from 0: send, recv, send, recv, send. */
  type SocketCall = k: nat | k < 5

  /** What the socket does during one send sequence: either all five calls
      succeed, or the call numbered `call` is the first to raise. */
  datatype SocketBehaviour = AllSucceed | RaisesAt(call: SocketCall)

  /** Whether socket call `k` of a send sequence returns normally. */
  predicate Completes(sock: SocketBehaviour, k: nat)
  {
    sock.AllSucceed? || k < sock.call
  }

  /** How many of the three handshake messages reach the socket: message `j`
      is handed over by socket call `2 * j`, and gets there exactly when that
      call and every call before it complete. */
  function Delivered(sock: SocketBehaviour): (n: nat)
    ensures n <= 3
    ensures forall j :: 0 <= j < 3 ==> (j < n <==> Completes(sock, 2 * j))
  {
    match sock
    case AllSucceed => 3
    case RaisesAt(k) => (k + 1) / 2
  }

  /** All three messages are handed over exactly when none of the five
      socket calls of the sequence raises; after a failure at the very first
      call (as on a socket that never connected) nothing is sent. */
  lemma DeliveredAllIffNoFailure(sock: SocketBehaviour)
    ensures Delivered(sock) == 3 <==> forall k :: 0 <= k < 5 ==> Completes(sock, k)
    ensures Delivered(sock) == 3 <==> sock == AllSucceed
    ensures sock == RaisesAt(0) ==> Delivered(sock) == 0
  {
    if Delivered(sock) != 3 {
      assert !Completes(sock, 4);
    }
  }

  /** The validation `update_color` performs on a colour tuple before it
      builds the frame: the length assertion first, then `chr` on red, green
      and blue in that order. */
  function ParseColor(color: seq<int>): (r: Result)
    ensures r.Ok? <==> |color| == 3 && forall i :: 0 <= i < 3 ==> 0 <= color[i] < 256
    ensures r.Ok? ==> color == [r.c.r as int, r.c.g as int, r.c.b as int]
    ensures |color| != 3 ==> r == Err(WrongArity(|color|))
    ensures |color| == 3 && r.Err? ==> r.error.ChannelOutOfRange?
    ensures r.Err? && r.error.ChannelOutOfRange? ==>
      |color| == 3 && r.error.index < 3 && !(0 <= color[r.error.index] < 256) &&
      forall i :: 0 <= i < r.error.index ==> 0 <= color[i] < 256
  {
    if |color| != 3 then Err(WrongArity(|color|))
    else if !(0 <= color[0] < 256) then Err(ChannelOutOfRange(0))
    else if !(0 <= color[1] < 256) then Err(ChannelOutOfRange(1))
    else if !(0 <= color[2] < 256) then Err(ChannelOutOfRange(2))
    else Ok(Color(color[0] as byte, color[1] as byte, color[2] as byte))
  }

  datatype Result = Ok(c: Color) | Err(error: ColorError)

  // The colours the controller names, as the tuples it passes to update_color.
  const Orange: seq<int> := [255, 128, 0]
  const Purple: seq<int> := [255, 0, 255]
  const Red: seq<int> := [255, 0, 0]
  const Blue: seq<int> := [0, 0, 255]
  const Green: seq<int> := [0, 255, 0]
  const Black: seq<int> := [0, 0, 0]
  const White: seq<int> := [255, 255, 255]
  const DarkPurple: seq<int> := [76, 0, 153]
  const BloodRed: seq<int> := [202, 0, 0]
  const XmasRed: seq<int> := [253, 89, 89]
  const XmasGreen: seq<int> := [57, 252, 96]
  const Pink: seq<int> := [255, 153, 255]

  /** Every named colour is a valid colour, and encodes to the frame below
      (its last byte is the checksum). */
  lemma NamedColourFrames()
    ensures ParseColor(Red).Ok? && EncodeFrame(ParseColor(Red).c) == [0x31, 0xFF, 0x00, 0x00, 0x00, 0xF0, 0x0F, 0x2F]
    ensures ParseColor(Orange).Ok? && EncodeFrame(ParseColor(Orange).c) == [0x31, 0xFF, 0x80, 0x00, 0x00, 0xF0, 0x0F, 0xAF]
    ensures ParseColor(Purple).Ok? && EncodeFrame(ParseColor(Purple).c) == [0x31, 0xFF, 0x00, 0xFF, 0x00, 0xF0, 0x0F, 0x2E]
    ensures ParseColor(Blue).Ok? && EncodeFrame(ParseColor(Blue).c) == [0x31, 0x00, 0x00, 0xFF, 0x00, 0xF0, 0x0F, 0x2F]
    ensures ParseColor(Green).Ok? && EncodeFrame(ParseColor(Green).c) == [0x31, 0x00, 0xFF, 0x00, 0x00, 0xF0, 0x0F, 0x2F]
    ensures ParseColor(Black).Ok? && EncodeFrame(ParseColor(Black).c) == [0x31, 0x00, 0x00, 0x00, 0x00, 0xF0, 0x0F, 0x30]
    ensures ParseColor(White).Ok? && EncodeFrame(ParseColor(White).c) == [0x31, 0xFF, 0xFF, 0xFF, 0x00, 0xF0, 0x0F, 0x2D]
    ensures ParseColor(DarkPurple).Ok? && EncodeFrame(ParseColor(DarkPurple).c) == [0x31, 0x4C, 0x00, 0x99, 0x00, 0xF0, 0x0F, 0x15]
    ensures ParseColor(BloodRed).Ok? && EncodeFrame(ParseColor(BloodRed).c) == [0x31, 0xCA, 0x00, 0x00, 0x00, 0xF0, 0x0F, 0xFA]
    ensures ParseColor(XmasRed).Ok? && EncodeFrame(ParseColor(XmasRed).c) == [0x31, 0xFD, 0x59, 0x59, 0x00, 0xF0, 0x0F, 0xDF]
    ensures ParseColor(XmasGreen).Ok? && EncodeFrame(ParseColor(XmasGreen).c) == [0x31, 0x39, 0xFC, 0x60, 0x00, 0xF0, 0x0F, 0xC5]
    ensures ParseColor(Pink).Ok? && EncodeFrame(ParseColor(Pink).c) == [0x31, 0xFF, 0x99, 0xFF, 0x00, 0xF0, 0x0F, 0xC7]
  {
    EncodeFrameClosedForm(ParseColor(Red).c);
    EncodeFrameClosedForm(ParseColor(Orange).c);
    EncodeFrameClosedForm(ParseColor(Purple).c);
    EncodeFrameClosedForm(ParseColor(Blue).c);
    EncodeFrameClosedForm(ParseColor(Green).c);
    EncodeFrameClosedForm(ParseColor(Black).c);
    EncodeFrameClosedForm(ParseColor(White).c);
    EncodeFrameClosedForm(ParseColor(DarkPurple).c);
    EncodeFrameClosedForm(ParseColor(BloodRed).c);
    EncodeFrameClosedForm(ParseColor(XmasRed).c);
    EncodeFrameClosedForm(ParseColor(XmasGreen).c);
    EncodeFrameClosedForm(ParseColor(Pink).c);
  }

  /** The pair (1, 1) is refused by the length assertion. */
  lemma PairRejected()
    ensures ParseColor([1, 1]) == Err(WrongArity(2))
  {
  }

  class Bulb {
    var ipAddress: string
    var port: int

    /** The messages handed to the socket so far, oldest first. */
    ghost var sent: seq<seq<byte>>

    /** A bulb at the given address; its fresh socket has sent nothing. */
    constructor (ipAddress: string, port: int)
      ensures this.ipAddress == ipAddress && this.port == port
      ensures sent == []
    {
      this.ipAddress := ipAddress;
      this.port := port;
      sent := [];
    }

    /** Opens the socket to the bulb. A failure to connect is swallowed, so
        this never raises; it sends no message and changes no field. */
    method Connect()
      ensures sent == old(sent)
      ensures ipAddress == old(ipAddress) && port == old(port)
    {
    }

    /** Sends the probe, the continuation and `message`, reading (and
        ignoring) a reply after each of the first two. A socket error stops
        the sequence and is swallowed: the log grows by the messages handed
        over before it, a prefix of the three, and all three on success. */
    method Send(message: seq<byte>, sock: SocketBehaviour)
      modifies this`sent
      ensures ipAddress == old(ipAddress) && port == old(port)
      ensures sent == old(sent) + Handshake(message)[..Delivered(sock)]
    {
      // send(probe)
      if !Completes(sock, 0) { return; }
      sent := sent + [Probe];
      // recv(1000), reply ignored
      if !Completes(sock, 1) { return; }
      // send(continuation)
      if !Completes(sock, 2) { return; }
      sent := sent + [Continuation];
      // recv(1000), reply ignored
      if !Completes(sock, 3) { return; }
      // send(message)
      if !Completes(sock, 4) { return; }
      sent := sent + [message];
    }

    /** Sets the bulb's colour. A colour tuple of the wrong length, or with a
        channel outside 0..255, raises before any byte is sent. Otherwise the
        frame for the colour is built and sent after the handshake; socket
        errors are swallowed and the call returns. */
    method UpdateColor(color: seq<int>, sock: SocketBehaviour) returns (outcome: Outcome)
      modifies this`sent
      ensures ipAddress == old(ipAddress) && port == old(port)
      ensures ParseColor(color).Err? ==>
        outcome == Raised(ParseColor(color).error) && sent == old(sent)
      ensures ParseColor(color).Ok? ==>
        outcome == Returned &&
        sent == old(sent) + Handshake(EncodeFrame(ParseColor(color).c))[..Delivered(sock)]
    {
      if |color| != 3 {
        return Raised(WrongArity(|color|));
      }
      var r, g, b := color[0], color[1], color[2];
      if !(0 <= r < 256) { return Raised(ChannelOutOfRange(0)); }
      if !(0 <= g < 256) { return Raised(ChannelOutOfRange(1)); }
      if !(0 <= b < 256) { return Raised(ChannelOutOfRange(2)); }
      var msg := [SetColorOpcode];
      msg := msg + [r as byte, g as byte, b as byte];
      msg := msg + Trailer;
      msg := msg + [Checksum(msg)];
      assert msg == EncodeFrame(Color(r as byte, g as byte, b as byte));
      Send(msg, sock);
      return Returned;
    }
  }
}
