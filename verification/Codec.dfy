/**
 The binary envelope shared by the agent, the sidecar, the SDKs and the browser
 terminal: one type byte, a big-endian channel, a big-endian request id, and the payload.
 */
module Codec {
  import opened Integers
  import opened Wrappers

  const HEADER_SIZE := 9

  const MSG_PING: uint8 := 0x01
  const MSG_PONG: uint8 := 0x02
  const MSG_ERROR: uint8 := 0x03
  const MSG_ACK: uint8 := 0x04
  const MSG_EXEC_STDOUT: uint8 := 0x22
  const MSG_EXEC_STDERR: uint8 := 0x23
  const MSG_EXEC_EXIT: uint8 := 0x24
  const MSG_FS_READ: uint8 := 0x30
  const MSG_FS_LIST: uint8 := 0x32
  const MSG_FS_EVENT: uint8 := 0x35
  const MSG_PORT_OPEN: uint8 := 0x40
  const MSG_PORT_CLOSE: uint8 := 0x41
  const MSG_SANDBOX_READY: uint8 := 0x50

  datatype Envelope = Envelope(msgType: uint8, channel: uint32, id: uint32, payload: seq<uint8>)

  datatype DecodeError = TooShort(length: nat)

  /** The four big-endian bytes of a 32-bit number. */
  function BigEndian(n: uint32): (b: seq<uint8>)
    ensures |b| == 4
  {
    var high := n / 0x100 / 0x100;
    [high / 0x100, high % 0x100, n / 0x100 % 0x100, n % 0x100]
  }

  function FromBigEndian(b: seq<uint8>): uint32
    requires |b| == 4
  {
    (((b[0] as int * 0x100) + b[1] as int) * 0x100 + b[2] as int) * 0x100 + b[3] as int
  }

  lemma BigEndianRoundTrip(n: uint32)
    ensures FromBigEndian(BigEndian(n)) == n
  {}

  lemma FromBigEndianRoundTrip(b: seq<uint8>)
    requires |b| == 4
    ensures BigEndian(FromBigEndian(b)) == b
  {
    var n := FromBigEndian(b);
    assert n / 0x100 == ((b[0] as int * 0x100) + b[1] as int) * 0x100 + b[2] as int;
    assert n / 0x100 / 0x100 == b[0] as int * 0x100 + b[1] as int;
  }

  /** The frame that stands for an envelope on the wire. */
  function Frame(e: Envelope): (data: seq<uint8>)
    ensures |data| == HEADER_SIZE + |e.payload|
  {
    [e.msgType] + BigEndian(e.channel) + BigEndian(e.id) + e.payload
  }

  function Decode(data: seq<uint8>): Result<Envelope, DecodeError>
  {
    if |data| < HEADER_SIZE then Err(TooShort(|data|))
    else Ok(Envelope(data[0], FromBigEndian(data[1..5]), FromBigEndian(data[5..9]), data[HEADER_SIZE..]))
  }

  /** Fills a fresh buffer in place, header first, then the payload byte by byte. */
  method Encode(e: Envelope) returns (data: seq<uint8>)
    ensures data == Frame(e)
  {
    hide BigEndian;
    var buf := new uint8[HEADER_SIZE + |e.payload|];
    buf[0] := e.msgType;
    PutUint32(buf, 1, e.channel);
    PutUint32(buf, 5, e.id);
    var i := 0;
    while i < |e.payload|
      invariant 0 <= i <= |e.payload|
      invariant buf[..HEADER_SIZE] == [e.msgType] + BigEndian(e.channel) + BigEndian(e.id)
      invariant buf[HEADER_SIZE..HEADER_SIZE + i] == e.payload[..i]
    {
      buf[HEADER_SIZE + i] := e.payload[i];
      i := i + 1;
    }
    data := buf[..];
    assert data == buf[..HEADER_SIZE] + buf[HEADER_SIZE..HEADER_SIZE + i];
  }

  method PutUint32(buf: array<uint8>, at: nat, n: uint32)
    requires at + 4 <= buf.Length
    modifies buf
    ensures buf[..] == old(buf[..at]) + BigEndian(n) + old(buf[at + 4..])
  {
    buf[at], buf[at + 1], buf[at + 2], buf[at + 3] :=
      n / 0x100 / 0x100 / 0x100, n / 0x100 / 0x100 % 0x100, n / 0x100 % 0x100, n % 0x100;
  }

  /** Decoding a frame gives back the envelope. */
  lemma DecodeFrame(e: Envelope)
    ensures Decode(Frame(e)) == Ok(e)
  {
    var data := Frame(e);
    assert data[1..5] == BigEndian(e.channel);
    assert data[5..9] == BigEndian(e.id);
    assert data[HEADER_SIZE..] == e.payload;
    BigEndianRoundTrip(e.channel);
    BigEndianRoundTrip(e.id);
  }

  /** Byte by byte: the type, channel and id with their highest byte first, and the payload. */
  lemma FrameBytes(e: Envelope)
    ensures var data := Frame(e);
            && |data| == 9 + |e.payload| && data[0] == e.msgType && data[9..] == e.payload
            && data[1] as int * 0x100_0000 + data[2] as int * 0x1_0000 + data[3] as int * 0x100 + data[4] as int == e.channel
            && data[5] as int * 0x100_0000 + data[6] as int * 0x1_0000 + data[7] as int * 0x100 + data[8] as int == e.id
  {
    var data := Frame(e);
    assert data[1..5] == BigEndian(e.channel) && data[5..9] == BigEndian(e.id);
    BigEndianRoundTrip(e.channel);
    BigEndianRoundTrip(e.id);
  }

  /** Every input of at least nine bytes decodes, to the one envelope whose frame it is. */
  lemma DecodeExactly(data: seq<uint8>, e: Envelope)
    ensures Decode(data).Ok? <==> |data| >= HEADER_SIZE
    ensures Decode(data) == Ok(e) <==> data == Frame(e)
  {
    DecodeFrame(e);
    if Decode(data) == Ok(e) {
      FromBigEndianRoundTrip(data[1..5]);
      FromBigEndianRoundTrip(data[5..9]);
      assert data == data[..1] + data[1..5] + data[5..9] + data[9..];
    }
  }

  /** The frames of several messages, in order. */
  function Frames(es: seq<Envelope>): (frames: seq<seq<uint8>>)
    ensures |frames| == |es|
  {
    if es == [] then [] else Frames(es[..|es| - 1]) + [Frame(es[|es| - 1])]
  }

  lemma {:induction false} FramesWithoutFirst(es: seq<Envelope>)
    requires es != []
    ensures Frames(es)[1..] == Frames(es[1..])
  {
    hide Frame;
    if |es| > 1 {
      FramesWithoutFirst(es[..|es| - 1]);
      assert es[1..][..|es| - 2] == es[..|es| - 1][1..];
    }
  }

  /** Reading the frames one by one gives the messages back, in order. */
  lemma {:induction false} FramesDecode(es: seq<Envelope>)
    ensures forall i :: 0 <= i < |es| ==> Decode(Frames(es)[i]) == Ok(es[i])
  {
    hide Decode, Frame;
    if es != [] {
      FramesDecode(es[..|es| - 1]);
      DecodeFrame(es[|es| - 1]);
    }
  }
}
