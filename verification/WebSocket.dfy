/** WebSocket frames, sections 5.2 and 5.3 of RFC 6455, as the soak probe sends
    and reads them. */
module WebSocket {
  import opened Text
  import opened Chunks
  import opened Bytes

  datatype Frame = Frame(fin: bool, opcode: byte, payload: seq<byte>)

  // ----- network byte order -----

  function Pow256(width: nat): (r: nat)
    ensures r > 0
  {
    if width == 0 then 1 else 256 * Pow256(width - 1)
  }

  function Pack(n: nat, width: nat): (r: seq<byte>)
    ensures |r| == width
  {
    if width == 0 then [] else Pack(n / 256, width - 1) + [ToByte(n % 256)]
  }

  function Unpack(bytes: seq<byte>): nat {
    if bytes == [] then 0 else Unpack(bytes[..|bytes| - 1]) * 256 + ToNat(bytes[|bytes| - 1])
  }

  lemma UnpackSnoc(bytes: seq<byte>, b: byte)
    ensures Unpack(bytes + [b]) == Unpack(bytes) * 256 + ToNat(b)
  {
    assert (bytes + [b])[..|bytes|] == bytes;
  }

  lemma {:induction false} UnpackPack(n: nat, width: nat)
    requires n < Pow256(width)
    ensures Unpack(Pack(n, width)) == n
    decreases width
  {
    if width > 0 {
      UnpackPack(n / 256, width - 1);
      ByteRoundTrip(n % 256);
      UnpackSnoc(Pack(n / 256, width - 1), ToByte(n % 256));
    }
  }

  // ----- frames as bytes -----

  function Masked(payload: seq<byte>, mask: seq<byte>): (r: seq<byte>)
    requires |mask| == 4
    ensures |r| == |payload|
  {
    seq(|payload|, i requires 0 <= i < |payload| => payload[i] ^ mask[i % 4])
  }

  lemma MaskedTwice(payload: seq<byte>, mask: seq<byte>)
    requires |mask| == 4
    ensures Masked(Masked(payload, mask), mask) == payload
  {
    forall i | 0 <= i < |payload| ensures (payload[i] ^ mask[i % 4]) ^ mask[i % 4] == payload[i] {
      XorTwice(payload[i], mask[i % 4]);
    }
  }

  lemma XorTwice(a: byte, m: byte)
    ensures (a ^ m) ^ m == a
  {
  }

  /** The length field of a masked frame: 7 bits, or an escape and 2 or 8 bytes. */
  function LengthField(length: nat): seq<byte> {
    if length < 126 then [0x80 | ToByte(length)]
    else if length < 65_536 then [0x80 | 126] + Pack(length, 2)
    else [0x80 | 127] + Pack(length, 8)
  }

  function Encode(opcode: byte, payload: seq<byte>, mask: seq<byte>): seq<byte>
    requires |mask| == 4
  {
    [0x80 | opcode] + LengthField(|payload|) + mask + Masked(payload, mask)
  }

  // ----- reading -----

  datatype Read<T> = Got(value: T, rest: seq<byte>) | Closed

  function Exactly(stream: seq<byte>, n: nat): Read<seq<byte>> {
    if |stream| < n then Closed else Got(stream[..n], stream[n..])
  }

  function ReadLength(b2: byte, stream: seq<byte>): Read<nat> {
    var short := ToNat(b2 & 0x7F);
    if short == 126 then
      var r := Exactly(stream, 2);
      if r.Closed? then Closed else Got(Unpack(r.value), r.rest)
    else if short == 127 then
      var r := Exactly(stream, 8);
      if r.Closed? then Closed else Got(Unpack(r.value), r.rest)
    else Got(short, stream)
  }

  function ReadPayload(masked: bool, length: nat, stream: seq<byte>): Read<seq<byte>> {
    var m := if masked then Exactly(stream, 4) else Got([0, 0, 0, 0], stream);
    if m.Closed? then Closed
    else
      var p := Exactly(m.rest, length);
      if p.Closed? then Closed
      else Got(if masked then Masked(p.value, m.value) else p.value, p.rest)
  }

  /** The frame at the front of a stream. */
  function Decode(stream: seq<byte>): Read<Frame> {
    var head := Exactly(stream, 2);
    if head.Closed? then Closed
    else
      DecodeBody(head.value[0], head.value[1], head.rest)
  }

  /** Decoding once the first two bytes are in. */
  function DecodeBody(b1: byte, b2: byte, stream: seq<byte>): Read<Frame> {
    var length := ReadLength(b2, stream);
    if length.Closed? then Closed
    else
      var p := ReadPayload(b2 & 0x80 != 0, length.value, length.rest);
      if p.Closed? then Closed else Got(Frame(b1 & 0x80 != 0, b1 & 0x0F, p.value), p.rest)
  }

  lemma DecodeParts(stream: seq<byte>, head: seq<byte>, rest: seq<byte>)
    requires Exactly(stream, 2) == Got(head, rest)
    ensures Decode(stream) == DecodeBody(head[0], head[1], rest)
  {
  }

  // ----- round trip -----

  lemma OpcodeByte(opcode: byte)
    requires opcode < 16
    ensures (0x80 | opcode) & 0x0F == opcode && (0x80 | opcode) & 0x80 != 0
  {
  }

  lemma LengthByte(b: byte)
    requires b < 128
    ensures (0x80 | b) & 0x7F == b && (0x80 | b) & 0x80 != 0
  {
  }

  lemma ShortLength(length: nat)
    requires length < 128
    ensures ToNat((0x80 | ToByte(length)) & 0x7F) == length && (0x80 | ToByte(length)) & 0x80 != 0
  {
    ByteRoundTrip(length);
    assert ToByte(length) < 128;
    LengthByte(ToByte(length));
  }

  lemma Pow256Values()
    ensures Pow256(2) == 65_536 && Pow256(8) == 0x1_0000_0000_0000_0000
  {
    assert Pow256(1) == 256;
    assert Pow256(3) == 0x100_0000;
    assert Pow256(4) == 0x1_0000_0000;
    assert Pow256(5) == 0x100_0000_0000;
    assert Pow256(6) == 0x1_0000_0000_0000;
    assert Pow256(7) == 0x100_0000_0000_0000;
  }

  lemma ExactlyAppend(a: seq<byte>, b: seq<byte>)
    ensures Exactly(a + b, |a|) == Got(a, b)
  {
    assert (a + b)[..|a|] == a && (a + b)[|a|..] == b;
  }

  lemma EscapeBytes()
    ensures ToNat((0x80 | 126) & 0x7F) == 126
    ensures ToNat((0x80 | 127) & 0x7F) == 127
  {
  }

  /** An escaped length reads back from the bytes after the escape. */
  lemma LongLength(escape: byte, length: nat, width: nat, rest: seq<byte>)
    requires (width == 2 && ToNat(escape & 0x7F) == 126) || (width == 8 && ToNat(escape & 0x7F) == 127)
    requires length < Pow256(width)
    ensures ReadLength(escape, Pack(length, width) + rest) == Got(length, rest)
  {
    ExactlyAppend(Pack(length, width), rest);
    UnpackPack(length, width);
  }

  /** The second byte and the length field read back the length, for every
      length a frame can carry. */
  lemma LengthRoundTrip(length: nat, rest: seq<byte>)
    requires length < 0x1_0000_0000_0000_0000
    ensures
      var field := LengthField(length);
      && |field| >= 1 && field[0] & 0x80 != 0
      && ReadLength(field[0], field[1..] + rest) == Got(length, rest)
  {
    var field := LengthField(length);
    Pow256Values();
    EscapeBytes();
    LengthByte(126);
    LengthByte(127);
    if length < 126 {
      ShortLength(length);
      assert field[1..] + rest == rest;
    } else {
      var width := if length < 65_536 then 2 else 8;
      assert field[1..] == Pack(length, width);
      LongLength(field[0], length, width, rest);
    }
  }

  /** Reading what was sent gives back the frame and leaves what follows. */
  lemma FrameRoundTrip(opcode: byte, payload: seq<byte>, mask: seq<byte>, rest: seq<byte>)
    requires opcode < 16 && |mask| == 4 && |payload| < 0x1_0000_0000_0000_0000
    ensures Decode(Encode(opcode, payload, mask) + rest) == Got(Frame(true, opcode, payload), rest)
  {
    var field := LengthField(|payload|);
    var body := mask + (Masked(payload, mask) + rest);
    LengthRoundTrip(|payload|, body);
    PayloadRoundTrip(payload, mask, rest);
    OpcodeByte(opcode);
    EncodeSplits(opcode, payload, mask, rest);
    ExactlyAppend([0x80 | opcode, field[0]], field[1..] + body);
  }

  lemma PayloadRoundTrip(payload: seq<byte>, mask: seq<byte>, rest: seq<byte>)
    requires |mask| == 4
    ensures ReadPayload(true, |payload|, mask + (Masked(payload, mask) + rest)) == Got(payload, rest)
  {
    var masked := Masked(payload, mask);
    ExactlyAppend(mask, masked + rest);
    ExactlyAppend(masked, rest);
    MaskedTwice(payload, mask);
  }

  lemma EncodeSplits(opcode: byte, payload: seq<byte>, mask: seq<byte>, rest: seq<byte>)
    requires |mask| == 4
    ensures
      var field := LengthField(|payload|);
      |field| >= 1 && Encode(opcode, payload, mask) + rest ==
        [0x80 | opcode, field[0]] + (field[1..] + (mask + (Masked(payload, mask) + rest)))
  {
    var field := LengthField(|payload|);
    assert field == [field[0]] + field[1..];
  }

  // ----- every frame of the format -----

  /** A frame as it is on the wire: final or not, masked or not, which is how a
      server sends it. */
  function Wire(fin: bool, opcode: byte, payload: seq<byte>, mask: Option<seq<byte>>): seq<byte>
    requires mask.Some? ==> |mask.value| == 4
  {
    [(if fin then 0x80 else 0) | opcode] + WireLength(|payload|, if mask.Some? then 0x80 else 0)
    + Body(payload, mask)
  }

  function Body(payload: seq<byte>, mask: Option<seq<byte>>): seq<byte>
    requires mask.Some? ==> |mask.value| == 4
  {
    if mask.Some? then mask.value + Xored(payload, mask.value) else payload
  }

  function WireLength(length: nat, bit: byte): seq<byte> {
    if length < 126 then [bit | ToByte(length)]
    else if length < 65_536 then [bit | 126] + Pack(length, 2)
    else [bit | 127] + Pack(length, 8)
  }

  /** Each byte combined with its byte of the mask. */
  function Xored(payload: seq<byte>, mask: seq<byte>): (r: seq<byte>)
    requires |mask| == 4
    ensures |r| == |payload| && forall i :: 0 <= i < |payload| ==> r[i] == payload[i] ^ mask[i % 4]
  {
    if payload == [] then []
    else
      var n := |payload| - 1;
      Xored(payload[..n], mask) + [payload[n] ^ mask[n % 4]]
  }

  lemma XoredIsMasked(payload: seq<byte>, mask: seq<byte>)
    requires |mask| == 4
    ensures Xored(payload, mask) == Masked(payload, mask)
  {
  }

  /** What the probe sends is such a frame, final and masked. */
  lemma SendsWire(opcode: byte, payload: seq<byte>, mask: seq<byte>)
    requires |mask| == 4
    ensures Encode(opcode, payload, mask) == Wire(true, opcode, payload, Some(mask))
  {
    XoredIsMasked(payload, mask);
    var head := [0x80 | opcode] + LengthField(|payload|);
    assert head + mask + Masked(payload, mask) == head + (mask + Masked(payload, mask));
  }

  lemma HeaderBits(fin: bool, opcode: byte)
    requires opcode < 16
    ensures
      var b := (if fin then 0x80 else 0) | opcode;
      b & 0x0F == opcode && (b & 0x80 != 0 <==> fin)
  {
    OpcodeByte(opcode);
  }

  lemma LengthBits(bit: byte, short: byte)
    requires (bit == 0 || bit == 0x80) && short < 128
    ensures (bit | short) & 0x7F == short && ((bit | short) & 0x80 != 0 <==> bit == 0x80)
  {
    LengthByte(short);
  }

  lemma WireLengthReads(length: nat, bit: byte, rest: seq<byte>)
    requires length < 0x1_0000_0000_0000_0000 && (bit == 0 || bit == 0x80)
    ensures
      var field := WireLength(length, bit);
      && |field| >= 1 && (field[0] & 0x80 != 0 <==> bit == 0x80)
      && ReadLength(field[0], field[1..] + rest) == Got(length, rest)
  {
    var field := WireLength(length, bit);
    Pow256Values();
    LengthBits(bit, 126);
    LengthBits(bit, 127);
    EscapeBytes();
    if length < 126 {
      ByteRoundTrip(length);
      assert ToByte(length) < 128;
      LengthBits(bit, ToByte(length));
      assert field[1..] + rest == rest;
    } else {
      var width := if length < 65_536 then 2 else 8;
      assert field[1..] == Pack(length, width);
      LongLength(field[0], length, width, rest);
    }
  }

  /** Every frame of the format reads back, and what follows it is left: final or
      not, masked or not. */
  lemma WireRoundTrip(fin: bool, opcode: byte, payload: seq<byte>, mask: Option<seq<byte>>, rest: seq<byte>)
    requires opcode < 16 && (mask.Some? ==> |mask.value| == 4) && |payload| < 0x1_0000_0000_0000_0000
    ensures Decode(Wire(fin, opcode, payload, mask) + rest) == Got(Frame(fin, opcode, payload), rest)
  {
    var first: byte, bit: byte := (if fin then 0x80 else 0) | opcode, if mask.Some? then 0x80 else 0;
    var field := WireLength(|payload|, bit);
    var body := Body(payload, mask) + rest;
    WireLengthReads(|payload|, bit, body);
    HeaderBits(fin, opcode);
    BodyReads(payload, mask, rest);
    WireSplits(fin, opcode, payload, mask, rest);
    ExactlyAppend([first, field[0]], field[1..] + body);
  }

  lemma BodyReads(payload: seq<byte>, mask: Option<seq<byte>>, rest: seq<byte>)
    requires mask.Some? ==> |mask.value| == 4
    ensures ReadPayload(mask.Some?, |payload|, Body(payload, mask) + rest) == Got(payload, rest)
  {
    if mask.Some? {
      XoredIsMasked(payload, mask.value);
      PayloadRoundTrip(payload, mask.value, rest);
      Regroup(mask.value, Masked(payload, mask.value), rest);
    } else {
      ExactlyAppend(payload, rest);
    }
  }

  lemma Regroup(a: seq<byte>, b: seq<byte>, c: seq<byte>)
    ensures a + b + c == a + (b + c)
  {
  }

  lemma WireSplits(fin: bool, opcode: byte, payload: seq<byte>, mask: Option<seq<byte>>, rest: seq<byte>)
    requires mask.Some? ==> |mask.value| == 4
    ensures
      var field := WireLength(|payload|, if mask.Some? then 0x80 else 0);
      var body := Body(payload, mask) + rest;
      |field| >= 1 && Wire(fin, opcode, payload, mask) + rest ==
        [(if fin then 0x80 else 0) | opcode, field[0]] + (field[1..] + body)
  {
    Splits((if fin then 0x80 else 0) | opcode, WireLength(|payload|, if mask.Some? then 0x80 else 0),
           Body(payload, mask), rest);
  }

  lemma Splits(first: byte, field: seq<byte>, body: seq<byte>, rest: seq<byte>)
    requires |field| >= 1
    ensures [first] + field + body + rest == [first, field[0]] + (field[1..] + (body + rest))
  {
    assert field == [field[0]] + field[1..];
  }

  /** A two-byte length has its high byte first. */
  lemma HighByteFirst(n: nat)
    requires n < 65_536
    ensures Pack(n, 2) == [ToByte(n / 256), ToByte(n % 256)]
  {
    assert Pack(n / 256 / 256, 0) == [];
    assert n / 256 % 256 == n / 256;
    assert Pack(n / 256, 1) == [ToByte(n / 256)];
  }

  // ----- the client -----

  /** A connected socket: what was received and not yet read, and what the peer
      will still deliver, in whatever pieces. */
  class Client {
    var buf: seq<byte>
    var incoming: seq<seq<byte>>
    var sent: seq<byte>

    ghost predicate Valid()
      reads this
    {
      forall i :: 0 <= i < |incoming| ==> incoming[i] != []
    }

    ghost function Stream(): seq<byte>
      reads this
    {
      buf + Flatten(incoming)
    }

    constructor (buf: seq<byte>, incoming: seq<seq<byte>>)
      requires forall i :: 0 <= i < |incoming| ==> incoming[i] != []
      ensures Valid() && Stream() == buf + Flatten(incoming) && sent == []
    {
      this.buf, this.incoming, this.sent := buf, incoming, [];
    }

    /** Reads exactly `n` bytes, or reports that the connection closed first. */
    method ReadExact(n: nat) returns (out: Option<seq<byte>>)
      requires Valid()
      modifies this`buf, this`incoming
      ensures Valid()
      ensures out.Some? <==> Exactly(old(Stream()), n).Got?
      ensures out.Some? ==> Exactly(old(Stream()), n) == Got(out.value, Stream())
      ensures out.None? ==> Stream() == old(Stream())
    {
      while |buf| < n
        invariant Valid() && Stream() == old(Stream())
        decreases |incoming|
      {
        if incoming == [] {
          return None;
        }
        var chunk := incoming[0];
        assert buf + (chunk + Flatten(incoming[1..])) == buf + chunk + Flatten(incoming[1..]);
        buf := buf + chunk;
        incoming := incoming[1..];
      }
      assert Stream()[..n] == buf[..n];
      assert Stream()[n..] == buf[n..] + Flatten(incoming);
      out := Some(buf[..n]);
      buf := buf[n..];
    }

    /** Reads one frame: however the stream arrives, the result is the frame at
        its front. */
    method ReadFrame() returns (frame: Option<Frame>)
      requires Valid()
      modifies this`buf, this`incoming
      ensures Valid()
      ensures frame.Some? <==> Decode(old(Stream())).Got?
      ensures frame.Some? ==> Decode(old(Stream())) == Got(frame.value, Stream())
    {
      ghost var s0 := Stream();
      var head := ReadExact(2);
      if head.None? {
        return None;
      }
      ghost var s1 := Stream();
      var b1, b2 := head.value[0], head.value[1];
      var length := ReadLengthField(b2);
      if length.None? {
        DecodeParts(s0, head.value, s1);
        return None;
      }
      ghost var s2 := Stream();
      var payload := ReadBody(b2 & 0x80 != 0, length.value);
      DecodeParts(s0, head.value, s1);
      if payload.None? {
        return None;
      }
      frame := Some(Frame(b1 & 0x80 != 0, b1 & 0x0F, payload.value));
    }

    method ReadLengthField(b2: byte) returns (length: Option<nat>)
      requires Valid()
      modifies this`buf, this`incoming
      ensures Valid()
      ensures length.Some? <==> ReadLength(b2, old(Stream())).Got?
      ensures length.Some? ==> ReadLength(b2, old(Stream())) == Got(length.value, Stream())
    {
      var short := ToNat(b2 & 0x7F);
      if short != 126 && short != 127 {
        return Some(short);
      }
      var long := ReadExact(if short == 126 then 2 else 8);
      if long.None? {
        return None;
      }
      length := Some(Unpack(long.value));
    }

    method ReadBody(masked: bool, length: nat) returns (payload: Option<seq<byte>>)
      requires Valid()
      modifies this`buf, this`incoming
      ensures Valid()
      ensures payload.Some? <==> ReadPayload(masked, length, old(Stream())).Got?
      ensures payload.Some? ==> ReadPayload(masked, length, old(Stream())) == Got(payload.value, Stream())
    {
      var mask := [0, 0, 0, 0];
      if masked {
        var m := ReadExact(4);
        if m.None? {
          return None;
        }
        mask := m.value;
      }
      payload := ReadExact(length);
      if payload.Some? && masked {
        payload := Some(Masked(payload.value, mask));
      }
    }

    /** Sends one frame; `mask` is the random masking key. */
    method SendFrame(opcode: byte, payload: seq<byte>, mask: seq<byte>)
      requires |mask| == 4
      modifies this`sent
      ensures sent == old(sent) + Encode(opcode, payload, mask)
    {
      var length := |payload|;
      var header := [0x80 | opcode];
      if length < 126 {
        header := header + [0x80 | ToByte(length)];
      } else if length < 65_536 {
        header := header + [0x80 | 126];
        header := header + Pack(length, 2);
      } else {
        header := header + [0x80 | 127];
        header := header + Pack(length, 8);
      }
      assert header == [0x80 | opcode] + LengthField(length);
      header := header + mask;
      sent := sent + (header + Masked(payload, mask));
    }
  }
}
