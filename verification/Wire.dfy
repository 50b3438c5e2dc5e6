/** The relay's datagram format (crates/plugkill-relay/src/protocol.rs). */
module Wire {
  import opened Wrappers
  import opened Utf8

  const MAGIC: seq<Byte> := [0x50, 0x4B, 0x52, 0x4C]
  const VERSION: Byte := 1
  const HEADER_SIZE: nat := 64
  const SIGNATURE_SIZE: nat := 64
  const MAX_REASON_LEN: nat := 256
  const MIN_PACKET_SIZE: nat := HEADER_SIZE + SIGNATURE_SIZE

  type U64 = n: nat | n < 0x1_0000_0000_0000_0000
  type Nonce = s: seq<Byte> | |s| == 16 witness seq(16, _ => 0)
  type Key = s: seq<Byte> | |s| == 32 witness seq(32, _ => 0)
  type Signature = s: seq<Byte> | |s| == 64 witness seq(64, _ => 0)

  datatype PacketType = Kill | Ack

  datatype Packet = Packet(kind: PacketType, timestamp: U64, nonce: Nonce, sender: Key, reason: Str)

  /** A parsed datagram: the packet, the bytes the signature covers, the signature. */
  datatype Parsed = Parsed(packet: Packet, message: seq<Byte>, signature: Signature)

  function TypeByte(kind: PacketType): Byte {
    match kind
    case Kill => 1
    case Ack => 2
  }

  // ----- big-endian numbers -----------------------------------------------------------

  function Pow256(k: nat): nat {
    if k == 0 then 1 else 256 * Pow256(k - 1)
  }

  function ToBigEndian(n: nat, k: nat): (s: seq<Byte>)
    ensures |s| == k
  {
    if k == 0 then [] else ToBigEndian(n / 256, k - 1) + [n % 256]
  }

  function FromBigEndian(s: seq<Byte>): nat {
    if s == [] then 0 else FromBigEndian(s[..|s| - 1]) * 256 + s[|s| - 1]
  }

  lemma {:induction false} NumberRoundTrip(n: nat, k: nat)
    requires n < Pow256(k)
    ensures FromBigEndian(ToBigEndian(n, k)) == n
  {
    if k > 0 {
      NumberRoundTrip(n / 256, k - 1);
      assert ToBigEndian(n, k)[..k - 1] == ToBigEndian(n / 256, k - 1);
    }
  }

  lemma {:induction false} BytesRoundTrip(s: seq<Byte>)
    ensures FromBigEndian(s) < Pow256(|s|)
    ensures ToBigEndian(FromBigEndian(s), |s|) == s
  {
    if s != [] {
      BytesRoundTrip(s[..|s| - 1]);
      var high, low := FromBigEndian(s[..|s| - 1]), s[|s| - 1];
      assert (high * 256 + low) / 256 == high && (high * 256 + low) % 256 == low;
      assert s == s[..|s| - 1] + [low];
    }
  }

  lemma Shifted(a: nat, p: nat, b: nat, low: nat)
    ensures (a * p + b) * 256 + low == a * (256 * p) + (b * 256 + low)
  {
  }

  /** The most significant byte comes first. */
  lemma {:induction false} HighBytesFirst(high: seq<Byte>, low: seq<Byte>)
    ensures FromBigEndian(high + low) == FromBigEndian(high) * Pow256(|low|) + FromBigEndian(low)
  {
    if low == [] {
      assert high + low == high;
    } else {
      var n := |low| - 1;
      HighBytesFirst(high, low[..n]);
      assert (high + low)[..|high + low| - 1] == high + low[..n];
      Shifted(FromBigEndian(high), Pow256(n), FromBigEndian(low[..n]), low[n]);
    }
  }

  lemma OneByte(b: Byte)
    ensures FromBigEndian([b]) == b
  {
    assert [b][..0] == [];
  }

  lemma Widths()
    ensures Pow256(8) == 0x1_0000_0000_0000_0000 && Pow256(2) == 0x1_0000
  {
  }

  // ----- the layout ---------------------------------------------------------------------

  /** Everything before the signature: magic, version, type, timestamp, nonce,
      sender, reason length, reason. */
  function Frame(kind: PacketType, timestamp: U64, nonce: Nonce, sender: Key, reason: seq<Byte>): (f: seq<Byte>)
    ensures |f| == HEADER_SIZE + |reason|
  {
    MAGIC + [VERSION] + [TypeByte(kind)] + ToBigEndian(timestamp, 8) + nonce + sender
    + ToBigEndian(|reason|, 2) + reason
  }

  function Message(p: Packet): seq<Byte> {
    Frame(p.kind, p.timestamp, p.nonce, p.sender, p.reason)
  }

  /** What is sent of a reason. */
  function Truncated(reason: seq<Byte>): seq<Byte> {
    if |reason| <= MAX_REASON_LEN then reason else reason[..MAX_REASON_LEN]
  }

  method Serialize(kind: PacketType, timestamp: U64, nonce: Nonce, sender: Key, reason: Str,
                   sign: seq<Byte> -> Signature)
    returns (buf: seq<Byte>)
    ensures var signed := Frame(kind, timestamp, nonce, sender, Truncated(reason));
            buf == signed + sign(signed)
  {
    var reasonLen := if |reason| <= MAX_REASON_LEN then |reason| else MAX_REASON_LEN;
    buf := [];
    buf := buf + MAGIC;
    buf := buf + [VERSION];
    buf := buf + [TypeByte(kind)];
    buf := buf + ToBigEndian(timestamp, 8);
    buf := buf + nonce;
    buf := buf + sender;
    buf := buf + ToBigEndian(reasonLen, 2);
    buf := buf + reason[..reasonLen];
    assert buf == Frame(kind, timestamp, nonce, sender, Truncated(reason));
    var signature := sign(buf);
    buf := buf + signature;
  }

  /** Parses one datagram; bytes after the signature are ignored. */
  function Deserialize(data: seq<Byte>): Result<Parsed, string> {
    if |data| < MIN_PACKET_SIZE then Err("packet too short")
    else if data[0..4] != MAGIC then Err("invalid magic")
    else if data[4] != VERSION then Err("unknown version")
    else if data[5] != 1 && data[5] != 2 then Err("unknown packet type")
    else
      var kind := if data[5] == 1 then Kill else Ack;
      var timestamp := FromBigEndian(data[6..14]);
      var nonce := data[14..30];
      var sender := data[30..62];
      var reasonLen := FromBigEndian(data[62..64]);
      if reasonLen > MAX_REASON_LEN then Err("reason too long")
      else if |data| < HEADER_SIZE + reasonLen + SIGNATURE_SIZE then Err("packet truncated")
      else
        var reasonEnd := HEADER_SIZE + reasonLen;
        if !Valid(data[HEADER_SIZE..reasonEnd]) then Err("reason not valid UTF-8")
        else
          EightBytesFit(data[6..14]);
          Ok(Parsed(Packet(kind, timestamp, nonce, sender, data[HEADER_SIZE..reasonEnd]),
                    data[..reasonEnd], data[reasonEnd..reasonEnd + SIGNATURE_SIZE]))
  }

  lemma EightBytesFit(s: seq<Byte>)
    requires |s| == 8
    ensures FromBigEndian(s) < 0x1_0000_0000_0000_0000
  {
    BytesRoundTrip(s);
    Widths();
  }

  // ----- reading back what was written ------------------------------------------------------

  lemma FrameFields(kind: PacketType, timestamp: U64, nonce: Nonce, sender: Key, reason: seq<Byte>, rest: seq<Byte>)
    ensures var d := Frame(kind, timestamp, nonce, sender, reason) + rest;
            && |d| == HEADER_SIZE + |reason| + |rest|
            && d[0..4] == MAGIC && d[4] == VERSION && d[5] == TypeByte(kind)
            && d[6..14] == ToBigEndian(timestamp, 8) && d[14..30] == nonce && d[30..62] == sender
            && d[62..64] == ToBigEndian(|reason|, 2)
            && d[64..64 + |reason|] == reason
            && d[..64 + |reason|] == Frame(kind, timestamp, nonce, sender, reason)
            && d[64 + |reason|..] == rest
  {
  }

  /** The layout, byte by byte: "PKRL", version 1, the type, eight bytes of
      timestamp, sixteen of nonce, thirty-two of sender, two of length, the reason. */
  lemma FrameLooksLike(p: Packet)
    ensures var m := Message(p);
            && |m| == 64 + |p.reason|
            && m[0] == 0x50 && m[1] == 0x4B && m[2] == 0x52 && m[3] == 0x4C && m[4] == 1
            && m[5] == (if p.kind.Kill? then 1 else 2)
            && FromBigEndian(m[6..14]) == p.timestamp && m[14..30] == p.nonce && m[30..62] == p.sender
            && (|p.reason| <= 256 ==> FromBigEndian(m[62..64]) == |p.reason|) && m[64..] == p.reason
  {
    FrameFields(p.kind, p.timestamp, p.nonce, p.sender, p.reason, []);
    assert Message(p) + [] == Message(p);
    Widths();
    NumberRoundTrip(p.timestamp, 8);
    if |p.reason| <= 256 {
      NumberRoundTrip(|p.reason|, 2);
    }
    assert Message(p)[0..4][1] == MAGIC[1] && Message(p)[0..4][2] == MAGIC[2] && Message(p)[0..4][3] == MAGIC[3];
  }

  lemma ReadFields(d: seq<Byte>, kind: PacketType, timestamp: U64, nonce: Nonce, sender: Key, reason: seq<Byte>)
    requires |reason| <= MAX_REASON_LEN && |d| >= HEADER_SIZE + |reason| + SIGNATURE_SIZE
    requires d[0..4] == MAGIC && d[4] == VERSION && d[5] == TypeByte(kind)
    requires d[6..14] == ToBigEndian(timestamp, 8) && d[14..30] == nonce && d[30..62] == sender
    requires d[62..64] == ToBigEndian(|reason|, 2) && d[64..64 + |reason|] == reason
    ensures Deserialize(d)
            == if Valid(reason)
               then Ok(Parsed(Packet(kind, timestamp, nonce, sender, reason), d[..64 + |reason|],
                              d[64 + |reason|..64 + |reason| + 64]))
               else Err("reason not valid UTF-8")
  {
    Widths();
    NumberRoundTrip(timestamp, 8);
    NumberRoundTrip(|reason|, 2);
  }

  /** What a receiver makes of a frame with a signature and anything behind it. */
  lemma DeserializeFrame(kind: PacketType, timestamp: U64, nonce: Nonce, sender: Key, reason: seq<Byte>,
                         signature: Signature, tail: seq<Byte>)
    requires |reason| <= MAX_REASON_LEN
    ensures var signed := Frame(kind, timestamp, nonce, sender, reason);
            Deserialize(signed + (signature + tail))
            == if Valid(reason) then Ok(Parsed(Packet(kind, timestamp, nonce, sender, reason), signed, signature))
               else Err("reason not valid UTF-8")
  {
    var signed := Frame(kind, timestamp, nonce, sender, reason);
    var d := signed + (signature + tail);
    FrameFields(kind, timestamp, nonce, sender, reason, signature + tail);
    MiddleSlice(signed, signature, tail);
    ReadFields(d, kind, timestamp, nonce, sender, reason);
  }

  lemma MiddleSlice(a: seq<Byte>, b: seq<Byte>, c: seq<Byte>)
    ensures (a + (b + c))[|a|..|a| + |b|] == b
  {
  }

  /** Every packet a sender can write with a reason of at most 256 bytes comes
      back unchanged, with the exact bytes that were signed. */
  lemma RoundTrip(p: Packet, sign: seq<Byte> -> Signature)
    requires |p.reason| <= MAX_REASON_LEN
    ensures Deserialize(Message(p) + sign(Message(p))) == Ok(Parsed(p, Message(p), sign(Message(p))))
  {
    DeserializeFrame(p.kind, p.timestamp, p.nonce, p.sender, p.reason, sign(Message(p)), []);
    assert sign(Message(p)) + [] == sign(Message(p));
  }

  /** Every datagram a receiver accepts is a serialized packet, byte for byte,
      up to what trails it. */
  lemma AcceptedIsSerialized(data: seq<Byte>)
    requires Deserialize(data).Ok?
    ensures var parsed := Deserialize(data).value;
            && |parsed.packet.reason| <= MAX_REASON_LEN
            && parsed.message == Message(parsed.packet)
            && parsed.message + parsed.signature <= data
  {
    var parsed := Deserialize(data).value;
    var reasonLen := FromBigEndian(data[62..64]);
    BytesRoundTrip(data[62..64]);
    BytesRoundTrip(data[6..14]);
    assert [data[5]] == [TypeByte(parsed.packet.kind)];
    var pieces := data[0..4] + data[4..5] + data[5..6] + data[6..14] + data[14..30] + data[30..62] + data[62..64]
        + data[64..64 + reasonLen];
    assert pieces == data[..64 + reasonLen];
    assert data[4..5] == [VERSION] && data[5..6] == [TypeByte(parsed.packet.kind)];
    assert data[..64 + reasonLen + 64] == data[..64 + reasonLen] + data[64 + reasonLen..64 + reasonLen + 64];
  }

  /** A datagram is accepted exactly when it starts with a serialized packet. */
  lemma AcceptedIff(data: seq<Byte>)
    ensures Deserialize(data).Ok? <==>
            exists p: Packet, signature: Signature {:trigger Message(p) + signature} ::
              |p.reason| <= MAX_REASON_LEN && Message(p) + signature <= data
  {
    if Deserialize(data).Ok? {
      AcceptedIsSerialized(data);
      var parsed := Deserialize(data).value;
      assert Message(parsed.packet) + parsed.signature <= data;
    }
    forall p: Packet, signature: Signature | |p.reason| <= MAX_REASON_LEN && Message(p) + signature <= data
      ensures Deserialize(data).Ok?
    {
      var tail := data[|Message(p) + signature|..];
      assert data == Message(p) + (signature + tail);
      DeserializeFrame(p.kind, p.timestamp, p.nonce, p.sender, p.reason, signature, tail);
    }
  }

  /** The signature commits to every field: equal signed bytes, equal packets. */
  lemma SignedBytesDetermineThePacket(p: Packet, q: Packet)
    requires |p.reason| <= MAX_REASON_LEN && |q.reason| <= MAX_REASON_LEN && Message(p) == Message(q)
    ensures p == q
  {
    var zeros: Signature := seq(64, _ => 0);
    DeserializeFrame(p.kind, p.timestamp, p.nonce, p.sender, p.reason, zeros, []);
    DeserializeFrame(q.kind, q.timestamp, q.nonce, q.sender, q.reason, zeros, []);
  }

  /** For a reason of any length: the datagram is accepted exactly when the
      length limit does not cut a character in two, and then it carries the
      reason up to the limit. */
  lemma LongReasons(kind: PacketType, timestamp: U64, nonce: Nonce, sender: Key, reason: Str, signature: Signature)
    ensures var d := Frame(kind, timestamp, nonce, sender, Truncated(reason)) + signature;
            && (Deserialize(d).Ok? <==> |reason| <= MAX_REASON_LEN || IsCharBoundary(reason, MAX_REASON_LEN))
            && (Deserialize(d).Ok? ==>
                  var p := Deserialize(d).value.packet;
                  && p.kind == kind && p.timestamp == timestamp && p.nonce == nonce && p.sender == sender
                  && p.reason == Truncated(reason))
  {
    DeserializeFrame(kind, timestamp, nonce, sender, Truncated(reason), signature, []);
    var d := Frame(kind, timestamp, nonce, sender, Truncated(reason)) + signature;
    assert signature + [] == signature;
    if |reason| > MAX_REASON_LEN {
      CutIsValid(reason, MAX_REASON_LEN);
    }
  }

  lemma {:induction false} AsciiBefore(n: nat, s: seq<Byte>)
    requires Valid(s)
    ensures Valid(seq(n, _ => 0x61) + s)
  {
    if n == 0 {
      assert seq(n, _ => 0x61) + s == s;
    } else {
      AsciiBefore(n - 1, s);
      var all := seq(n, _ => 0x61) + s;
      assert all[1..] == seq(n - 1, _ => 0x61) + s;
    }
  }

  /** A reason of 255 letters and one accented letter is sent, signed, and
      then refused by every receiver. */
  lemma LongReasonIsLost(timestamp: U64, nonce: Nonce, sender: Key, signature: Signature)
    ensures var reason := seq(255, _ => 0x61) + [0xC3, 0xA9];
            Valid(reason) && Deserialize(Frame(Kill, timestamp, nonce, sender, Truncated(reason)) + signature).Err?
  {
    AsciiBefore(255, [0xC3, 0xA9]);
    LongReasons(Kill, timestamp, nonce, sender, seq(255, _ => 0x61) + [0xC3, 0xA9], signature);
  }
}
