/** Binary packets of the SSH key exchange and their re-padding. */
module OsshPacket {
  import opened Bytes

  const MAGIC: u32 := 0x0BF5_CA7E
  const MAX_PACKET: nat := 256 * 1024
  const MAX_LINE: nat := 4096
  const MSG_NEWKEYS: byte := 21
  const CR: byte := 13
  const LF: byte := 10

  /** "SSH-" */
  const BANNER_START: seq<byte> := [83, 83, 72, 45]

  function PacketLength(packet: seq<byte>): u32
    requires |packet| >= 4
  {
    Word(packet[0], packet[1], packet[2], packet[3])
  }

  predicate LengthOk(length: nat)
  {
    1 <= length <= MAX_PACKET
  }

  predicate IsNewKeys(packet: seq<byte>)
  {
    |packet| > 5 && packet[5] == MSG_NEWKEYS
  }

  /** The bytes the program takes for the payload, whatever the length fields say. */
  function Payload(packet: seq<byte>): (payload: seq<byte>)
    requires |packet| >= 5
    ensures |payload| <= |packet| - 5
  {
    var length := PacketLength(packet);
    var padding := packet[4] as int;
    var n := if length >= padding + 1 then length - (padding + 1) else 0;
    packet[5..if 5 + n <= |packet| then 5 + n else |packet|]
  }

  /** Padding of at least 4 bytes that makes length, padding length, payload and padding a multiple of 8. */
  predicate PadsTo8(payload: nat, padding: nat)
  {
    padding >= 4 && (payload + 1 + padding + 4) % 8 == 0
  }

  function PaddingFor(payload: nat): byte
  {
    11 - payload % 8
  }

  function Framed(payload: seq<byte>, padding: byte): seq<byte>
  {
    U32((|payload| + 1 + padding) % U32_SIZE) + [padding] + payload + Zeros(padding)
  }

  function Normalized(packet: seq<byte>): seq<byte>
    requires |packet| >= 5
  {
    Framed(Payload(packet), PaddingFor(|Payload(packet)|))
  }

  /** A packet whose length field counts its bytes and whose padding fits that length. */
  predicate WellFormed(packet: seq<byte>)
  {
    && |packet| >= 5
    && |packet| == PacketLength(packet) + 4
    && packet[4] as int + 1 <= PacketLength(packet)
  }

  /** Section 6 of RFC 4253: 4 to 255 padding bytes, total size a multiple of 8. */
  predicate MeetsRfc4253(packet: seq<byte>)
  {
    WellFormed(packet) && packet[4] >= 4 && |packet| % 8 == 0
  }

  /** The padding chosen is the least that is allowed. */
  lemma PaddingIsLeast(payload: nat)
    ensures PadsTo8(payload, PaddingFor(payload)) && PaddingFor(payload) <= 11
    ensures forall padding: nat :: PadsTo8(payload, padding) ==> PaddingFor(payload) <= padding
  {
  }

  method ChoosePadding(payload: nat) returns (padding: nat)
    ensures padding == PaddingFor(payload)
  {
    padding := 4;
    PaddingIsLeast(payload);
    while (payload + 1 + padding + 4) % 8 != 0
      invariant 4 <= padding <= PaddingFor(payload)
      decreases 12 - padding
    {
      padding := padding + 1;
    }
    assert PadsTo8(payload, padding);
  }

  method Normalize(packet: seq<byte>) returns (out: seq<byte>)
    requires 5 <= |packet|
    ensures out == Normalized(packet)
  {
    hide U32, Word, PaddingFor, Zeros;
    var length := PacketLength(packet);
    var paddingLength := packet[4] as int;
    var payloadLength := if length >= paddingLength + 1 then length - (paddingLength + 1) else 0;
    var end := if 5 + payloadLength <= |packet| then 5 + payloadLength else |packet|;
    var payload := packet[5..end];
    var padding := ChoosePadding(|payload|);
    out := U32((|payload| + 1 + padding) % U32_SIZE) + [padding] + payload;
    out := out + Zeros(padding);
  }

  lemma FramedFields(payload: seq<byte>, padding: byte)
    requires |payload| + 1 + padding < U32_SIZE
    ensures WellFormed(Framed(payload, padding))
    ensures Payload(Framed(payload, padding)) == payload
    ensures Framed(payload, padding)[4] == padding
    ensures |Framed(payload, padding)| == 5 + |payload| + padding
    ensures forall k :: 5 + |payload| <= k < 5 + |payload| + padding ==> Framed(payload, padding)[k] == 0
  {
    hide U32, Word, Zeros;
    var p := Framed(payload, padding);
    var length: u32 := |payload| + 1 + padding;
    U32RoundTrip(length);
    var head := U32(length);
    assert p[0] == head[0] && p[1] == head[1] && p[2] == head[2] && p[3] == head[3];
    assert p[5..5 + |payload|] == payload;
  }

  /** Re-padding keeps the payload, meets RFC 4253 and changes nothing the second time. */
  lemma NormalizedKeepsPayload(packet: seq<byte>)
    requires 5 <= |packet| <= MAX_PACKET + 4
    ensures Payload(Normalized(packet)) == Payload(packet)
    ensures MeetsRfc4253(Normalized(packet)) && Normalized(packet)[4] <= 11
    ensures Normalized(Normalized(packet)) == Normalized(packet)
    ensures forall k :: 5 + |Payload(packet)| <= k < |Normalized(packet)| ==> Normalized(packet)[k] == 0
  {
    var payload := Payload(packet);
    PaddingIsLeast(|payload|);
    FramedFields(payload, PaddingFor(|payload|));
  }

  /** Nothing but the padding is lost exactly when the padding fits; otherwise everything is. */
  lemma PayloadOf(packet: seq<byte>)
    requires |packet| >= 5 && |packet| == PacketLength(packet) + 4
    ensures WellFormed(packet) ==> Payload(packet) == packet[5..|packet| - packet[4]]
    ensures !WellFormed(packet) ==> Payload(packet) == []
  {
  }
}
