/**
 The library's channel: message structs, the finaliser and serialiser that write
 them, and the parser that fills the receive buffer, all in place.
 */
module Channel {

  import opened Crc
  import opened Wire
  import opened Signing
  import opened Parser
  import opened Wrappers

  /** `mavlink_message_t` */
  class Message {
    var checksum: bv16
    var magic: byte
    var len: byte
    var incompat: byte
    var compat: byte
    var seqno: byte
    var sysid: byte
    var compid: byte
    var msgid: nat
    const payload: array<byte>
    var ck0: byte
    var ck1: byte
    const signature: array<byte>

    ghost predicate Valid() {
      payload.Length == PAYLOAD_BUFFER_LEN && signature.Length == SIGNATURE_BLOCK_LEN && payload != signature
    }

    function View(): Msg
      reads this, payload, signature
    {
      Msg(checksum, magic, len, incompat, compat, seqno, sysid, compid, msgid, payload[..], ck0, ck1, signature[..])
    }

    constructor ()
      ensures Valid() && fresh(payload) && fresh(signature)
    {
      checksum, magic, len, incompat, compat, seqno, sysid, compid, msgid, ck0, ck1 := 0, 0, 0, 0, 0, 0, 0, 0, 0, 0, 0;
      payload := new byte[PAYLOAD_BUFFER_LEN](_ => 0);
      signature := new byte[SIGNATURE_BLOCK_LEN](_ => 0);
    }
  }

  // ----- Finalising and serialising, on values -----

  /** A message with its header filled in. */
  function Headed(m: Msg, v1: bool, signs: bool, seqno: byte, sysid: byte, compid: byte, len: byte): Msg {
    m.(magic := if v1 then STX_MAVLINK1 else STX, len := len, incompat := if signs then IFLAG_SIGNED else 0,
       compat := 0, seqno := seqno, sysid := sysid, compid := compid)
  }

  /** The header as the finaliser checksums and signs it, marker first. */
  function Header(v1: bool, h: Msg): seq<byte> {
    [h.magic] + Core(v1, h)
  }

  /** A message after finalising: its checksum also stands behind its trimmed payload. */
  function Finalized(h: Msg, v1: bool, crcExtra: byte, block: Option<seq<byte>>): Msg
    requires h.Valid()
  {
    var sum := Checksum(v1, h, h.payload[..h.len], crcExtra);
    h.(checksum := sum,
       payload := h.payload[h.len := CkA(sum)][h.len + 1 := CkB(sum)],
       signature := if block.Some? then block.value else h.signature)
  }

  /** The payload length a message is finalised with. */
  function WireLen(payload: seq<byte>, v1: bool, minLength: byte, length: byte): byte
    requires length <= |payload|
  {
    if v1 then minLength else Trim(payload, length)
  }

  /** What is written to the send buffer: an untrimmed MAVLink 2 payload is trimmed on the way out. */
  function SendBytes(m: Msg): seq<byte>
    requires m.Valid()
  {
    var v1 := m.IsV1();
    var len := if v1 then m.len else Trim(m.payload, m.len);
    Header(v1, m.(len := len)) + m.payload[..len] + [CkA(m.checksum), CkB(m.checksum)]
    + if m.Signed() && !v1 then m.signature else []
  }

  /** `mavlink_msg_get_send_buffer_length` */
  function SendLength(m: Msg): nat {
    if m.IsV1() then m.len as nat + CORE_HEADER_MAVLINK1_LEN + 1 + 2
    else m.len as nat + CORE_HEADER_LEN + 1 + 2 + if m.Signed() then SIGNATURE_BLOCK_LEN else 0
  }

  /** A buffer whose first bytes have been written and whose other bytes are as they were. */
  ghost predicate Written(buf: array<byte>, content: seq<byte>, orig: seq<byte>)
    reads buf
  {
    |content| <= |orig| == buf.Length && buf[..] == content + orig[|content|..]
  }

  /** `memcpy` to the end of what has been written. */
  method Append(buf: array<byte>, src: seq<byte>, at: nat, ghost content: seq<byte>, ghost orig: seq<byte>)
    requires Written(buf, content, orig) && at == |content| && at + |src| <= buf.Length
    modifies buf
    ensures Written(buf, content + src, orig)
  {
    for i := 0 to |src|
      invariant Written(buf, content + src[..i], orig)
    {
      buf[at + i] := src[i];
      assert content + src[..i + 1] == (content + src[..i]) + [src[i]];
    }
    assert src[..|src|] == src;
  }

  /** The header bytes both the finaliser and the serialiser form. */
  method WriteHeader(buf: array<byte>, msg: Message, length: byte) returns (n: nat)
    requires msg.Valid() && buf.Length >= 10 && buf != msg.payload && buf != msg.signature
    modifies buf
    ensures n == CoreLen(msg.magic == STX_MAVLINK1) + 1
    ensures buf[..n] == Header(msg.magic == STX_MAVLINK1, msg.View().(len := length))
    ensures buf[n..] == old(buf[n..])
  {
    buf[0] := msg.magic;
    buf[1] := length;
    if msg.magic == STX_MAVLINK1 {
      buf[2], buf[3], buf[4] := msg.seqno, msg.sysid, msg.compid;
      buf[5] := IdByte0(msg.msgid);
      n := 6;
    } else {
      buf[2], buf[3], buf[4] := msg.incompat, msg.compat, msg.seqno;
      buf[5], buf[6] := msg.sysid, msg.compid;
      buf[7], buf[8], buf[9] := IdByte0(msg.msgid), IdByte1(msg.msgid), IdByte2(msg.msgid);
      n := 10;
    }
  }

  /** `mavlink_msg_to_send_buffer` */
  method MsgToSendBuffer(buf: array<byte>, msg: Message) returns (n: nat)
    requires msg.Valid() && buf.Length >= 280 && buf != msg.payload && buf != msg.signature
    modifies buf
    ensures n <= 280 && buf[..n] == SendBytes(msg.View())
    ensures buf[n..] == old(buf[n..])
  {
    hide Core, CkA, CkB;
    ghost var orig := buf[..];
    var v1 := msg.magic == STX_MAVLINK1;
    var length := msg.len;
    if !v1 {
      length := TrimPayload(msg.payload, length);
    }
    n := WriteHeader(buf, msg, length);
    ghost var header := buf[..n];
    assert Written(buf, header, orig);
    Append(buf, msg.payload[..length], n, header, orig);
    n := n + length;
    var ck: seq<byte> := [CkA(msg.checksum), CkB(msg.checksum)];
    ghost var before := header + msg.payload[..length];
    Append(buf, ck, n, before, orig);
    n := n + 2;
    if !v1 && msg.incompat % 2 == 1 {
      Append(buf, msg.signature[..], n, before + ck, orig);
      n := n + SIGNATURE_BLOCK_LEN;
    } else {
      assert before + ck + [] == before + ck;
    }
  }

  /** `mavlink_finalize_message_buffer`, with the status fields it uses. */
  class Transmitter {
    var outV1: bool
    var txSeq: byte
    var signing: SigningState?

    constructor (outV1: bool, txSeq: byte, signing: SigningState?)
      ensures this.outV1 == outV1 && this.txSeq == txSeq && this.signing == signing
    {
      this.outV1, this.txSeq, this.signing := outV1, txSeq, signing;
    }

    predicate Signs()
      reads this, signing
    {
      !outV1 && signing != null && signing.signOutgoing
    }

    /** The message as it will be checksummed. */
    function Pending(m: Msg, systemId: byte, componentId: byte, minLength: byte, length: byte): (h: Msg)
      requires m.Valid()
      reads this, signing
      ensures h.Valid()
    {
      Headed(m, outV1, Signs(), txSeq, systemId, componentId, WireLen(m.payload, outV1, minLength, length))
    }

    method FinalizeMessage(digest: Digest, msg: Message, systemId: byte, componentId: byte,
                           minLength: byte, length: byte, crcExtra: byte)
      returns (n: nat)
      requires msg.Valid()
      modifies this`txSeq, msg, msg.payload, msg.signature, signing
      ensures outV1 == old(outV1) && txSeq == (old(txSeq) + 1) % 256
      ensures var h := old(Pending(msg.View(), systemId, componentId, minLength, length));
              var sum := Checksum(outV1, h, h.payload[..h.len], crcExtra);
              var block := if !old(Signs()) then None
                           else Some(Block(digest, old(signing.View()), Header(outV1, h), h.payload[..h.len],
                                           [CkA(sum), CkB(sum)]));
              msg.View() == Finalized(h, outV1, crcExtra, block)
      ensures n == SendLength(msg.View())
      ensures signing != null ==>
                signing.View() == if old(Signs()) then Ticked(old(signing.View())) else old(signing.View())
    {
      hide Checksum, Core, CkA, CkB, Block, Accumulate, AccumulateAll, Trim, Finalized;
      var signs := Signs();
      ghost var h := Pending(msg.View(), systemId, componentId, minLength, length);
      ghost var signer := ViewSigner(signing);
      FillHeader(msg, systemId, componentId, minLength, length);
      var payload := msg.payload[..msg.len];
      var buf := new byte[10](_ => 0);
      var headerLen := WriteHeader(buf, msg, msg.len);
      var sum := WriteChecksum(buf, headerLen, msg, crcExtra);
      ghost var unsigned := msg.View();
      n := msg.len + headerLen + 2;
      if signs {
        var ck: seq<byte> := [CkA(sum), CkB(sum)];
        var k := signing.SignPacket(digest, msg.signature, buf[..headerLen], payload, ck);
        n := n + k;
      }
      SignatureAttached(h, outV1, crcExtra, msg.signature[..]);
      assert msg.View() == unsigned.(signature := msg.signature[..]);
    }

    /** The header fields of a message. */
    method FillHeader(msg: Message, systemId: byte, componentId: byte, minLength: byte, length: byte)
      requires msg.Valid()
      modifies this`txSeq, msg
      ensures msg.View() == old(Pending(msg.View(), systemId, componentId, minLength, length))
      ensures txSeq == (old(txSeq) + 1) % 256
    {
      var signs := Signs();
      msg.magic := if outV1 then STX_MAVLINK1 else STX;
      if outV1 {
        msg.len := minLength;
      } else {
        msg.len := TrimPayload(msg.payload, length);
      }
      msg.sysid, msg.compid := systemId, componentId;
      msg.incompat := if signs then IFLAG_SIGNED else 0;
      msg.compat := 0;
      msg.seqno := txSeq;
      txSeq := (txSeq + 1) % 256;
    }
  }

  lemma SignatureAttached(h: Msg, v1: bool, crcExtra: byte, block: seq<byte>)
    requires h.Valid()
    ensures Finalized(h, v1, crcExtra, Some(block)) == Finalized(h, v1, crcExtra, None).(signature := block)
    ensures Finalized(h, v1, crcExtra, None).len == h.len && Finalized(h, v1, crcExtra, None).incompat == h.incompat
    ensures Finalized(h, v1, crcExtra, None).magic == h.magic
  {
    hide Checksum, CkA, CkB;
  }

  /** The checksum into the message: its field and, little end first, the two bytes behind the payload. */
  method WriteChecksum(buf: array<byte>, headerLen: nat, msg: Message, crcExtra: byte) returns (sum: bv16)
    requires msg.Valid() && headerLen == CoreLen(msg.magic == STX_MAVLINK1) + 1 && headerLen <= buf.Length
    requires buf[..headerLen] == Header(msg.magic == STX_MAVLINK1, msg.View().(len := msg.len))
    requires buf != msg.payload
    modifies msg`checksum, msg.payload
    ensures sum == old(Checksum(msg.magic == STX_MAVLINK1, msg.View(), msg.payload[..msg.len], crcExtra))
    ensures msg.View() == Finalized(old(msg.View()), msg.magic == STX_MAVLINK1, crcExtra, None)
  {
    hide Checksum, Core, CkA, CkB;
    sum := FrameChecksum(buf, headerLen, msg, crcExtra);
    msg.payload[msg.len] := CkA(sum);
    msg.payload[msg.len + 1] := CkB(sum);
    msg.checksum := sum;
  }

  /** The checksum over the header after its marker, the payload and the seed. */
  method FrameChecksum(buf: array<byte>, headerLen: nat, msg: Message, crcExtra: byte) returns (sum: bv16)
    requires msg.Valid() && headerLen == CoreLen(msg.magic == STX_MAVLINK1) + 1 && headerLen <= buf.Length
    requires buf[..headerLen] == Header(msg.magic == STX_MAVLINK1, msg.View())
    ensures sum == Checksum(msg.magic == STX_MAVLINK1, msg.View(), msg.payload[..msg.len], crcExtra)
  {
    hide Core, Accumulate;
    var v1 := msg.magic == STX_MAVLINK1;
    sum := CrcCalculate(buf, 1, headerLen - 1);
    assert buf[1..1 + (headerLen - 1)] == buf[..headerLen][1..];
    assert buf[1..1 + (headerLen - 1)] == Core(v1, msg.View());
    sum := CrcAccumulateBuffer(sum, msg.payload, 0, msg.len);
    assert msg.payload[0..0 + msg.len] == msg.payload[..msg.len];
    AccumulateConcat(Core(v1, msg.View()), msg.payload[..msg.len], X25_INIT_CRC);
    sum := CrcAccumulate(crcExtra, sum);
  }
}