/**
 From message to bytes to message and back: finaliser, serialiser, parser and
 decoder undo each other.
 */
module RoundTrip {

  import opened Crc
  import opened Wire
  import opened Signing
  import opened Parser
  import opened ParserRuns
  import opened Channel
  import opened Wrappers

  /** A message handed to the finaliser, with the values the finaliser adds. */
  datatype Packed = Packed(
    m: Msg, v1: bool, seqno: byte, sysid: byte, compid: byte, minLength: byte, length: byte, crcExtra: byte)
  {
    /**
     The message is one of the dialect: its id fits the format, and the constants that it is
     finalised with, its width and its checksum seed, are those of the receiver's table.
     */
    ghost predicate Known(env: Env) {
      && m.Valid() && m.msgid < (if v1 then 0x100 else MSGID_LIMIT) && minLength <= length
      && Sorted(env.table)
      && exists e :: e in env.table && e.msgid == m.msgid && e.crcExtra == crcExtra && e.maxLen == length
    }

    function Head(signs: bool): (h: Msg)
      requires m.Valid()
      ensures h.Valid()
    {
      Headed(m, v1, signs, seqno, sysid, compid, WireLen(m.payload, v1, minLength, length))
    }

    /** The finalised message, unsigned or with a signature block. */
    function Sent(block: Option<seq<byte>>): Msg
      requires m.Valid() && (block.Some? ==> |block.value| == SIGNATURE_BLOCK_LEN)
    {
      Finalized(Head(block.Some?), v1, crcExtra, block)
    }
  }

  function BlockBytes(block: Option<seq<byte>>): seq<byte> {
    if block.Some? then block.value else []
  }

  /** The receiver's lookup finds the sender's constants. */
  lemma KnownSeed(env: Env, p: Packed)
    requires p.Known(env)
    ensures CrcExtra(env.table, p.m.msgid) == p.crcExtra
    ensures Lookup(env.table, p.m.msgid).Some? && Lookup(env.table, p.m.msgid).value.maxLen == p.length
  {
    SeedOfEntry(env.table, p.m.msgid);
    var k :| 0 <= k < |env.table| && env.table[k].msgid == p.m.msgid && env.table[k].maxLen == p.length;
    LookupAt(env.table, k);
  }

  lemma FinalizedKeepsPayload(h: Msg, v1: bool, crcExtra: byte, block: Option<seq<byte>>)
    requires h.Valid() && (block.Some? ==> |block.value| == SIGNATURE_BLOCK_LEN)
    ensures var sent := Finalized(h, v1, crcExtra, block);
            && sent.Valid() && sent.payload[..h.len] == h.payload[..h.len]
            && sent.checksum == Checksum(v1, h, h.payload[..h.len], crcExtra)
            && sent == sent.(checksum := sent.checksum) && Core(v1, sent) == Core(v1, h)
            && sent.magic == h.magic && sent.len == h.len && sent.incompat == h.incompat
            && (block.Some? ==> sent.signature == block.value)
  {
    hide Checksum, CkA, CkB, IdByte0, IdByte1, IdByte2;
  }

  /** Serialising a finalised message writes exactly its correct frame, of the predicted length and at most 280 bytes:
      the second trimming and the checksum bytes behind the payload change nothing. */
  lemma SendsFrame(env: Env, p: Packed, block: Option<seq<byte>>)
    requires p.Known(env) && (block.Some? ==> !p.v1 && |block.value| == SIGNATURE_BLOCK_LEN)
    ensures var h := p.Head(block.Some?);
            var sent := p.Sent(block);
            && sent.Valid()
            && Sendable(h, p.m.payload[..h.len], BlockBytes(block))
            && SendBytes(sent) == [h.magic] + FrameBody(env, h, p.m.payload[..h.len], BlockBytes(block))
            && |SendBytes(sent)| == SendLength(sent) <= 280
  {
    hide Checksum, Finalized, CkA, CkB, Core, Lookup, CrcExtra;
    KnownSeed(env, p);
    var h := p.Head(block.Some?);
    var sent := p.Sent(block);
    FinalizedKeepsPayload(h, p.v1, p.crcExtra, block);
    if !p.v1 {
      SentTrimmed(p.m.payload, sent.payload, p.length, h.len);
    }
    var payload := p.m.payload[..h.len];
    assert [h.magic] + Core(p.v1, h) + payload + [CkA(sent.checksum), CkB(sent.checksum)] + BlockBytes(block)
        == [h.magic] + (Core(p.v1, h) + payload + [CkA(sent.checksum), CkB(sent.checksum)] + BlockBytes(block));
    assert sent.(len := h.len) == sent;
  }

  /** The header of a frame, marker first: the marker and the length, the flags, then sequence, addresses and id. */
  function WireHeader(p: Packed, signs: bool, n: byte): seq<byte>
    requires p.m.msgid < if p.v1 then 0x100 else MSGID_LIMIT
  {
    if p.v1 then [0xFE, n, p.seqno, p.sysid, p.compid, p.m.msgid]
    else [0xFD, n, if signs then 1 else 0, 0, p.seqno, p.sysid, p.compid,
          p.m.msgid % 256, p.m.msgid / 256 % 256, p.m.msgid / 65536]
  }

  /**
   The frame on the wire, byte for byte: header, payload, the checksum of all but the marker
   and of the seed, from 0xFFFF on, and the signature block. The finalised message holds the
   checksum bytes behind its payload already.
   */
  lemma WireFormat(env: Env, p: Packed, block: Option<seq<byte>>)
    requires p.Known(env) && (block.Some? ==> !p.v1 && |block.value| == SIGNATURE_BLOCK_LEN)
    ensures var n := if p.v1 then p.minLength else Trim(p.m.payload, p.length);
            var header, payload := WireHeader(p, block.Some?, n), p.m.payload[..n];
            var sum := AccumulateAll(header[1..] + payload + [p.crcExtra], 0xFFFF);
            var sent := p.Sent(block);
            && sent.Valid() && SendBytes(sent) == header + payload + [CkA(sum), CkB(sum)] + BlockBytes(block)
            && sent.payload[..n + 2] == payload + [CkA(sum), CkB(sum)]
  {
    hide CkA, CkB, Finalized, SendBytes, Accumulate, AccumulateAll, Trim, Core, Checksum, FrameBody;
    hide WireHeader, Sendable;
    SendsFrame(env, p, block);
    var h := p.Head(block.Some?);
    var payload := p.m.payload[..h.len];
    HeaderIs(p, block.Some?, h);
    ChecksumIs(p.v1, h, payload, p.crcExtra);
    KnownBody(env, p, h, payload, BlockBytes(block));
    BehindPayload(h, p.v1, p.crcExtra, block);
    var sum := Checksum(p.v1, h, payload, p.crcExtra);
    MarkerFirst(h.magic, Core(p.v1, h), payload, [CkA(sum), CkB(sum)], BlockBytes(block));
  }

  lemma MarkerFirst(magic: byte, core: seq<byte>, payload: seq<byte>, ck: seq<byte>, block: seq<byte>)
    ensures [magic] + (core + payload + ck + block) == [magic] + core + payload + ck + block
    ensures ([magic] + core)[1..] == core
  {
  }

  lemma KnownBody(env: Env, p: Packed, h: Msg, payload: seq<byte>, signature: seq<byte>)
    requires p.Known(env) && h.IsV1() == p.v1 && h.msgid == p.m.msgid
    ensures var sum := Checksum(p.v1, h, payload, p.crcExtra);
      FrameBody(env, h, payload, signature) == Core(p.v1, h) + payload + [CkA(sum), CkB(sum)] + signature
  {
    hide Checksum, Core, CkA, CkB;
    KnownSeed(env, p);
  }

  lemma HeaderIs(p: Packed, signs: bool, h: Msg)
    requires p.m.Valid() && h == p.Head(signs) && (signs ==> !p.v1)
    requires p.m.msgid < if p.v1 then 0x100 else MSGID_LIMIT
    ensures [h.magic] + Core(p.v1, h) == WireHeader(p, signs, h.len) && h.IsV1() == p.v1
    ensures h.len == if p.v1 then p.minLength else Trim(p.m.payload, p.length)
  {
    hide Trim;
    if !p.v1 {
      IdTop(p.m.msgid);
    }
  }

  lemma ChecksumIs(v1: bool, h: Msg, payload: seq<byte>, crcExtra: byte)
    ensures Checksum(v1, h, payload, crcExtra) == AccumulateAll(Core(v1, h) + payload + [crcExtra], 0xFFFF)
  {
    hide Accumulate, Core;
    var data := Core(v1, h) + payload;
    assert (data + [crcExtra])[..|data|] == data;
  }

  lemma IdTop(id: nat)
    requires id < MSGID_LIMIT
    ensures id / 65536 < 256 && id / 65536 % 256 == id / 65536
  {
  }

  lemma BehindPayload(h: Msg, v1: bool, crcExtra: byte, block: Option<seq<byte>>)
    requires h.Valid()
    ensures var sum := Checksum(v1, h, h.payload[..h.len], crcExtra);
      Finalized(h, v1, crcExtra, block).payload[..h.len + 2] == h.payload[..h.len] + [CkA(sum), CkB(sum)]
  {
    hide Checksum, CkA, CkB;
  }

  lemma SentTrimmed(payload: seq<byte>, sent: seq<byte>, length: nat, n: nat)
    requires length <= |payload| && n == Trim(payload, length) && n <= |sent| && sent[..n] == payload[..n]
    ensures Trim(sent, n) == n
  {
    if n > 1 {
      assert sent[..n][n - 1] == payload[..n][n - 1];
    }
    TrimIs(sent, n, n);
  }

  /** The received message has the packed payload at its full width: the zero fill restores what trimming removed. */
  ghost predicate FullWidth(p: Packed, m: Msg)
    requires p.m.Valid()
  {
    && m.Valid() && m.msgid == p.m.msgid
    && m.seqno == p.seqno && m.sysid == p.sysid && m.compid == p.compid
    && m.payload[..p.length]
       == if p.v1 && p.minLength <= p.length then ZeroFill(p.m.payload[..p.minLength], p.length)
          else p.m.payload[..p.length]
  }

  /** The received message has the header, checksum and signature that were sent, and the payload at its full width. */
  ghost predicate Arrives(env: Env, p: Packed, signature: seq<byte>, m: Msg)
    requires p.m.Valid()
  {
    var h := p.Head(signature != []);
    FullWidth(p, m) && Carries(env, m, h, p.m.payload[..h.len], signature)
  }

  lemma CarriedInFull(env: Env, p: Packed, signs: bool, m: Msg, signature: seq<byte>)
    requires p.Known(env)
    requires var h := p.Head(signs); Carries(env, m, h, p.m.payload[..h.len], signature)
    ensures FullWidth(p, m)
  {
    hide Checksum, CkA, CkB, FrameSum, Trim;
    KnownSeed(env, p);
    var h := p.Head(signs);
    var width := p.length;
    if !p.v1 {
      FillUndoesTrim(p.m.payload, width);
    }
    assert h.len <= width;
    var sent := p.m.payload[..h.len];
    forall i | 0 <= i < width
      ensures m.payload[i] == ZeroFill(sent, width)[i]
    {
      if i < h.len { assert m.payload[..m.len][i] == sent[i]; }
    }
    assert m.payload[..width] == ZeroFill(sent, width);
  }

  // ----- Streams of packed messages -----

  function AsPacket(env: Env, p: Packed): Packet
    requires p.m.Valid()
  {
    var h := p.Head(false);
    Packet(h, p.m.payload[..h.len], [])
  }

  /** The bytes a sender puts out for a list of messages, one send buffer after the other. */
  function SendStream(env: Env, ps: seq<Packed>): seq<byte>
    requires forall i :: 0 <= i < |ps| ==> ps[i].Known(env)
    decreases |ps|
  {
    if ps == [] then []
    else
      SendsFrame(env, ps[|ps| - 1], None);
      SendStream(env, ps[..|ps| - 1]) + SendBytes(ps[|ps| - 1].Sent(None))
  }

  /** One answer a message, at the last byte of its frame, with the payload at full width. */
  ghost predicate AnsweredInFull(env: Env, ps: seq<Packed>, outs: seq<Option<Msg>>)
    requires forall i :: 0 <= i < |ps| ==> ps[i].Known(env)
    decreases |ps|
  {
    if ps == [] then outs == []
    else
      var p := ps[|ps| - 1];
      p.Known(env) &&
      var n := |AsPacket(env, p).Bytes(env)|;
      && |outs| >= n
      && AnsweredInFull(env, ps[..|ps| - 1], outs[..|outs| - n])
      && outs[|outs| - n..|outs| - 1] == Nones(n - 1)
      && outs[|outs| - 1].Some?
      && Arrives(env, p, [], outs[|outs| - 1].value)
  }

  lemma AnsweredOneMoreInFull(env: Env, ps: seq<Packed>, outs: seq<Option<Msg>>, m: Msg)
    requires forall i :: 0 <= i < |ps| ==> ps[i].Known(env)
    requires ps != [] && ps[|ps| - 1].Known(env)
    requires AnsweredInFull(env, ps[..|ps| - 1], outs) && Arrives(env, ps[|ps| - 1], [], m)
    ensures AnsweredInFull(env, ps, outs + (Nones(|AsPacket(env, ps[|ps| - 1]).Bytes(env)| - 1) + [Some(m)]))
  {
    hide Arrives, FrameBody, AsPacket;
    var n := |AsPacket(env, ps[|ps| - 1]).Bytes(env)|;
    var all := outs + (Nones(n - 1) + [Some(m)]);
    assert all[..|all| - n] == outs && all[|all| - n..|all| - 1] == Nones(n - 1);
  }

  lemma SentAsWire(env: Env, p: Packed)
    requires p.Known(env)
    ensures p.Sent(None).Valid()
    ensures SendBytes(p.Sent(None)) == AsPacket(env, p).Bytes(env) && AsPacket(env, p).Correct()
  {
    hide FrameBody, Sendable, Finalized, Headed, WireLen;
    SendsFrame(env, p, None);
  }

  /** From pack to parse: any list of messages finalised and serialised one after the other is returned by the parser
      in order, each exactly once, at the last byte of its frame, with the header values and the full-width payload. */
  lemma {:induction false} PackedStreamRoundTrip(env: Env, rx: Rx, ps: seq<Packed>)
    requires Inv(env, rx) && rx.Waiting() && rx.signer.None?
    requires forall i :: 0 <= i < |ps| ==> ps[i].Known(env)
    ensures var (rx', outs) := Feed(env, rx, SendStream(env, ps));
            && AnsweredInFull(env, ps, outs)
            && Inv(env, rx') && rx'.Waiting() && rx'.signer.None?
    decreases |ps|
  {
    hide ParseChar, InvActive, FrameBody, Carries, Feed, AnsweredInFull, FullWidth, SendBytes, Finalized, Sendable;
    if ps == [] {
      NothingPacked(env, rx);
    } else {
      var init, p := ps[..|ps| - 1], ps[|ps| - 1];
      PackedStreamRoundTrip(env, rx, init);
      var (mid, outs) := Feed(env, rx, SendStream(env, init));
      SentAsWire(env, p);
      var m := PacketRoundTrip(env, mid, AsPacket(env, p));
      CarriedInFull(env, p, false, m, []);
      FeedConcat(env, rx, SendStream(env, init), AsPacket(env, p).Bytes(env));
      AnsweredOneMoreInFull(env, ps, outs, m);
    }
  }

  lemma NothingPacked(env: Env, rx: Rx)
    requires rx.Safe()
    ensures Feed(env, rx, []) == (rx, []) && AnsweredInFull(env, [], [])
  {
  }

  // ----- Unpacking -----

  /** `mavlink_msg_*_decode` of a message type of some width: zeros, overwritten with the payload received. */
  function Decoded(m: Msg, width: byte): seq<byte>
    requires m.Valid()
  {
    var n := if m.len < width then m.len else width;
    ZeroFill(m.payload[..n], width)
  }

  /** Decoding undoes packing, both on the finalised message, where checksum bytes stand behind the payload, and on the
      message that was received. */
  lemma DecodeUndoesPack(env: Env, p: Packed, m: Msg)
    requires p.Known(env) && !p.v1
    requires var h := p.Head(false); Carries(env, m, h, p.m.payload[..h.len], [])
    ensures p.Sent(None).Valid()
    ensures Decoded(p.Sent(None), p.length) == p.m.payload[..p.length]
    ensures Decoded(m, p.length) == p.m.payload[..p.length]
  {
    hide Checksum, CkA, CkB, FrameSum, Trim, Finalized, Lookup, CrcExtra;
    var h := p.Head(false);
    FinalizedKeepsPayload(h, false, p.crcExtra, None);
    FillUndoesTrim(p.m.payload, p.length);
  }

  // ----- Bytes to message to bytes -----

  /** Re-serialising a received message reproduces its bytes exactly if it is MAVLink 1 or its payload came trimmed. */
  lemma ReserialiseIff(env: Env, v1: bool, m: Msg, bytes: seq<byte>)
    requires IsBody(env, v1, m, bytes)
    ensures SendBytes(m) == [m.magic] + bytes <==> v1 || Trim(m.payload, m.len) == m.len
  {
    hide Core, CkA, CkB, Filled, Sum;
    BodyVersion(env, v1, m, bytes);
    var payload := m.payload[..m.len];
    var ck := [CkA(m.checksum), CkB(m.checksum)];
    if v1 || Trim(m.payload, m.len) == m.len {
      assert m.(len := m.len) == m;
      assert [m.magic] + Core(v1, m) + payload + ck + SignatureOf(m) == [m.magic] + bytes;
    } else {
      assert |SendBytes(m)| < |[m.magic] + bytes|;
    }
  }

  // ----- Signed messages -----

  /** What the signer hashed is what the checker hashes: with equal keys the tag matches. */
  lemma TagAgrees(env: Env, p: Packed, s: Signer, m: Msg)
    requires p.Known(env) && !p.v1
    requires var h := p.Head(true);
             var payload := p.m.payload[..h.len];
             var sum := FrameSum(env, h, payload);
             var block := Block(env.digest, s, Header(false, h), payload, [CkA(sum), CkB(sum)]);
             Carries(env, m, h, payload, block)
    ensures m.Valid() && TagMatches(env.digest, s.key, m)
    ensures StreamOf(m) == StreamId(p.sysid, p.compid, s.linkId) && TimestampOf(m) == s.timestamp % LIMIT_48
  {
    hide Checksum, CkA, CkB, FrameSum, Trim, Filled, Le48, FromLe48, Final48, IdByte0, IdByte1, IdByte2;
    var h := p.Head(true);
    var payload := p.m.payload[..h.len];
    var stamp := Stamp(s);
    assert m.signature[..7] == stamp;
    assert m.signature[1..7] == Le48(s.timestamp);
    assert m.signature[7..] == Final48(env.digest, s.key + Header(false, h) + payload + [m.ck0, m.ck1] + stamp);
    Le48RoundTrip(s.timestamp);
    assert Core(false, m) == Core(false, h);
  }

  /** The signed round trip: between equal keys the parser's verdict on a signed, serialised message depends only on the
      timestamp rules of its stream, or on the application's override. */
  lemma SignedRoundTrip(env: Env, rx: Rx, p: Packed, s: Signer) returns (m: Msg)
    requires Inv(env, rx) && rx.Waiting() && p.Known(env) && !p.v1
    requires rx.signer.Some? && rx.signer.value.key == s.key && rx.streams.Some?
    ensures var h := p.Head(true);
            var payload := p.m.payload[..h.len];
            var sum := FrameSum(env, h, payload);
            var block := Block(env.digest, s, Header(false, h), payload, [CkA(sum), CkB(sum)]);
            var sent := p.Sent(Some(block));
            sent.Valid() &&
            var bytes := SendBytes(sent);
            var id, t := StreamId(p.sysid, p.compid, s.linkId), s.timestamp % LIMIT_48;
            var isNew := Fresh(rx.signer.value.timestamp, rx.streams.value, id, t);
            var (rx', outs) := Feed(env, rx, bytes);
            && |bytes| >= 1 && Arrives(env, p, block, m)
            && outs == Nones(|bytes| - 1) + [if isNew || env.acceptUnsigned(p.m.msgid) then Some(m) else None]
            && Inv(env, rx') && (outs[|bytes| - 1].Some? ==> rx'.Waiting())
            && rx'.signer == Some(if isNew && t > rx.signer.value.timestamp then rx.signer.value.(timestamp := t)
                                  else rx.signer.value)
            && rx'.streams == Some(if isNew then Remember(rx.streams.value, id, t) else rx.streams.value)
  {
    hide Checksum, CkA, CkB, FrameSum, Trim, Fresh, Feed, InvActive, Block, TagMatches, Finalized;
    hide SendBytes, FrameBody, Carries, Remember, Lookup;
    var h := p.Head(true);
    var payload := p.m.payload[..h.len];
    var sum := FrameSum(env, h, payload);
    var block := Block(env.digest, s, Header(false, h), payload, [CkA(sum), CkB(sum)]);
    SendsFrame(env, p, Some(block));
    m := FrameRoundTrip(env, rx, h, payload, block);
    TagAgrees(env, p, s, m);
    CarriedInFull(env, p, true, m, block);
    CarriesSigned(env, m, h, payload, block);
  }

  lemma CarriesSigned(env: Env, m: Msg, h: Msg, payload: seq<byte>, signature: seq<byte>)
    requires Carries(env, m, h, payload, signature)
    ensures m.Signed() == h.Signed() && m.msgid == h.msgid
  {
  }

  // ----- A start marker that is not a start -----

  /**
   A frame that is dropped at a MAVLink 2 marker restarts the parser in the version it was
   reading: the next bytes are answered as a frame of that version, MAVLink 1 after
   MAVLink 1 and MAVLink 2 after MAVLink 2.
   */
  lemma RestartKeepsVersion(env: Env, rx: Rx, h: Msg, payload: seq<byte>, signature: seq<byte>) returns (m: Msg)
    requires Inv(env, rx) && !rx.Waiting() && ParseChar(env, rx, STX).0.state == GotStx
    requires Sendable(h, payload, signature) && h.IsV1() == rx.v1
    ensures m.Valid() && m.magic == (if rx.v1 then STX_MAVLINK1 else STX) && Carries(env, m, h, payload, signature)
    ensures var start := ParseChar(env, rx, STX).0;
            var body := FrameBody(env, h, payload, signature);
            Feed(env, rx, [STX] + body).1
            == [None] + Nones(|body| - 1) + [if Passes(env, start, m) then Some(m) else None]
  {
    hide ParseChar, InvActive, Core, Consumed, FrameBody, Sendable, Passes, SigningAfter, Carries, Feed, Nones;
    var body := FrameBody(env, h, payload, signature);
    var start := Restarted(env, rx, h, payload, signature);
    var n := |body| - 1;
    var mid, outs := FeedFollows(env, start, h, payload, signature, n);
    m := FollowStep(env, mid, h, payload, signature, n);
    FeedAround(env, rx, STX, body[..n], body[n]);
    assert [STX] + body[..n] + [body[n]] == [STX] + body;
    SameSigning(env, start, mid, ParseChar(env, mid, body[n]).0, m);
    SameMagic(env, m, h, payload, signature);
  }

  lemma SameMagic(env: Env, m: Msg, h: Msg, payload: seq<byte>, signature: seq<byte>)
    requires Carries(env, m, h, payload, signature) && Sendable(h, payload, signature)
    ensures m.magic == if h.IsV1() then STX_MAVLINK1 else STX
  {
    hide Core, CkA, CkB, FrameSum;
  }

  lemma Restarted(env: Env, rx: Rx, h: Msg, payload: seq<byte>, signature: seq<byte>) returns (start: Rx)
    requires Inv(env, rx) && !rx.Waiting() && ParseChar(env, rx, STX).0.state == GotStx
    requires Sendable(h, payload, signature) && h.IsV1() == rx.v1
    ensures ParseChar(env, rx, STX) == (start, None)
    ensures Following(env, start, h, payload, signature, 0)
  {
    hide ParseChar, InvActive, Core, Consumed, FrameBody, Sendable, IsBody;
    start := ParseChar(env, rx, STX).0;
    var outcome := ParseKeeps(env, rx, STX);
    StartIsEmpty(start);
    NoneConsumed(env, rx, outcome);
  }

  /** A byte that is consumed does not leave the parser at the start of a frame. */
  lemma NoneConsumed(env: Env, rx: Rx, outcome: Outcome)
    requires Inv(env, rx) && !rx.Waiting() && ParseChar(env, rx, STX).0.state == GotStx
    requires Outcomes(env, rx, STX, outcome)
    ensures outcome == Drops
  {
    hide ParseChar, InvActive, Core, IsBody;
    StartIsEmpty(ParseChar(env, rx, STX).0);
  }

  /**
   When a MAVLink 1 frame is dropped at a MAVLink 2 marker: at its second checksum byte, if
   either checksum byte is wrong or the message is refused as unsigned.
   */
  lemma V1RestartsIff(env: Env, rx: Rx)
    requires Inv(env, rx) && !rx.Waiting() && rx.v1
    ensures ParseChar(env, rx, STX).0.state == GotStx <==>
            rx.state in {GotCrc1, GotBadCrc1} && (!CkRight(rx, STX) || !UnsignedPasses(env, rx, rx.msg.msgid))
  {
    hide Accumulate, AccumulateAll, CkA, CkB, CkRight, Core, Consumed, Ck1Char, Lookup;
    if rx.state in {GotCrc1, GotBadCrc1} {
      Ck1Verdict(env, rx, STX);
    }
  }

  /**
   From rest, a damaged MAVLink 1 frame whose last byte is the MAVLink 2 marker, followed by
   the body of a MAVLink 1 frame: the second frame is answered although no byte of the
   stream before it is its marker.
   */
  lemma MarkerAfterBadV1(env: Env, rx: Rx, bad: Msg, badPayload: seq<byte>, sum: bv16, h: Msg, payload: seq<byte>)
    returns (m: Msg)
    requires Inv(env, rx) && rx.Waiting()
    requires Sendable(bad, badPayload, []) && bad.IsV1() && sum != FrameSum(env, bad, badPayload) && CkB(sum) == STX
    requires Sendable(h, payload, []) && h.IsV1()
    ensures m.Valid() && m.magic == STX_MAVLINK1 && Carries(env, m, h, payload, [])
    ensures var first := [STX_MAVLINK1] + Body(true, bad, badPayload, sum, []);
            var body := FrameBody(env, h, payload, []);
            var (mid, outs) := Feed(env, rx, first + body);
            && first[|first| - 1] == STX
            && outs == Nones(|first|) + Nones(|body| - 1) + [if UnsignedPasses(env, rx, m.msgid) then Some(m) else None]
  {
    hide ParseChar, InvActive, Core, Consumed, FrameBody, FrameSum, SigningAfter, Carries, CkA, CkB;
    V1Unsigned(bad, badPayload);
    V1Unsigned(h, payload);
    var first := [STX_MAVLINK1] + Body(true, bad, badPayload, sum, []);
    WrongSumDropped(env, rx, bad, badPayload, sum);
    var (start, outs) := Feed(env, rx, first);
    StartIsEmpty(start);
    var body := FrameBody(env, h, payload, []);
    var n := |body| - 1;
    var mid, outs' := FeedFollows(env, start, h, payload, [], n);
    m := FollowStep(env, mid, h, payload, [], n);
    CarriesSigned(env, m, h, payload, []);
    SameMagic(env, m, h, payload, []);
    FeedSnoc(env, start, body[..n], body[n]);
    assert body[..n] + [body[n]] == body;
    FeedConcat(env, rx, first, body);
    assert outs + (outs' + [ParseChar(env, mid, body[n]).1]) == outs + outs' + [ParseChar(env, mid, body[n]).1];
  }

  lemma V1Unsigned(h: Msg, payload: seq<byte>)
    requires Sendable(h, payload, []) && h.IsV1()
    ensures !h.Signed() && h.magic == STX_MAVLINK1
  {
  }
}
