/**
 The parser in place: channel status and receive buffer updated byte by byte, and
 the datagram receiver that drives it.
 */
module Receive {

  import opened Crc
  import opened Wire
  import opened Signing
  import opened Parser
  import opened ParserRuns
  import opened Channel
  import opened Wrappers

  /** `mavlink_status_t` with its receive buffer. */
  class RxChannel {
    var state: ParseState
    var v1: bool
    var packetIdx: nat
    var signatureWait: nat
    const rxmsg: Message
    const signing: SigningState?
    const streams: SigningStreams?

    ghost function Repr(): set<object>
      reads this
    {
      {this, rxmsg, rxmsg.payload, rxmsg.signature}
      + (if signing == null then {} else {signing})
      + (if streams == null then {} else {streams, streams.stream})
    }

    ghost predicate Valid()
      reads this, Repr()
    {
      && rxmsg.Valid() && (streams != null ==> streams.Valid())
      && View().Safe()
    }

    /** The channel as a value. */
    ghost function View(): Rx
      reads this, Repr(), streams
      requires streams != null ==> streams.Valid()
    {
      Rx(state, v1, packetIdx, signatureWait, rxmsg.View(), ViewSigner(signing), ViewStreams(streams))
    }

    constructor (signing: SigningState?, streams: SigningStreams?)
      requires streams != null ==> streams.Valid()
      ensures Valid() && state == Uninit
      ensures this.signing == signing && this.streams == streams
    {
      this.signing, this.streams := signing, streams;
      state, v1, packetIdx, signatureWait := Uninit, false, 0, 0;
      rxmsg := new Message();
    }

    /** `mavlink_start_checksum` on an emptied receive buffer. */
    method StartFrame()
      requires Valid()
      modifies this`state, rxmsg
      ensures Valid()
      ensures View() == old(View()).(state := GotStx, msg := old(rxmsg.View()).(len := 0, checksum := X25_INIT_CRC))
    {
      state := GotStx;
      rxmsg.len := 0;
      rxmsg.checksum := X25_INIT_CRC;
    }

    /** `mavlink_update_checksum` */
    method UpdateChecksum(c: byte)
      modifies rxmsg`checksum
      ensures rxmsg.View() == Fold(old(rxmsg.View()), c)
    {
      rxmsg.checksum := CrcAccumulate(c, rxmsg.checksum);
    }

    method Header(c: byte)
      requires Valid() && InHeader(state)
      modifies this, rxmsg
      ensures Valid() && View() == HeaderChar(old(View()), c)
    {
      hide HeaderChar;
      if state in {GotStx, GotLength, GotIncompatFlags} {
        HeaderFlags(c);
      } else if state in {GotCompatFlags, GotSeq, GotSysid} {
        HeaderSource(c);
      } else {
        HeaderMsgid(c);
      }
    }

    method HeaderFlags(c: byte)
      requires Valid() && state in {GotStx, GotLength, GotIncompatFlags}
      modifies this, rxmsg
      ensures Valid() && View() == HeaderChar(old(View()), c)
    {
      hide Accumulate;
      if state == GotStx {
        rxmsg.len := c;
        packetIdx := 0;
        UpdateChecksum(c);
        if v1 {
          rxmsg.incompat, rxmsg.compat := 0, 0;
          state := GotCompatFlags;
        } else {
          state := GotLength;
        }
      } else if state == GotLength {
        rxmsg.incompat := c;
        if c / 2 != 0 {
          state := Idle;
        } else {
          UpdateChecksum(c);
          state := GotIncompatFlags;
        }
      } else {
        rxmsg.compat := c;
        UpdateChecksum(c);
        state := GotCompatFlags;
      }
    }

    method HeaderSource(c: byte)
      requires Valid() && state in {GotCompatFlags, GotSeq, GotSysid}
      modifies this, rxmsg
      ensures Valid() && View() == HeaderChar(old(View()), c)
    {
      hide Accumulate;
      if state == GotCompatFlags {
        rxmsg.seqno := c;
        state := GotSeq;
      } else if state == GotSeq {
        rxmsg.sysid := c;
        state := GotSysid;
      } else {
        rxmsg.compid := c;
        state := GotCompid;
      }
      UpdateChecksum(c);
    }

    method HeaderMsgid(c: byte)
      requires Valid() && state in {GotCompid, GotMsgid1, GotMsgid2}
      modifies this, rxmsg
      ensures Valid() && View() == HeaderChar(old(View()), c)
    {
      hide Accumulate, Id2, Id3;
      if state == GotCompid {
        rxmsg.msgid := c;
        state := if !v1 then GotMsgid1 else if rxmsg.len > 0 then GotMsgid3 else GotPayload;
      } else if state == GotMsgid1 {
        rxmsg.msgid := Id2(rxmsg.msgid, c);
        state := GotMsgid2;
      } else {
        rxmsg.msgid := Id3(rxmsg.msgid, c);
        state := if rxmsg.len > 0 then GotMsgid3 else GotPayload;
      }
      UpdateChecksum(c);
    }

    method Payload(c: byte)
      requires Valid() && state == GotMsgid3
      modifies this, rxmsg, rxmsg.payload
      ensures Valid() && View() == PayloadChar(old(View()), c)
    {
      hide Accumulate;
      rxmsg.payload[packetIdx] := c;
      packetIdx := packetIdx + 1;
      UpdateChecksum(c);
      if packetIdx == rxmsg.len {
        state := GotPayload;
      }
    }

    /** `memset` of the payload tail. */
    method ZeroFillPayload(maxLen: byte)
      requires rxmsg.Valid() && packetIdx <= PAYLOAD_BUFFER_LEN
      modifies rxmsg.payload
      ensures rxmsg.payload[..] == ZeroedFrom(old(rxmsg.payload[..]), packetIdx, maxLen)
    {
      if packetIdx < maxLen {
        for i := packetIdx to maxLen
          invariant rxmsg.payload[..] == ZeroedFrom(old(rxmsg.payload[..]), packetIdx, i)
        {
          rxmsg.payload[i] := 0;
        }
      }
    }

    method Ck0(env: Env, c: byte)
      requires Valid() && state == GotPayload && env.table != [] && Sorted(env.table)
      modifies this, rxmsg, rxmsg.payload
      ensures Valid() && View() == Ck0Char(env, old(View()), c)
    {
      hide Accumulate, CkA, ZeroedFrom, Lookup;
      var e := GetMsgEntry(env.table, rxmsg.msgid);
      UpdateChecksum(if e.Some? then e.value.crcExtra else 0);
      state := if c != CkA(rxmsg.checksum) then GotBadCrc1 else GotCrc1;
      rxmsg.ck0 := c;
      if e.Some? {
        ZeroFillPayload(e.value.maxLen);
      }
    }

    method Ck1(env: Env, c: byte) returns (framing: Framing)
      requires Valid() && (state == GotCrc1 || state == GotBadCrc1)
      modifies this, rxmsg
      ensures Valid() && (View(), framing) == Ck1Char(env, old(View()), c)
    {
      hide CkB;
      framing := if state == GotBadCrc1 || c != CkB(rxmsg.checksum) then BadCrc else Good;
      rxmsg.ck1 := c;
      if rxmsg.incompat % 2 == 1 {
        state := SignatureWait;
        signatureWait := SIGNATURE_BLOCK_LEN;
        if framing != BadCrc {
          framing := Incomplete;
        }
      } else {
        if signing != null && !env.acceptUnsigned(rxmsg.msgid) && framing != BadCrc {
          framing := BadSignature;
        }
        state := Idle;
      }
    }

    /** One byte of the signature block. */
    method Collect(c: byte)
      requires Valid() && state == SignatureWait
      modifies this`signatureWait, rxmsg.signature
      ensures View() == old(View()).(signatureWait := old(signatureWait) - 1,
                msg := old(rxmsg.View()).(signature :=
                  old(rxmsg.signature[..])[SIGNATURE_BLOCK_LEN - old(signatureWait) := c]))
    {
      rxmsg.signature[SIGNATURE_BLOCK_LEN - signatureWait] := c;
      signatureWait := signatureWait - 1;
    }

    method Signature(env: Env, c: byte) returns (framing: Framing)
      requires Valid() && state == SignatureWait
      modifies this, rxmsg.signature, signing, streams, if streams == null then {} else {streams.stream}
      ensures Valid() && (View(), framing) == SignatureChar(env, old(View()), c)
    {
      hide Check;
      Collect(c);
      framing := Incomplete;
      if signatureWait == 0 {
        framing := Conclude(env);
      }
    }

    /** The check of a complete signature block. */
    method Conclude(env: Env) returns (framing: Framing)
      requires rxmsg.Valid() && (streams != null ==> streams.Valid()) && packetIdx <= MAX_PAYLOAD_LEN
      modifies this`state, signing, streams, if streams == null then {} else {streams.stream}
      ensures Valid()
      ensures var rx := old(View());
        var check := Check(env.digest, rx.signer, rx.streams, rx.msg);
        && View() == rx.(state := Idle, signer := check.signer, streams := check.streams)
        && framing == if check.ok || env.acceptUnsigned(rx.msg.msgid) then Good else BadSignature
    {
      hide Check;
      var ok := SignatureCheck(env.digest, signing, streams, rxmsg.View());
      if !ok && env.acceptUnsigned(rxmsg.msgid) {
        ok := true;
      }
      framing := if ok then Good else BadSignature;
      state := Idle;
    }

    method FrameByte(env: Env, c: byte) returns (framing: Framing)
      requires Valid() && env.table != [] && Sorted(env.table)
      modifies Repr()
      ensures Valid() && (View(), framing) == FrameChar(env, old(View()), c)
    {
      hide HeaderChar, PayloadChar, Ck0Char, Ck1Char, SignatureChar;
      framing := Incomplete;
      if state == Uninit || state == Idle {
        if c == STX || c == STX_MAVLINK1 {
          v1 := c == STX_MAVLINK1;
          rxmsg.magic := c;
          StartFrame();
        }
      } else if InHeader(state) {
        Header(c);
      } else if state == GotMsgid3 {
        Payload(c);
      } else if state == GotPayload {
        Ck0(env, c);
      } else if state == SignatureWait {
        framing := Signature(env, c);
      } else {
        framing := Ck1(env, c);
      }
    }

    /** `mavlink_parse_char` */
    method ParseByte(env: Env, c: byte) returns (out: Option<Msg>)
      requires Valid() && env.table != [] && Sorted(env.table)
      modifies Repr()
      ensures Valid() && (View(), out) == ParseChar(env, old(View()), c)
    {
      hide FrameChar;
      var framing := FrameByte(env, c);
      out := None;
      if framing == BadCrc || framing == BadSignature {
        state := Idle;
        if c == STX {
          StartFrame();
        }
      } else if framing == Good {
        out := Some(rxmsg.View());
      }
    }
  }

  // ----- Datagrams -----

  /** The messages among the parser's answers, in order. */
  function Delivered(outs: seq<Option<Msg>>): seq<Msg>
    decreases |outs|
  {
    if outs == [] then []
    else
      var last := outs[|outs| - 1];
      Delivered(outs[..|outs| - 1]) + if last.Some? then [last.value] else []
  }

  lemma {:induction false} DeliveredConcat(a: seq<Option<Msg>>, b: seq<Option<Msg>>)
    ensures Delivered(a + b) == Delivered(a) + Delivered(b)
    decreases |b|
  {
    if b == [] {
      assert a + b == a;
    } else {
      assert (a + b)[..|a + b| - 1] == a + b[..|b| - 1];
      DeliveredConcat(a, b[..|b| - 1]);
    }
  }

  lemma {:induction false} NothingDelivered(n: nat)
    ensures Delivered(Nones(n)) == []
    decreases n
  {
    if n > 0 {
      assert Nones(n)[..n - 1] == Nones(n - 1);
      NothingDelivered(n - 1);
    }
  }

  lemma OneDelivered(n: nat, m: Msg)
    ensures Delivered(Nones(n) + [Some(m)]) == [m]
  {
    NothingDelivered(n);
    assert (Nones(n) + [Some(m)])[..n] == Nones(n);
  }

  function Concat(datagrams: seq<seq<byte>>): seq<byte>
    decreases |datagrams|
  {
    if datagrams == [] then [] else Concat(datagrams[..|datagrams| - 1]) + datagrams[|datagrams| - 1]
  }

  lemma NonesMore(n: nat)
    ensures Nones(n) + [None] == Nones(n + 1)
  {
  }

  lemma NoneYet()
    ensures Nones(0) == []
  {
  }

  /** `MAVLinkReceiver` */
  class Receiver {
    const channel: RxChannel
    var datagram: seq<byte>
    var lastMessage: Option<Msg>

    constructor (channel: RxChannel)
      ensures this.channel == channel && datagram == [] && lastMessage == None
    {
      this.channel, datagram, lastMessage := channel, [], None;
    }

    method SetNewDatagram(d: seq<byte>)
      modifies this`datagram
      ensures datagram == d
    {
      datagram := d;
    }

    /** Feed the datagram to the parser up to and including the next message: its bytes, and what it is. */
    method Scan(env: Env) returns (n: nat, out: Option<Msg>)
      requires channel.Valid() && env.table != [] && Sorted(env.table) && this !in channel.Repr()
      modifies channel.Repr()
      ensures channel.Valid() && n <= |datagram| && (if out.Some? then n > 0 else n == |datagram|)
      ensures datagram == old(datagram)
      ensures Feed(env, old(channel.View()), datagram[..n])
              == (channel.View(), if out.Some? then Nones(n - 1) + [out] else Nones(n))
    {
      hide Feed, ParseChar, Nones, RxChannel.View;
      n, out := 0, None;
      NoneYet();
      FeedNothing(env, channel.View());
      ghost var rx0 := channel.View();
      while n < |datagram|
        invariant n <= |datagram| && channel.Valid()
        invariant Feed(env, rx0, datagram[..n]) == (channel.View(), Nones(n))
      {
        ghost var mid := channel.View();
        out := channel.ParseByte(env, datagram[n]);
        FeedSnoc(env, rx0, datagram[..n], datagram[n]);
        assert datagram[..n] + [datagram[n]] == datagram[..n + 1];
        n := n + 1;
        if out.Some? {
          return;
        }
        NonesMore(n - 1);
      }
      out := None;
    }

    /** Parse up to and including the next message; the rest of the datagram stays. */
    method ParseMessage(env: Env) returns (found: bool)
      requires channel.Valid() && env.table != [] && Sorted(env.table) && this !in channel.Repr()
      modifies this, channel.Repr()
      ensures channel.Valid()
      ensures |datagram| <= |old(datagram)| && datagram == old(datagram)[|old(datagram)| - |datagram|..]
      ensures if found then |datagram| < |old(datagram)| && lastMessage.Some? else datagram == []
      ensures var n := |old(datagram)| - |datagram|;
              Feed(env, old(channel.View()), old(datagram)[..n])
              == (channel.View(), if found then Nones(n - 1) + [lastMessage] else Nones(n))
    {
      hide Feed, ParseChar;
      var n, out := Scan(env);
      found := out.Some?;
      if found {
        lastMessage := out;
      }
      datagram := datagram[n..];
    }

    /** The receive loop over one datagram: parse until there is nothing left in it. */
    method Drain(env: Env) returns (msgs: seq<Msg>)
      requires channel.Valid() && env.table != [] && Sorted(env.table) && this !in channel.Repr()
      modifies this, channel.Repr()
      ensures channel.Valid() && datagram == []
      ensures Received(env, old(channel.View()), old(datagram), channel.View(), msgs)
    {
      hide Feed, ParseChar, Received, Delivered, Nones;
      msgs := [];
      ghost var rx0, all := channel.View(), datagram;
      ghost var done: seq<byte> := [];
      ReceivedNothing(env, rx0);
      var found := true;
      while found
        invariant channel.Valid() && all == done + datagram
        invariant Received(env, rx0, done, channel.View(), msgs)
        invariant !found ==> datagram == []
        decreases |datagram|, found
      {
        ghost var rx1, before := channel.View(), datagram;
        found := ParseMessage(env);
        ghost var piece := before[..|before| - |datagram|];
        ReceivedMore(env, rx0, done, rx1, msgs, piece);
        done := done + piece;
        if found {
          OneDelivered(|piece| - 1, lastMessage.value);
          msgs := msgs + [lastMessage.value];
        } else {
          NothingDelivered(|piece|);
          assert msgs + [] == msgs;
        }
      }
      assert done == all;
    }

    /** Datagram after datagram, each drained before the next: the messages are those of the unbroken byte stream. */
    method ReceiveAll(env: Env, datagrams: seq<seq<byte>>) returns (msgs: seq<Msg>)
      requires channel.Valid() && env.table != [] && Sorted(env.table) && this !in channel.Repr()
      modifies this, channel.Repr()
      ensures channel.Valid()
      ensures Received(env, old(channel.View()), Concat(datagrams), channel.View(), msgs)
    {
      hide Feed, ParseChar;
      msgs := [];
      ghost var rx0 := channel.View();
      ReceivedNothing(env, rx0);
      for i := 0 to |datagrams|
        invariant channel.Valid()
        invariant Received(env, rx0, Concat(datagrams[..i]), channel.View(), msgs)
      {
        ghost var rx1 := channel.View();
        SetNewDatagram(datagrams[i]);
        var more := Drain(env);
        assert datagrams[..i + 1][..i] == datagrams[..i];
        ReceivedMore(env, rx0, Concat(datagrams[..i]), rx1, msgs, datagrams[i]);
        msgs := msgs + more;
      }
      assert datagrams[..|datagrams|] == datagrams;
    }
  }

  /** The parser's state and the messages after some bytes. */
  ghost predicate Received(env: Env, rx0: Rx, bytes: seq<byte>, rx: Rx, msgs: seq<Msg>)
    requires rx0.Safe()
  {
    var (end, outs) := Feed(env, rx0, bytes);
    rx == end && msgs == Delivered(outs)
  }

  lemma ReceivedNothing(env: Env, rx: Rx)
    requires rx.Safe()
    ensures Received(env, rx, [], rx, [])
  {
    FeedNothing(env, rx);
  }

  lemma ReceivedMore(env: Env, rx0: Rx, done: seq<byte>, rx1: Rx, msgs: seq<Msg>, piece: seq<byte>)
    requires rx0.Safe() && rx1.Safe() && Received(env, rx0, done, rx1, msgs)
    ensures var (rx2, outs) := Feed(env, rx1, piece);
            Received(env, rx0, done + piece, rx2, msgs + Delivered(outs))
  {
    hide Feed;
    FeedConcat(env, rx0, done, piece);
    var (_, outs0) := Feed(env, rx0, done);
    var (_, outs1) := Feed(env, rx1, piece);
    DeliveredConcat(outs0, outs1);
  }

  lemma FeedNothing(env: Env, rx: Rx)
    requires rx.Safe()
    ensures Feed(env, rx, []) == (rx, []) && Nones(0) == []
  {
  }
}
