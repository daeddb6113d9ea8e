/**
 Streams of signed messages: delivered in full and in order the first time, and never
 again, whatever comes in between.
 */
module SignedRuns {

  import opened Crc
  import opened Wire
  import opened Signing
  import opened Parser
  import opened ParserRuns
  import opened Channel
  import opened RoundTrip
  import opened Wrappers

  /** The signature block of a message that this signer signs. */
  function BlockOf(env: Env, s: Signer, p: Packed): (block: seq<byte>)
    requires p.m.Valid()
    ensures |block| == SIGNATURE_BLOCK_LEN
  {
    var h := p.Head(true);
    var payload := p.m.payload[..h.len];
    var sum := FrameSum(env, h, payload);
    Block(env.digest, s, Header(false, h), payload, [CkA(sum), CkB(sum)])
  }

  function SignedBytes(env: Env, s: Signer, p: Packed): seq<byte>
    requires p.Known(env) && !p.v1
  {
    var block := BlockOf(env, s, p);
    SendsFrame(env, p, Some(block));
    SendBytes(p.Sent(Some(block)))
  }

  /**
   Finalising and serialising in place: the bytes written are those of the packed message,
   signed exactly if the channel sends MAVLink 2 and its signing state says so.
   */
  method Transmit(env: Env, tx: Transmitter, msg: Message, systemId: byte, componentId: byte,
                  minLength: byte, length: byte, crcExtra: byte, buf: array<byte>)
    returns (n: nat)
    requires msg.Valid() && buf.Length >= 280 && buf != msg.payload && buf != msg.signature
    requires Packed(msg.View(), tx.outV1, tx.txSeq, systemId, componentId, minLength, length, crcExtra).Known(env)
    modifies tx`txSeq, msg, msg.payload, msg.signature, tx.signing, buf
    ensures n <= 280 && tx.txSeq == (old(tx.txSeq) + 1) % 256 && tx.signing == old(tx.signing)
    ensures var p := old(Packed(msg.View(), tx.outV1, tx.txSeq, systemId, componentId, minLength, length, crcExtra));
            if old(!tx.outV1 && tx.signing != null && tx.signing.signOutgoing) then
              && buf[..n] == SignedBytes(env, old(tx.signing.View()), p)
              && tx.signing.View() == Ticked(old(tx.signing.View()))
            else
              buf[..n] == SendBytes(p.Sent(None)) && ViewSigner(tx.signing) == old(ViewSigner(tx.signing))
    ensures buf[n..] == old(buf[n..])
  {
    hide Checksum, CkA, CkB, Finalized, SendBytes, Block, Trim, FrameSum;
    ghost var p := Packed(msg.View(), tx.outV1, tx.txSeq, systemId, componentId, minLength, length, crcExtra);
    ghost var signs := tx.Signs();
    ghost var s := ViewSigner(tx.signing);
    KnownSum(env, p, signs);
    var _ := tx.FinalizeMessage(env.digest, msg, systemId, componentId, minLength, length, crcExtra);
    n := MsgToSendBuffer(buf, msg);
  }

  lemma KnownSum(env: Env, p: Packed, signs: bool)
    requires p.Known(env) && (signs ==> !p.v1)
    ensures var h := p.Head(signs);
      h.IsV1() == p.v1 && FrameSum(env, h, p.m.payload[..h.len]) == Checksum(p.v1, h, p.m.payload[..h.len], p.crcExtra)
  {
    hide Checksum;
    KnownSeed(env, p);
  }

  /** The signer after some packets. */
  function After(s: Signer, n: nat): (r: Signer)
    ensures r == s.(timestamp := r.timestamp)
    ensures s.timestamp + n < LIMIT_64 ==> r.timestamp == s.timestamp + n
  {
    if n == 0 then s else Ticked(After(s, n - 1))
  }

  /** MAVLink 2 messages of one system and component, signed within six bytes of timestamp. */
  ghost predicate FromOne(env: Env, s: Signer, ps: seq<Packed>, sysid: byte, compid: byte) {
    && s.timestamp + |ps| <= LIMIT_48
    && forall i :: 0 <= i < |ps| ==> ps[i].Known(env) && !ps[i].v1 && ps[i].sysid == sysid && ps[i].compid == compid
  }

  function SignedStream(env: Env, s: Signer, ps: seq<Packed>): seq<byte>
    requires forall i :: 0 <= i < |ps| ==> ps[i].Known(env) && !ps[i].v1
    decreases |ps|
  {
    if ps == [] then []
    else SignedStream(env, s, ps[..|ps| - 1]) + SignedBytes(env, After(s, |ps| - 1), ps[|ps| - 1])
  }

  /** One answer a message, at the last byte of its frame, as it was sent. */
  ghost predicate AnsweredSigned(env: Env, s: Signer, ps: seq<Packed>, outs: seq<Option<Msg>>)
    requires forall i :: 0 <= i < |ps| ==> ps[i].Known(env) && !ps[i].v1
    decreases |ps|
  {
    if ps == [] then outs == []
    else
      var p, signer := ps[|ps| - 1], After(s, |ps| - 1);
      var n := |SignedBytes(env, signer, p)|;
      && 1 <= n <= |outs|
      && AnsweredSigned(env, s, ps[..|ps| - 1], outs[..|outs| - n])
      && outs[|outs| - n..|outs| - 1] == Nones(n - 1)
      && outs[|outs| - 1].Some?
      && Arrives(env, p, BlockOf(env, signer, p), outs[|outs| - 1].value)
  }

  /** The receiver shares the key, and remembers the stream with everything before `next`. */
  ghost predicate Listening(env: Env, rx: Rx, key: seq<byte>, id: StreamId, next: nat) {
    && Inv(env, rx) && rx.signer.Some? && rx.signer.value.key == key && rx.streams.Some?
    && var k := Find(rx.streams.value, id);
       k < |rx.streams.value| && rx.streams.value[k].last + 1 == next
  }

  /** What is remembered is found again. */
  lemma Remembered(streams: seq<Stream>, id: StreamId, t: nat)
    ensures var r, k := Remember(streams, id, t), Find(Remember(streams, id, t), id);
      k < |r| && r[k].last == t
  {
    var i := Find(streams, id);
    var r := Remember(streams, id, t);
    assert r[i].id == id && r[i].last == t;
    assert Find(r, id) <= i;
    forall j | 0 <= j < i ensures r[j].id != id {
      assert r[j] == streams[j];
    }
  }

  /** The next packet of a stream is fresh, and no packet up to the last one is. */
  lemma FreshFrom(env: Env, rx: Rx, key: seq<byte>, id: StreamId, next: nat, t: nat)
    requires Listening(env, rx, key, id, next)
    ensures Fresh(rx.signer.value.timestamp, rx.streams.value, id, t) <==> t >= next
  {
  }

  /** One signed message: what is answered and what is remembered. */
  lemma OneSigned(env: Env, rx: Rx, s: Signer, p: Packed) returns (m: Msg)
    requires Inv(env, rx) && rx.Waiting() && p.Known(env) && !p.v1 && s.timestamp < LIMIT_48
    requires rx.signer.Some? && rx.signer.value.key == s.key && rx.streams.Some?
    ensures var bytes := SignedBytes(env, s, p);
      var id := StreamId(p.sysid, p.compid, s.linkId);
      var isNew := Fresh(rx.signer.value.timestamp, rx.streams.value, id, s.timestamp);
      var (rx', outs) := Feed(env, rx, bytes);
      && |bytes| >= 1 && Arrives(env, p, BlockOf(env, s, p), m) && Inv(env, rx')
      && outs == Nones(|bytes| - 1) + [if isNew || env.acceptUnsigned(p.m.msgid) then Some(m) else None]
      && (isNew ==> rx'.Waiting() && Listening(env, rx', s.key, id, s.timestamp + 1))
      && (!isNew ==> rx'.signer == rx.signer && rx'.streams == rx.streams)
  {
    hide Fresh, Remember, Feed, Arrives, Block, InvActive, SendBytes, Finalized;
    m := SignedRoundTrip(env, rx, p, s);
    Remembered(rx.streams.value, StreamId(p.sysid, p.compid, s.linkId), s.timestamp);
  }

  /**
   From one signer to a receiver that accepts its first packet: every message of the list is
   delivered as it was sent, in order, each once, at the last byte of its frame.
   */
  lemma {:induction false} SignedStreamRoundTrip(
      env: Env, rx: Rx, s: Signer, ps: seq<Packed>, sysid: byte, compid: byte)
    requires Inv(env, rx) && rx.Waiting() && FromOne(env, s, ps, sysid, compid)
    requires rx.signer.Some? && rx.signer.value.key == s.key && rx.streams.Some?
    requires ps != [] ==>
               Fresh(rx.signer.value.timestamp, rx.streams.value, StreamId(sysid, compid, s.linkId), s.timestamp)
    ensures var (rx', outs) := Feed(env, rx, SignedStream(env, s, ps));
      && AnsweredSigned(env, s, ps, outs) && Inv(env, rx') && rx'.Waiting()
      && (if ps == [] then rx' == rx
          else Listening(env, rx', s.key, StreamId(sysid, compid, s.linkId), s.timestamp + |ps|))
    decreases |ps|
  {
    hide Feed, InvActive, Fresh, SignedBytes, Arrives, AnsweredSigned, Listening, After, BlockOf, Nones;
    if ps == [] {
      NothingSigned(env, rx, s);
    } else {
      var init, p, signer := ps[..|ps| - 1], ps[|ps| - 1], After(s, |ps| - 1);
      SignedStreamRoundTrip(env, rx, s, init, sysid, compid);
      var (mid, outs) := Feed(env, rx, SignedStream(env, s, init));
      var id := StreamId(sysid, compid, s.linkId);
      if init != [] {
        FreshFrom(env, mid, s.key, id, signer.timestamp, signer.timestamp);
        KeyOf(env, mid, s.key, id, signer.timestamp);
      } else {
        FirstSigner(s);
      }
      var m := OneSigned(env, mid, signer, p);
      FeedConcat(env, rx, SignedStream(env, s, init), SignedBytes(env, signer, p));
      AnsweredSignedMore(env, s, ps, outs, m);
    }
  }

  lemma FirstSigner(s: Signer)
    ensures After(s, 0) == s
  {
  }

  lemma KeyOf(env: Env, rx: Rx, key: seq<byte>, id: StreamId, next: nat)
    requires Listening(env, rx, key, id, next)
    ensures rx.signer.Some? && rx.signer.value.key == key && rx.streams.Some?
  {
  }

  lemma NothingSigned(env: Env, rx: Rx, s: Signer)
    requires rx.Safe()
    ensures Feed(env, rx, []) == (rx, []) && AnsweredSigned(env, s, [], [])
  {
  }

  lemma AnsweredSignedMore(env: Env, s: Signer, ps: seq<Packed>, outs: seq<Option<Msg>>, m: Msg)
    requires forall i :: 0 <= i < |ps| ==> ps[i].Known(env) && !ps[i].v1
    requires ps != [] && ps[|ps| - 1].Known(env) && !ps[|ps| - 1].v1
    requires AnsweredSigned(env, s, ps[..|ps| - 1], outs)
    requires |SignedBytes(env, After(s, |ps| - 1), ps[|ps| - 1])| >= 1
    requires Arrives(env, ps[|ps| - 1], BlockOf(env, After(s, |ps| - 1), ps[|ps| - 1]), m)
    ensures var n := |SignedBytes(env, After(s, |ps| - 1), ps[|ps| - 1])|;
      AnsweredSigned(env, s, ps, outs + (Nones(n - 1) + [Some(m)]))
  {
    hide Arrives, SignedBytes, BlockOf;
    var n := |SignedBytes(env, After(s, |ps| - 1), ps[|ps| - 1])|;
    var all := outs + (Nones(n - 1) + [Some(m)]);
    assert all[..|all| - n] == outs && all[|all| - n..|all| - 1] == Nones(n - 1);
  }

  // ----- Replays -----

  /** The receiver has the key, and remembers the stream with nothing before `next` left to accept. */
  ghost predicate Passed(rx: Rx, key: seq<byte>, id: StreamId, next: nat) {
    rx.signer.Some? && rx.signer.value.key == key && rx.streams.Some? && PassedIn(rx.streams.value, id, next)
  }

  ghost predicate PassedIn(streams: seq<Stream>, id: StreamId, next: nat) {
    var k := Find(streams, id);
    k < |streams| && streams[k].last + 1 >= next
  }

  /** Remembering anything that is accepted takes nothing back. */
  lemma RememberPasses(timestamp: nat, streams: seq<Stream>, other: StreamId, t: nat, id: StreamId, next: nat)
    requires PassedIn(streams, id, next) && Fresh(timestamp, streams, other, t)
    ensures PassedIn(Remember(streams, other, t), id, next)
  {
    var r, k := Remember(streams, other, t), Find(streams, id);
    if other == id {
      Remembered(streams, id, t);
    } else {
      assert r[k] == streams[k];
      assert Find(r, id) == k by {
        assert forall j :: 0 <= j < k && j != Find(streams, other) ==> r[j] == streams[j];
      }
    }
  }

  lemma CheckPasses(env: Env, rx: Rx, m: Msg, key: seq<byte>, id: StreamId, next: nat)
    requires Passed(rx, key, id, next) && m.Valid()
    ensures var check := Check(env.digest, rx.signer, rx.streams, m);
      Passed(rx.(signer := check.signer, streams := check.streams), key, id, next)
  {
    hide TagMatches, StreamOf, TimestampOf, Fresh, Remember, PassedIn;
    var timestamp, streams := rx.signer.value.timestamp, rx.streams.value;
    if Fresh(timestamp, streams, StreamOf(m), TimestampOf(m)) {
      RememberPasses(timestamp, streams, StreamOf(m), TimestampOf(m), id, next);
    }
  }

  lemma BytePasses(env: Env, rx: Rx, c: byte, key: seq<byte>, id: StreamId, next: nat)
    requires rx.Safe() && Passed(rx, key, id, next)
    ensures Passed(ParseChar(env, rx, c).0, key, id, next)
  {
    hide HeaderChar, PayloadChar, Ck0Char, Ck1Char, Check, PassedIn;
    if rx.state == SignatureWait && rx.signatureWait == 1 {
      CheckPasses(env, rx, WithSignature(rx, c), key, id, next);
    }
  }

  /** Whatever bytes arrive, what has been accepted stays behind. */
  lemma {:induction false} BytesPass(env: Env, rx: Rx, bytes: seq<byte>, key: seq<byte>, id: StreamId, next: nat)
    requires rx.Safe() && Passed(rx, key, id, next)
    ensures Passed(Feed(env, rx, bytes).0, key, id, next)
    decreases |bytes|
  {
    hide ParseChar, Passed;
    if bytes != [] {
      var n := |bytes| - 1;
      BytesPass(env, rx, bytes[..n], key, id, next);
      BytePasses(env, Feed(env, rx, bytes[..n]).0, bytes[n], key, id, next);
    }
  }

  /** A receiver that has passed a timestamp finds it stale. */
  lemma Stale(rx: Rx, key: seq<byte>, id: StreamId, next: nat, t: nat)
    requires Passed(rx, key, id, next) && t < next
    ensures rx.signer.Some? && rx.signer.value.key == key && rx.streams.Some?
    ensures !Fresh(rx.signer.value.timestamp, rx.streams.value, id, t)
  {
  }

  lemma ListeningPassed(env: Env, rx: Rx, key: seq<byte>, id: StreamId, next: nat)
    requires Listening(env, rx, key, id, next)
    ensures Passed(rx, key, id, next)
  {
  }

  /** The parser after the stream and any bytes behind it. */
  lemma AfterStream(env: Env, rx: Rx, s: Signer, ps: seq<Packed>, sysid: byte, compid: byte, between: seq<byte>)
    returns (after: Rx)
    requires Inv(env, rx) && rx.Waiting() && FromOne(env, s, ps, sysid, compid) && ps != []
    requires rx.signer.Some? && rx.signer.value.key == s.key && rx.streams.Some?
    requires Fresh(rx.signer.value.timestamp, rx.streams.value, StreamId(sysid, compid, s.linkId), s.timestamp)
    ensures after == Feed(env, rx, SignedStream(env, s, ps) + between).0 && Inv(env, after)
    ensures Passed(after, s.key, StreamId(sysid, compid, s.linkId), s.timestamp + |ps|)
  {
    hide Feed, InvActive, Fresh, SignedBytes, Arrives, AnsweredSigned, Listening, Passed;
    hide Located, Explained, SignedStream;
    SignedStreamRoundTrip(env, rx, s, ps, sysid, compid);
    var stream, id := SignedStream(env, s, ps), StreamId(sysid, compid, s.linkId);
    var mid := Feed(env, rx, stream).0;
    after := Feed(env, mid, between).0;
    FeedConcat(env, rx, stream, between);
    Soundness(env, mid, between);
    ListeningPassed(env, mid, s.key, id, s.timestamp + |ps|);
    BytesPass(env, mid, between, s.key, id, s.timestamp + |ps|);
  }

  /**
   No frame of the stream is delivered a second time, whatever bytes have come in between,
   unless the application accepts its message unsigned; and the attempt changes nothing
   that is remembered.
   */
  lemma ReplayRefused(
      env: Env, rx: Rx, s: Signer, ps: seq<Packed>, sysid: byte, compid: byte, between: seq<byte>, k: nat)
    requires Inv(env, rx) && rx.Waiting() && FromOne(env, s, ps, sysid, compid) && k < |ps|
    requires rx.signer.Some? && rx.signer.value.key == s.key && rx.streams.Some?
    requires Fresh(rx.signer.value.timestamp, rx.streams.value, StreamId(sysid, compid, s.linkId), s.timestamp)
    requires Feed(env, rx, SignedStream(env, s, ps) + between).0.Waiting()
    ensures var after := Feed(env, rx, SignedStream(env, s, ps) + between).0;
      var again := SignedBytes(env, After(s, k), ps[k]);
      var (rx', outs) := Feed(env, after, again);
      && |again| >= 1
      && (outs[|again| - 1].Some? <==> env.acceptUnsigned(ps[k].m.msgid)) && outs[..|again| - 1] == Nones(|again| - 1)
      && rx'.signer == after.signer && rx'.streams == after.streams
  {
    hide Feed, InvActive, Fresh, SignedBytes, Arrives, AnsweredSigned, Listening, Passed, Nones, SignedStream, BlockOf;
    var after := AfterStream(env, rx, s, ps, sysid, compid, between);
    Stale(after, s.key, StreamId(sysid, compid, s.linkId), s.timestamp + |ps|, After(s, k).timestamp);
    var m := OneSigned(env, after, After(s, k), ps[k]);
  }
}
