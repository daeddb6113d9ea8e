/**
 The parser over byte streams: everything it delivers is a correct frame, every
 correct frame is delivered, damage is detected, and it always finds its way back.
 */
module ParserRuns {

  import opened Crc
  import opened Wire
  import opened Signing
  import opened Parser
  import opened Wrappers

  /** The parser after some bytes, and its answer to each of them. */
  function Feed(env: Env, rx: Rx, bytes: seq<byte>): (r: (Rx, seq<Option<Msg>>))
    requires rx.Safe()
    ensures r.0.Safe() && |r.1| == |bytes|
    decreases |bytes|
  {
    if bytes == [] then (rx, [])
    else
      var (mid, outs) := Feed(env, rx, bytes[..|bytes| - 1]);
      var (end, out) := ParseChar(env, mid, bytes[|bytes| - 1]);
      (end, outs + [out])
  }

  lemma {:induction false} FeedConcat(env: Env, rx: Rx, a: seq<byte>, b: seq<byte>)
    requires rx.Safe()
    ensures var (mid, outs) := Feed(env, rx, a);
            var (end, outs') := Feed(env, mid, b);
            Feed(env, rx, a + b) == (end, outs + outs')
    decreases |b|
  {
    hide ParseChar;
    if b == [] {
      assert a + b == a;
      assert Feed(env, rx, a).1 + [] == Feed(env, rx, a).1;
    } else {
      assert (a + b)[..|a + b| - 1] == a + b[..|b| - 1];
      FeedConcat(env, rx, a, b[..|b| - 1]);
      var (mid, outs) := Feed(env, rx, a);
      var (_, outs') := Feed(env, mid, b);
      var (_, init) := Feed(env, mid, b[..|b| - 1]);
      assert outs + init + [outs'[|b| - 1]] == outs + outs';
    }
  }

  lemma FeedOne(env: Env, rx: Rx, c: byte)
    requires rx.Safe()
    ensures var (rx', out) := ParseChar(env, rx, c);
            Feed(env, rx, [c]) == (rx', [out])
  {
    hide ParseChar;
    assert [c][..0] == [];
    var (_, out) := ParseChar(env, rx, c);
    assert Feed(env, rx, []).1 + [out] == [out];
  }

  /** So many bytes that complete nothing. */
  function Nones(n: nat): (outs: seq<Option<Msg>>)
    ensures |outs| == n
  {
    seq(n, _ => None)
  }

  predicate IsMarker(c: byte) {
    c == STX || c == STX_MAVLINK1
  }

  // ----- Soundness on arbitrary bytes -----

  /**
   The byte at i started a frame with this marker. It is the marker itself, except exactly
   when it ended a MAVLink 1 frame that was then dropped: the frame it starts is still
   read as MAVLink 1.
   */
  ghost predicate StartedAt(env: Env, rx: Rx, bytes: seq<byte>, i: nat, magic: byte)
    requires rx.Safe() && i < |bytes|
  {
    var before := Feed(env, rx, bytes[..i]).0;
    && (bytes[i] == magic || (bytes[i] == STX && magic == STX_MAVLINK1))
    && (bytes[i] != magic <==> !before.Waiting() && before.v1)
  }

  /** A message was completed at position j by exactly the bytes since a frame was started at i, and is let through. */
  ghost predicate ExplainedBy(env: Env, rx: Rx, bytes: seq<byte>, i: nat, j: nat, m: Msg)
    requires rx.Safe() && j < |bytes|
  {
    && i < j && StartedAt(env, rx, bytes, i, m.magic)
    && IsBody(env, m.IsV1(), m, bytes[i + 1..j + 1])
    && Vetted(env, rx, m, bytes[i + 1..j + 1])
  }

  ghost predicate Explained(env: Env, rx: Rx, bytes: seq<byte>, j: nat, m: Msg)
    requires rx.Safe() && j < |bytes|
  {
    exists i :: 0 <= i < j && ExplainedBy(env, rx, bytes, i, j, m)
  }

  /** A parser in the middle of a frame has consumed exactly the bytes since some start marker. */
  ghost predicate Located(env: Env, rx: Rx, bytes: seq<byte>)
    requires rx.Safe()
  {
    var now := Feed(env, rx, bytes).0;
    !now.Waiting() ==>
      exists i :: 0 <= i < |bytes| && StartedAt(env, rx, bytes, i, now.msg.magic) && Consumed(now) == bytes[i + 1..]
  }

  lemma StartedLonger(env: Env, rx: Rx, bytes: seq<byte>, longer: seq<byte>, i: nat, magic: byte)
    requires rx.Safe() && i < |bytes| <= |longer| && longer[..|bytes|] == bytes
    ensures StartedAt(env, rx, longer, i, magic) == StartedAt(env, rx, bytes, i, magic)
  {
    assert longer[..i] == bytes[..i] && longer[i] == bytes[i];
  }

  /** The parser has the same key, if any, and the same room for streams, if any. */
  predicate SameSetup(a: Rx, b: Rx) {
    && a.signer.Some? == b.signer.Some? && a.streams.Some? == b.streams.Some?
    && (a.signer.Some? ==> a.signer.value.key == b.signer.value.key)
  }

  lemma ByteSetup(env: Env, rx: Rx, c: byte)
    requires rx.Safe()
    ensures SameSetup(rx, ParseChar(env, rx, c).0)
  {
    hide HeaderChar, PayloadChar, Ck0Char, Ck1Char, TagMatches, Fresh, Remember;
  }

  /** No byte changes the configuration of the signing. */
  lemma {:induction false} FeedSetup(env: Env, rx: Rx, bytes: seq<byte>)
    requires rx.Safe()
    ensures SameSetup(rx, Feed(env, rx, bytes).0)
    decreases |bytes|
  {
    hide ParseChar;
    if bytes != [] {
      FeedSetup(env, rx, bytes[..|bytes| - 1]);
      ByteSetup(env, Feed(env, rx, bytes[..|bytes| - 1]).0, bytes[|bytes| - 1]);
    }
  }

  lemma SameVetted(env: Env, rx: Rx, now: Rx, m: Msg, body: seq<byte>)
    requires SameSetup(rx, now)
    ensures Vetted(env, rx, m, body) == Vetted(env, now, m, body)
  {
  }

  /** Where the frame of a message that is just completed began. */
  lemma Completes(env: Env, rx: Rx, bytes: seq<byte>, c: byte) returns (i: nat)
    requires rx.Safe() && Inv(env, Feed(env, rx, bytes).0) && Located(env, rx, bytes)
    requires var now := Feed(env, rx, bytes).0; !now.Waiting() && ParseChar(env, now, c).1.Some?
    ensures i < |bytes|
    ensures var now, all := Feed(env, rx, bytes).0, bytes + [c];
      && ExplainedBy(env, rx, all, i, |bytes|, ParseChar(env, now, c).1.value)
      && all[i + 1..|bytes| + 1] == Consumed(now) + [c]
  {
    hide ParseChar, InvActive, IsBody, Core, Consumed, StartedAt, Vetted, SameSetup;
    var all, now := bytes + [c], Feed(env, rx, bytes).0;
    var outcome := ParseKeeps(env, now, c);
    var m := ParseChar(env, now, c).1.value;
    i :| 0 <= i < |bytes| && StartedAt(env, rx, bytes, i, now.msg.magic) && Consumed(now) == bytes[i + 1..];
    StartedLonger(env, rx, bytes, all, i, now.msg.magic);
    assert all[i + 1..|bytes| + 1] == bytes[i + 1..] + [c];
    BodyVersion(env, now.v1, m, Consumed(now) + [c]);
    MagicOf(env, now);
    DeliversVetted(env, now, c);
    FeedSetup(env, rx, bytes);
    SameVetted(env, rx, now, m, Consumed(now) + [c]);
  }

  lemma LocatedStep(env: Env, rx: Rx, bytes: seq<byte>, c: byte)
    requires rx.Safe() && Inv(env, Feed(env, rx, bytes).0) && Located(env, rx, bytes)
    ensures var (rx', out) := ParseChar(env, Feed(env, rx, bytes).0, c);
            && Inv(env, rx') && Located(env, rx, bytes + [c])
            && (out.Some? ==> Explained(env, rx, bytes + [c], |bytes|, out.value))
  {
    hide ParseChar, InvActive, IsBody, Core, Accumulate, AccumulateAll, Consumed, StartedAt, ExplainedBy;
    var all, now := bytes + [c], Feed(env, rx, bytes).0;
    var outcome := ParseKeeps(env, now, c);
    FeedSnoc(env, rx, bytes, c);
    if now.Waiting() || outcome == Drops {
      Restarts(env, rx, bytes, c);
    } else if outcome == Delivers {
      var i := Completes(env, rx, bytes, c);
    } else {
      var i :| 0 <= i < |bytes| && StartedAt(env, rx, bytes, i, now.msg.magic) && Consumed(now) == bytes[i + 1..];
      StartedLonger(env, rx, bytes, all, i, now.msg.magic);
      assert all[i + 1..] == bytes[i + 1..] + [c];
    }
  }

  /** A byte that leaves the parser between frames, or that starts one. */
  lemma Restarts(env: Env, rx: Rx, bytes: seq<byte>, c: byte)
    requires rx.Safe()
    requires var now := Feed(env, rx, bytes).0;
      var (rx', out) := ParseChar(env, now, c);
      && Inv(env, now) && Inv(env, rx')
      && if now.Waiting() then rx' == Hunt(now, c)
         else rx'.v1 == now.v1 && (rx'.Waiting() || (rx'.state == GotStx && c == STX))
    ensures Located(env, rx, bytes + [c])
  {
    hide InvActive, Core, Consumed, ParseChar;
    var all, now := bytes + [c], Feed(env, rx, bytes).0;
    FeedSnoc(env, rx, bytes, c);
    var rx' := ParseChar(env, now, c).0;
    if !rx'.Waiting() {
      StartIsEmpty(rx');
      MagicOf(env, rx');
      assert all[..|bytes|] == bytes && all[|bytes|] == c && Consumed(rx') == all[|bytes| + 1..];
      assert StartedAt(env, rx, all, |bytes|, rx'.msg.magic);
    }
  }

  lemma FeedSnoc(env: Env, rx: Rx, bytes: seq<byte>, c: byte)
    requires rx.Safe()
    ensures var (mid, outs) := Feed(env, rx, bytes);
            var (rx', out) := ParseChar(env, mid, c);
            Feed(env, rx, bytes + [c]) == (rx', outs + [out])
  {
    hide ParseChar;
    assert (bytes + [c])[..|bytes + [c]| - 1] == bytes;
  }

  lemma StartIsEmpty(rx: Rx)
    requires rx.Safe() && rx.state == GotStx
    ensures Consumed(rx) == []
  {
    hide Core;
  }

  lemma MagicOf(env: Env, rx: Rx)
    requires Inv(env, rx) && !rx.Waiting()
    ensures rx.msg.magic == if rx.v1 then STX_MAVLINK1 else STX
  {
  }

  lemma BodyVersion(env: Env, v1: bool, m: Msg, bytes: seq<byte>)
    requires IsBody(env, v1, m, bytes)
    ensures m.magic == (if v1 then STX_MAVLINK1 else STX) && m.IsV1() == v1
  {
    hide Core, AccumulateAll;
  }

  /**
   On any bytes at all: whenever the parser returns a message, the bytes since the start of
   its frame are its complete header, payload, two right checksum bytes and, if flagged,
   signature; the frame was started by its own marker, exactly unless that byte ended a
   MAVLink 1 frame; and with signing set up, unless the application accepts the message
   unsigned, its last six bytes are the hash of the key and all bytes before them.
   */
  lemma {:induction false} Soundness(env: Env, rx: Rx, bytes: seq<byte>)
    requires Inv(env, rx) && rx.Waiting()
    ensures var (rx', outs) := Feed(env, rx, bytes);
            && Inv(env, rx') && Located(env, rx, bytes)
            && forall j :: 0 <= j < |bytes| && outs[j].Some? ==> Explained(env, rx, bytes, j, outs[j].value)
    decreases |bytes|
  {
    hide ParseChar, InvActive, Located, ExplainedBy;
    if bytes == [] {
      WaitingLocated(env, rx);
    } else {
      var n := |bytes| - 1;
      var init := bytes[..n];
      Soundness(env, rx, init);
      var (mid, outs) := Feed(env, rx, init);
      LocatedStep(env, rx, init, bytes[n]);
      assert init + [bytes[n]] == bytes;
      forall j | 0 <= j < n && outs[j].Some?
        ensures Explained(env, rx, bytes, j, outs[j].value)
      {
        var i :| 0 <= i < j && ExplainedBy(env, rx, init, i, j, outs[j].value);
        ExplainedLonger(env, rx, init, bytes, i, j, outs[j].value);
      }
    }
  }

  /**
   On any bytes at all: the byte that changes the signer or the remembered streams completes
   a signed message whose last six bytes are the hash of the key and all bytes before them.
   */
  lemma OnlyAuthenticRemembered(env: Env, rx: Rx, bytes: seq<byte>, c: byte)
    requires Inv(env, rx) && rx.Waiting()
    ensures var (before, all) := (Feed(env, rx, bytes).0, bytes + [c]);
      var (after, outs) := Feed(env, rx, all);
      after.signer != before.signer || after.streams != before.streams ==>
        && outs[|bytes|].Some? && rx.signer.Some?
        && exists i :: 0 <= i < |bytes| && ExplainedBy(env, rx, all, i, |bytes|, outs[|bytes|].value)
             && outs[|bytes|].value.Signed()
             && Authentic(env.digest, rx.signer.value.key, outs[|bytes|].value.magic, all[i + 1..|bytes| + 1])
  {
    hide ParseChar, Feed, InvActive, IsBody, Consumed, StartedAt, Vetted, Authentic, Located;
    var before, all := Feed(env, rx, bytes).0, bytes + [c];
    Soundness(env, rx, bytes);
    FeedSnoc(env, rx, bytes, c);
    FeedSetup(env, rx, bytes);
    if before.Waiting() {
      var outcome := ParseKeeps(env, before, c);
    } else {
      DeliversVetted(env, before, c);
      if ParseChar(env, before, c).1.Some? {
        var i := Completes(env, rx, bytes, c);
      }
    }
  }

  lemma WaitingLocated(env: Env, rx: Rx)
    requires rx.Safe() && rx.Waiting()
    ensures Located(env, rx, [])
  {
  }

  lemma ExplainedLonger(env: Env, rx: Rx, init: seq<byte>, bytes: seq<byte>, i: nat, j: nat, m: Msg)
    requires rx.Safe() && j < |init| <= |bytes| && init == bytes[..|init|] && ExplainedBy(env, rx, init, i, j, m)
    ensures ExplainedBy(env, rx, bytes, i, j, m)
  {
    hide IsBody, StartedAt, Vetted;
    StartedLonger(env, rx, init, bytes, i, m.magic);
    assert init[i + 1..j + 1] == bytes[i + 1..j + 1];
  }

  /** The start of a delivered message is determined: no other byte explains it. */
  lemma StartUnique(env: Env, rx: Rx, bytes: seq<byte>, i: nat, i': nat, j: nat, m: Msg)
    requires rx.Safe() && j < |bytes|
    requires ExplainedBy(env, rx, bytes, i, j, m) && ExplainedBy(env, rx, bytes, i', j, m)
    ensures i == i'
  {
    hide StartedAt, Core, Sum, Filled, CkA, CkB;
    assert |bytes[i + 1..j + 1]| == |bytes[i' + 1..j + 1]|;
  }

  // ----- Every correct frame is delivered -----

  /** Header values, payload and signature that make a frame. */
  ghost predicate Sendable(h: Msg, payload: seq<byte>, signature: seq<byte>) {
    && IsMarker(h.magic) && |payload| == h.len
    && h.incompat <= 1 && (h.IsV1() ==> h.incompat == 0 && h.compat == 0)
    && h.msgid < (if h.IsV1() then 0x100 else MSGID_LIMIT)
    && |signature| == if h.Signed() then SIGNATURE_BLOCK_LEN else 0
  }

  function FrameSum(env: Env, h: Msg, payload: seq<byte>): bv16 {
    Checksum(h.IsV1(), h, payload, CrcExtra(env.table, h.msgid))
  }

  /** A correct frame after its marker. */
  function FrameBody(env: Env, h: Msg, payload: seq<byte>, signature: seq<byte>): (bytes: seq<byte>)
    ensures |bytes| == CoreLen(h.IsV1()) + |payload| + 2 + |signature|
  {
    Body(h.IsV1(), h, payload, FrameSum(env, h, payload), signature)
  }

  /** The received message carries what was sent. */
  ghost predicate Carries(env: Env, m: Msg, h: Msg, payload: seq<byte>, signature: seq<byte>) {
    && m.Valid()
    && m.magic == h.magic && m.len == h.len && m.seqno == h.seqno && m.sysid == h.sysid && m.compid == h.compid
    && m.msgid == h.msgid && m.incompat == h.incompat && m.compat == h.compat
    && m.checksum == FrameSum(env, h, payload)
    && m.ck0 == CkA(m.checksum) && m.ck1 == CkB(m.checksum)
    && m.payload[..m.len] == payload && Filled(env, m)
    && (h.Signed() ==> m.signature == signature)
  }

  /** Equal headers on the wire are equal headers. */
  lemma CoreDetermines(v1: bool, a: Msg, b: Msg)
    requires Core(v1, a) == Core(v1, b)
    requires a.msgid < (if v1 then 0x100 else MSGID_LIMIT) && b.msgid < (if v1 then 0x100 else MSGID_LIMIT)
    ensures a.len == b.len && a.seqno == b.seqno && a.sysid == b.sysid && a.compid == b.compid && a.msgid == b.msgid
    ensures !v1 ==> a.incompat == b.incompat && a.compat == b.compat
  {
    hide IdByte1, IdByte2;
    var x, y := Core(v1, a), Core(v1, b);
    if v1 {
      assert x[0] == y[0] && x[1] == y[1] && x[2] == y[2] && x[3] == y[3] && x[4] == y[4];
    } else {
      assert x[0] == y[0] && x[1] == y[1] && x[2] == y[2] && x[3] == y[3] && x[4] == y[4];
      assert x[5] == y[5] && x[6] == y[6] && x[7] == y[7] && x[8] == y[8];
      IdDetermined(a.msgid, b.msgid);
    }
  }

  /** A header with the same payload gives the same checksum. */
  lemma SameSum(env: Env, v1: bool, m: Msg, h: Msg, payload: seq<byte>)
    requires Core(v1, m) == Core(v1, h) && v1 == h.IsV1()
    requires m.msgid < (if v1 then 0x100 else MSGID_LIMIT) && h.msgid < (if v1 then 0x100 else MSGID_LIMIT)
    ensures Checksum(v1, m, payload, CrcExtra(env.table, m.msgid)) == FrameSum(env, h, payload)
  {
    hide Accumulate, AccumulateAll;
    CoreDetermines(v1, m, h);
  }

  /** The parts of a frame, and of any prefix of it that reaches into the checksum bytes. */
  lemma Slices(core: seq<byte>, payload: seq<byte>, ck: seq<byte>, rest: seq<byte>, k: nat)
    requires |core| + |payload| < k <= |core| + |payload| + |ck| + |rest| && ck != []
    ensures var all := core + payload + ck + rest;
            && all[..k][..|core|] == core
            && all[..k][|core|..|core| + |payload|] == payload
            && all[..k][|core| + |payload|] == ck[0]
            && all[|core| + |payload|..|core| + |payload| + |ck|] == ck
            && all[|core| + |payload| + |ck|..] == rest
  {
  }

  /** A complete body is a correct frame of exactly one message. */
  lemma BodyDetermines(env: Env, m: Msg, h: Msg, payload: seq<byte>, signature: seq<byte>)
    requires Sendable(h, payload, signature)
    requires IsBody(env, h.IsV1(), m, FrameBody(env, h, payload, signature))
    ensures Carries(env, m, h, payload, signature)
  {
    hide Accumulate, AccumulateAll, Core, CkA, CkB, Filled, Checksum;
    var v1 := h.IsV1();
    var bytes := FrameBody(env, h, payload, signature);
    var sum := FrameSum(env, h, payload);
    Slices(Core(v1, h), payload, [CkA(sum), CkB(sum)], signature, |bytes|);
    Slices(Core(v1, m), m.payload[..m.len], [CkA(m.checksum), CkB(m.checksum)], SignatureOf(m), |bytes|);
    var n := CoreLen(v1);
    assert bytes[..|bytes|][..n] == Core(v1, h) && bytes[..|bytes|][..n] == Core(v1, m);
    CoreDetermines(v1, m, h);
    SameSum(env, v1, m, h, payload);
  }

  /** Whether the signing configuration lets a complete message through. */
  predicate Passes(env: Env, rx: Rx, m: Msg)
    requires m.Valid()
  {
    if m.Signed() then SignedPasses(env, rx, m) else UnsignedPasses(env, rx, m.msgid)
  }

  /** The parser is k bytes into a correct frame. */
  ghost predicate Following(env: Env, rx: Rx, h: Msg, payload: seq<byte>, signature: seq<byte>, k: nat) {
    && Inv(env, rx) && !rx.Waiting() && rx.v1 == h.IsV1()
    && Sendable(h, payload, signature)
    && k < |FrameBody(env, h, payload, signature)|
    && Consumed(rx) == FrameBody(env, h, payload, signature)[..k]
  }

  /** Past the header, the receive buffer holds the sent header; past the payload, the payload and checksum. */
  lemma FollowingHolds(env: Env, rx: Rx, h: Msg, payload: seq<byte>, signature: seq<byte>, k: nat)
    requires Following(env, rx, h, payload, signature, k)
    requires rx.state in {GotCrc1, GotBadCrc1, SignatureWait}
    ensures Core(rx.v1, rx.msg) == Core(rx.v1, h) && rx.msg.len == h.len && rx.msg.msgid == h.msgid
    ensures rx.msg.Signed() == h.Signed()
    ensures rx.msg.payload[..rx.msg.len] == payload
    ensures rx.msg.checksum == FrameSum(env, h, payload) && rx.msg.ck0 == CkA(rx.msg.checksum)
    ensures rx.state != SignatureWait ==>
              k == CoreLen(rx.v1) + h.len + 1
              && FrameBody(env, h, payload, signature)[k] == CkB(rx.msg.checksum)
    ensures rx.state == SignatureWait ==>
              k == CoreLen(rx.v1) + h.len + 2 + SIGNATURE_BLOCK_LEN - rx.signatureWait
  {
    hide AccumulateAll, Core, CkA, CkB, Filled, Checksum, Consumed, FrameBody, FrameSum;
    var m, v1 := rx.msg, rx.v1;
    var rest := ConsumedParts(env, rx);
    FollowingLength(env, rx, h, payload, signature, k, rest);
    FrameParts(env, h, payload, signature, m.payload[..m.len], m.ck0, rest, k);
    CoreDetermines(v1, m, h);
    SameSum(env, v1, m, h, payload);
  }

  /** What a prefix of a frame that reaches into the checksum bytes consists of. */
  lemma FrameParts(env: Env, h: Msg, payload: seq<byte>, signature: seq<byte>,
                   content: seq<byte>, ck0: byte, rest: seq<byte>, k: nat)
    requires var n := CoreLen(h.IsV1()); |content| == |payload| && k == n + |payload| + 1 + |rest|
    requires k < |FrameBody(env, h, payload, signature)|
    requires FrameBody(env, h, payload, signature)[..k] == Core(h.IsV1(), h) + content + [ck0] + rest
    ensures content == payload && ck0 == CkA(FrameSum(env, h, payload))
    ensures rest == [] ==> FrameBody(env, h, payload, signature)[k] == CkB(FrameSum(env, h, payload))
  {
    hide Core, CkA, CkB, FrameSum;
    var core, sum := Core(h.IsV1(), h), FrameSum(env, h, payload);
    Slices(core, payload, [CkA(sum), CkB(sum)], signature, k);
    Slices(core, content, [ck0], rest, k);
  }

  lemma ConsumedParts(env: Env, rx: Rx) returns (rest: seq<byte>)
    requires Inv(env, rx) && rx.state in {GotCrc1, GotBadCrc1, SignatureWait}
    ensures Consumed(rx) == Core(rx.v1, rx.msg) + rx.msg.payload[..rx.msg.len] + [rx.msg.ck0] + rest
    ensures |rest| == if rx.state == SignatureWait then 1 + SIGNATURE_BLOCK_LEN - rx.signatureWait else 0
  {
    hide Core, AccumulateAll, Accumulate;
    var m := rx.msg;
    if rx.state == SignatureWait {
      rest := [m.ck1] + m.signature[..SIGNATURE_BLOCK_LEN - rx.signatureWait];
      var head := Core(rx.v1, m) + m.payload[..m.len];
      assert head + [m.ck0, m.ck1] == head + [m.ck0] + [m.ck1];
    } else {
      rest := [];
      assert Consumed(rx) + [] == Consumed(rx);
    }
  }

  /** The length byte, consumed early, fixes where the checksum stands. */
  lemma FollowingLength(env: Env, rx: Rx, h: Msg, payload: seq<byte>, signature: seq<byte>, k: nat, rest: seq<byte>)
    requires Following(env, rx, h, payload, signature, k)
    requires rx.state in {GotCrc1, GotBadCrc1, SignatureWait}
    requires Consumed(rx) == Core(rx.v1, rx.msg) + rx.msg.payload[..rx.msg.len] + [rx.msg.ck0] + rest
    ensures Core(rx.v1, rx.msg) == Core(rx.v1, h) && rx.msg.len == h.len
    ensures k == CoreLen(rx.v1) + h.len + 1 + |rest|
  {
    hide AccumulateAll, Accumulate, CkA, CkB, Filled, Checksum, IdByte0, IdByte1, IdByte2;
    var got, bytes := Consumed(rx), FrameBody(env, h, payload, signature);
    var n := CoreLen(rx.v1);
    assert got[..n] == Core(rx.v1, rx.msg);
    assert bytes[..k][..n] == bytes[..n] && bytes[..n] == Core(rx.v1, h);
    assert Core(rx.v1, rx.msg)[0] == rx.msg.len && Core(rx.v1, h)[0] == h.len;
  }

  /** A signed message leaves the signing state its check leaves, any other message leaves it alone. */
  ghost predicate SigningAfter(env: Env, rx: Rx, rx': Rx, m: Msg)
    requires m.Valid()
  {
    if m.Signed() then
      var check := Check(env.digest, rx.signer, rx.streams, m);
      rx'.signer == check.signer && rx'.streams == check.streams
    else rx'.signer == rx.signer && rx'.streams == rx.streams
  }

  /** The next byte of a correct frame is consumed; the last one completes the message, and only signing can veto it. */
  lemma FollowStep(env: Env, rx: Rx, h: Msg, payload: seq<byte>, signature: seq<byte>, k: nat) returns (m: Msg)
    requires Following(env, rx, h, payload, signature, k)
    ensures var bytes := FrameBody(env, h, payload, signature);
            var (rx', out) := ParseChar(env, rx, bytes[k]);
            && (k + 1 < |bytes| ==>
                 out == None && Following(env, rx', h, payload, signature, k + 1)
                 && rx'.signer == rx.signer && rx'.streams == rx.streams)
            && (k + 1 == |bytes| ==>
                 && Inv(env, rx') && m.Valid() && Carries(env, m, h, payload, signature)
                 && out == (if Passes(env, rx, m) then Some(m) else None)
                 && (out.Some? ==> rx'.Waiting())
                 && SigningAfter(env, rx, rx', m))
  {
    hide Accumulate, AccumulateAll, Core, CkA, CkB, Filled, Checksum, InvActive, IsBody, Consumed;
    hide Body, HeaderChar, Check;
    var bytes := FrameBody(env, h, payload, signature);
    var c := bytes[k];
    m := rx.msg;
    assert bytes[..k + 1] == bytes[..k] + [c];
    if InHeader(rx.state) {
      FollowHeader(env, rx, h, payload, signature, k);
    } else if rx.state == GotMsgid3 {
      PayloadKeeps(env, rx, c);
      FollowLonger(env, rx, PayloadChar(rx, c), h, payload, signature, k);
    } else if rx.state == GotPayload {
      Ck0Keeps(env, rx, c);
      FollowLonger(env, rx, Ck0Char(env, rx, c), h, payload, signature, k);
    } else {
      FollowingHolds(env, rx, h, payload, signature, k);
      if rx.state == SignatureWait {
        m := FollowSignature(env, rx, h, payload, signature, k);
      } else {
        m := FollowCk1(env, rx, h, payload, signature, k);
      }
    }
  }

  /** A step that consumes the next byte keeps following, if the frame does not end there. */
  lemma FollowLonger(env: Env, rx: Rx, rx': Rx, h: Msg, payload: seq<byte>, signature: seq<byte>, k: nat)
    requires Following(env, rx, h, payload, signature, k)
    requires Inv(env, rx') && Grows(rx, rx', FrameBody(env, h, payload, signature)[k])
    requires rx'.state in {GotMsgid3, GotPayload, GotCrc1, GotBadCrc1} || InHeader(rx'.state)
             || k + 1 < |FrameBody(env, h, payload, signature)|
    ensures Following(env, rx', h, payload, signature, k + 1)
  {
    hide FrameBody, Consumed, InvActive, Sendable;
    var bytes := FrameBody(env, h, payload, signature);
    assert bytes[..k + 1] == bytes[..k] + [bytes[k]];
    FirstByte(env, h, payload, signature);
    if rx'.state in {GotMsgid3, GotPayload, GotCrc1, GotBadCrc1} || InHeader(rx'.state) {
      ConsumedWithin(env, rx');
      assert bytes[..k + 1][0] == bytes[0];
    }
  }

  lemma FirstByte(env: Env, h: Msg, payload: seq<byte>, signature: seq<byte>)
    requires Sendable(h, payload, signature)
    ensures FrameBody(env, h, payload, signature)[0] == h.len && |payload| == h.len
  {
    hide FrameSum, CkA, CkB, IdByte0, IdByte1, IdByte2;
  }

  /** Up to the first checksum byte, what is consumed does not go beyond that byte. */
  lemma ConsumedWithin(env: Env, rx: Rx)
    requires Inv(env, rx)
    requires rx.state in {GotMsgid3, GotPayload, GotCrc1, GotBadCrc1} || InHeader(rx.state)
    ensures var n := CoreLen(rx.v1);
      if InHeader(rx.state) then |Consumed(rx)| <= n
      else 0 < |Consumed(rx)| <= n + rx.msg.len + 1 && Consumed(rx)[0] == rx.msg.len
  {
    hide AccumulateAll, CkA, CkB, Filled, Sum, IdByte0, IdByte1, IdByte2;
  }

  lemma FollowHeader(env: Env, rx: Rx, h: Msg, payload: seq<byte>, signature: seq<byte>, k: nat)
    requires Following(env, rx, h, payload, signature, k) && InHeader(rx.state)
    ensures var (rx', out) := ParseChar(env, rx, FrameBody(env, h, payload, signature)[k]);
            && out == None && Following(env, rx', h, payload, signature, k + 1)
            && rx'.signer == rx.signer && rx'.streams == rx.streams
            && k + 1 < |FrameBody(env, h, payload, signature)|
  {
    hide AccumulateAll, Accumulate, CkA, CkB, Filled, Checksum, IdByte0, IdByte1, IdByte2, Grows, HeaderChar;
    var bytes := FrameBody(env, h, payload, signature);
    assert |Consumed(rx)| == HeaderCount(rx.state, rx.v1) == k;
    if rx.state == GotLength {
      assert bytes[1] == h.incompat;
    }
    HeaderKeeps(env, rx, bytes[k]);
    FollowLonger(env, rx, HeaderChar(rx, bytes[k]), h, payload, signature, k);
  }

  lemma FollowCk1(env: Env, rx: Rx, h: Msg, payload: seq<byte>, signature: seq<byte>, k: nat) returns (m: Msg)
    requires Following(env, rx, h, payload, signature, k)
    requires rx.state == GotCrc1 || rx.state == GotBadCrc1
    ensures var bytes := FrameBody(env, h, payload, signature);
            var (rx', out) := ParseChar(env, rx, bytes[k]);
            && (h.Signed() <==> k + 1 < |bytes|)
            && (k + 1 < |bytes| ==>
                 out == None && Following(env, rx', h, payload, signature, k + 1)
                 && rx'.signer == rx.signer && rx'.streams == rx.streams)
            && (k + 1 == |bytes| ==>
                 && Inv(env, rx') && Carries(env, m, h, payload, signature)
                 && out == (if Passes(env, rx, m) then Some(m) else None)
                 && (out.Some? ==> rx'.Waiting())
                 && rx'.signer == rx.signer && rx'.streams == rx.streams)
  {
    hide AccumulateAll, Accumulate, Core, CkA, CkB, Filled, Checksum, InvActive, IsBody, Carries, Consumed;
    hide Body, Ck1Char, Grows, FrameBody, FrameSum, HeaderChar, PayloadChar, Ck0Char, SignatureChar;
    var bytes := FrameBody(env, h, payload, signature);
    var c := bytes[k];
    FollowingHolds(env, rx, h, payload, signature, k);
    Ck1Verdict(env, rx, c);
    Ck1Keeps(env, rx, c);
    var rx1 := Ck1Char(env, rx, c).0;
    m := rx1.msg;
    if h.Signed() {
      FollowLonger(env, rx, rx1, h, payload, signature, k);
    } else {
      assert bytes[..k + 1] == bytes;
      assert bytes[..k + 1] == bytes[..k] + [c];
      BodyDetermines(env, m, h, payload, signature);
      DropsKeep(env, rx, rx1, c);
    }
  }

  lemma FollowSignature(env: Env, rx: Rx, h: Msg, payload: seq<byte>, signature: seq<byte>, k: nat) returns (m: Msg)
    requires Following(env, rx, h, payload, signature, k)
    requires rx.state == SignatureWait
    ensures var bytes := FrameBody(env, h, payload, signature);
            var (rx', out) := ParseChar(env, rx, bytes[k]);
            && (k + 1 < |bytes| ==>
                 out == None && Following(env, rx', h, payload, signature, k + 1)
                 && rx'.signer == rx.signer && rx'.streams == rx.streams)
            && (k + 1 == |bytes| ==>
                 && Inv(env, rx') && Carries(env, m, h, payload, signature) && m.Signed()
                 && out == (if Passes(env, rx, m) then Some(m) else None)
                 && (out.Some? ==> rx'.Waiting())
                 && rx'.signer == Check(env.digest, rx.signer, rx.streams, m).signer
                 && rx'.streams == Check(env.digest, rx.signer, rx.streams, m).streams)
  {
    hide AccumulateAll, Accumulate, Core, CkA, CkB, Filled, Checksum, InvActive, IsBody, Carries, Consumed;
    hide Body, Grows, Check;
    var bytes := FrameBody(env, h, payload, signature);
    var c := bytes[k];
    FollowingHolds(env, rx, h, payload, signature, k);
    SignatureKeeps(env, rx, c);
    var rx1 := SignatureChar(env, rx, c).0;
    m := rx1.msg;
    if rx.signatureWait > 1 {
      FollowLonger(env, rx, rx1, h, payload, signature, k);
    } else {
      assert bytes[..k + 1] == bytes;
      assert bytes[..k + 1] == bytes[..k] + [c];
      BodyDetermines(env, m, h, payload, signature);
      DropsKeep(env, rx, rx1, c);
    }
  }

  /** From any resting state a correct frame is answered with nothing until its last byte, and then with the message
      it carries, unless signing vetoes it. */
  lemma FrameRoundTrip(env: Env, rx: Rx, h: Msg, payload: seq<byte>, signature: seq<byte>) returns (m: Msg)
    requires Inv(env, rx) && rx.Waiting() && Sendable(h, payload, signature)
    ensures var frame := [h.magic] + FrameBody(env, h, payload, signature);
            var (rx', outs) := Feed(env, rx, frame);
            && Inv(env, rx') && m.Valid() && Carries(env, m, h, payload, signature)
            && outs == Nones(|frame| - 1) + [if Passes(env, rx, m) then Some(m) else None]
            && (Passes(env, rx, m) ==> rx'.Waiting())
            && SigningAfter(env, rx, rx', m)
  {
    hide ParseChar, InvActive, FrameBody, Carries, SigningAfter, Passes, Core, Sendable, Feed, Nones;
    var body := FrameBody(env, h, payload, signature);
    var start := Started(env, rx, h, payload, signature);
    var n := |body| - 1;
    var mid, outs := FeedFollows(env, start, h, payload, signature, n);
    m := FollowStep(env, mid, h, payload, signature, n);
    FeedAround(env, rx, h.magic, body[..n], body[n]);
    assert [h.magic] + body[..n] + [body[n]] == [h.magic] + body;
    NonesAround(n);
    SameSigning(env, rx, mid, ParseChar(env, mid, body[n]).0, m);
  }

  /** A frame whose signature is not authentic is not delivered, except unsigned by the application, nor remembered. */
  lemma ForgedRefused(env: Env, rx: Rx, h: Msg, payload: seq<byte>, signature: seq<byte>) returns (m: Msg)
    requires Inv(env, rx) && rx.Waiting() && rx.signer.Some? && Sendable(h, payload, signature) && h.Signed()
    requires !Authentic(env.digest, rx.signer.value.key, h.magic, FrameBody(env, h, payload, signature))
    ensures var frame := [h.magic] + FrameBody(env, h, payload, signature);
            var (rx', outs) := Feed(env, rx, frame);
            && outs == Nones(|frame| - 1) + [if env.acceptUnsigned(h.msgid) then Some(m) else None]
            && rx'.signer == rx.signer && rx'.streams == rx.streams
  {
    hide Feed, InvActive, FrameBody, Sendable, Authentic, TagMatches, Fresh, Remember, Nones, Filled;
    m := FrameRoundTrip(env, rx, h, payload, signature);
    CarriedBody(env, m, h, payload, signature);
    TagIffAuthentic(env, false, m, FrameBody(env, h, payload, signature), rx.signer.value.key);
    hide IsBody;
  }

  lemma CarriedBody(env: Env, m: Msg, h: Msg, payload: seq<byte>, signature: seq<byte>)
    requires Sendable(h, payload, signature) && h.Signed() && Carries(env, m, h, payload, signature)
    ensures IsBody(env, false, m, FrameBody(env, h, payload, signature))
    ensures m.Signed() && m.msgid == h.msgid && m.magic == h.magic
  {
    hide AccumulateAll, Accumulate, CkA, CkB, Filled, IdByte0, IdByte1, IdByte2;
    assert Core(false, m) == Core(false, h);
  }

  lemma FeedAround(env: Env, rx: Rx, first: byte, middle: seq<byte>, last: byte)
    requires rx.Safe()
    ensures var (start, out0) := ParseChar(env, rx, first);
            var (mid, outs) := Feed(env, start, middle);
            var (end, out1) := ParseChar(env, mid, last);
            Feed(env, rx, [first] + middle + [last]) == (end, [out0] + outs + [out1])
  {
    hide ParseChar;
    var (start, _) := ParseChar(env, rx, first);
    var (mid, _) := Feed(env, start, middle);
    FeedOne(env, rx, first);
    FeedConcat(env, rx, [first], middle);
    FeedConcat(env, rx, [first] + middle, [last]);
    FeedOne(env, mid, last);
  }

  lemma SameSigning(env: Env, rx: Rx, mid: Rx, rx': Rx, m: Msg)
    requires m.Valid() && mid.signer == rx.signer && mid.streams == rx.streams
    ensures SigningAfter(env, mid, rx', m) == SigningAfter(env, rx, rx', m)
    ensures Passes(env, mid, m) == Passes(env, rx, m)
  {
    hide Check;
  }

  lemma Started(env: Env, rx: Rx, h: Msg, payload: seq<byte>, signature: seq<byte>) returns (start: Rx)
    requires Inv(env, rx) && rx.Waiting() && Sendable(h, payload, signature)
    ensures ParseChar(env, rx, h.magic) == (start, None)
    ensures Following(env, start, h, payload, signature, 0)
    ensures start.signer == rx.signer && start.streams == rx.streams
  {
    hide AccumulateAll, Accumulate, Core, InvActive;
    HuntKeeps(env, rx, h.magic);
    start := Hunt(rx, h.magic);
    StartIsEmpty(start);
  }

  lemma {:induction false} FeedFollows(env: Env, rx: Rx, h: Msg, payload: seq<byte>, signature: seq<byte>, k: nat)
    returns (mid: Rx, outs: seq<Option<Msg>>)
    requires Following(env, rx, h, payload, signature, 0)
    requires k < |FrameBody(env, h, payload, signature)|
    ensures (mid, outs) == Feed(env, rx, FrameBody(env, h, payload, signature)[..k])
    ensures outs == Nones(k) && Following(env, mid, h, payload, signature, k)
    ensures mid.signer == rx.signer && mid.streams == rx.streams
  {
    hide ParseChar, FrameBody, Inv, Sendable, Consumed;
    var body := FrameBody(env, h, payload, signature);
    if k == 0 {
      mid, outs := rx, [];
    } else {
      var mid0, outs0 := FeedFollows(env, rx, h, payload, signature, k - 1);
      var _ := FollowStep(env, mid0, h, payload, signature, k - 1);
      assert body[..k][..k - 1] == body[..k - 1];
      mid := ParseChar(env, mid0, body[k - 1]).0;
      outs := outs0 + [None];
    }
  }

  // ----- Streams of frames -----

  datatype Packet = Packet(h: Msg, payload: seq<byte>, signature: seq<byte>)
  {
    ghost predicate Correct() {
      Sendable(h, payload, signature)
    }

    function Bytes(env: Env): (bytes: seq<byte>)
      ensures |bytes| > 0
    {
      [h.magic] + FrameBody(env, h, payload, signature)
    }
  }

  function Stream(env: Env, packets: seq<Packet>): seq<byte>
    decreases |packets|
  {
    if packets == [] then []
    else Stream(env, packets[..|packets| - 1]) + packets[|packets| - 1].Bytes(env)
  }

  /** One answer a packet, at its last byte, carrying it. */
  ghost predicate Answered(env: Env, packets: seq<Packet>, outs: seq<Option<Msg>>)
    decreases |packets|
  {
    if packets == [] then outs == []
    else
      var p := packets[|packets| - 1];
      var n := |p.Bytes(env)|;
      && |outs| >= n
      && Answered(env, packets[..|packets| - 1], outs[..|outs| - n])
      && outs[|outs| - n..|outs| - 1] == Nones(n - 1)
      && outs[|outs| - 1].Some?
      && Carries(env, outs[|outs| - 1].value, p.h, p.payload, p.signature)
  }

  /** With no signing configured, a correct frame is always delivered. */
  lemma PacketRoundTrip(env: Env, rx: Rx, p: Packet) returns (m: Msg)
    requires Inv(env, rx) && rx.Waiting() && rx.signer.None? && p.Correct()
    ensures var (rx', outs) := Feed(env, rx, p.Bytes(env));
            && Inv(env, rx') && rx'.Waiting() && rx'.signer.None?
            && Carries(env, m, p.h, p.payload, p.signature)
            && outs == Nones(|p.Bytes(env)| - 1) + [Some(m)]
  {
    hide ParseChar, InvActive, FrameBody, Carries, Sendable, Feed;
    m := FrameRoundTrip(env, rx, p.h, p.payload, p.signature);
  }

  lemma NothingAnswered(env: Env, rx: Rx)
    requires rx.Safe()
    ensures Feed(env, rx, []) == (rx, []) && Answered(env, [], [])
  {
  }

  /** The stream round trip: with no signing configured, any list of correct frames, one after the other, is answered
      exactly once a frame, at its last byte, in order, with the message that was sent. */
  lemma {:induction false} StreamRoundTrip(env: Env, rx: Rx, packets: seq<Packet>)
    requires Inv(env, rx) && rx.Waiting() && rx.signer.None?
    requires forall i :: 0 <= i < |packets| ==> packets[i].Correct()
    ensures var (rx', outs) := Feed(env, rx, Stream(env, packets));
            && Answered(env, packets, outs)
            && Inv(env, rx') && rx'.Waiting() && rx'.signer.None?
    decreases |packets|
  {
    hide ParseChar, InvActive, FrameBody, Carries, Sendable, Feed, Answered;
    if packets == [] {
      NothingAnswered(env, rx);
    } else {
      var init, p := packets[..|packets| - 1], packets[|packets| - 1];
      StreamRoundTrip(env, rx, init);
      var (mid, outs) := Feed(env, rx, Stream(env, init));
      var m := PacketRoundTrip(env, mid, p);
      FeedConcat(env, rx, Stream(env, init), p.Bytes(env));
      AnsweredOneMore(env, packets, outs, m);
    }
  }

  lemma AnsweredOneMore(env: Env, packets: seq<Packet>, outs: seq<Option<Msg>>, m: Msg)
    requires packets != [] && Answered(env, packets[..|packets| - 1], outs)
    requires var p := packets[|packets| - 1]; Carries(env, m, p.h, p.payload, p.signature)
    ensures Answered(env, packets, outs + (Nones(|packets[|packets| - 1].Bytes(env)| - 1) + [Some(m)]))
  {
    hide Carries, FrameBody;
    var n := |packets[|packets| - 1].Bytes(env)|;
    var all := outs + (Nones(n - 1) + [Some(m)]);
    assert all[..|all| - n] == outs && all[|all| - n..|all| - 1] == Nones(n - 1);
  }

  // ----- Damage -----

  /** A frame whose checksum bytes are not its checksum is dropped at the second of them. */
  lemma WrongSumDropped(env: Env, rx: Rx, h: Msg, payload: seq<byte>, sum: bv16)
    requires Inv(env, rx) && rx.Waiting()
    requires Sendable(h, payload, if h.Signed() then seq(SIGNATURE_BLOCK_LEN, _ => 0) else [])
    requires sum != FrameSum(env, h, payload)
    ensures var bytes := [h.magic] + Body(h.IsV1(), h, payload, sum, []);
            var (rx', outs) := Feed(env, rx, bytes);
            && outs == Nones(|bytes|)
            && Inv(env, rx') && rx'.v1 == h.IsV1() && rx'.state == (if CkB(sum) == STX then GotStx else Idle)
            && rx'.signer == rx.signer && rx'.streams == rx.streams
  {
    hide ParseChar, InvActive, Body, Core, Sendable, Consumed, Following, FrameBody, FrameSum, Ck0Char, CkA, CkB;
    hide Feed, Nones;
    var signature := if h.Signed() then seq(SIGNATURE_BLOCK_LEN, _ => 0) else [];
    var body := FrameBody(env, h, payload, signature);
    var start := Started(env, rx, h, payload, signature);
    var n := CoreLen(h.IsV1()) + h.len;
    PayloadFits(h, payload, signature);
    var mid, _ := FeedFollows(env, start, h, payload, signature, n);
    AtChecksum(env, mid, h, payload, signature);
    WrongSumAtEnd(env, mid, h, payload, signature, sum);
    FollowingVersion(env, mid, h, payload, signature, n);
    SamePrefix(env, h, payload, signature, sum);
    FeedAroundTwo(env, rx, h.magic, body[..n], CkA(sum), CkB(sum));
    NonesAround(n);
  }

  lemma NonesAround(n: nat)
    ensures [None] + Nones(n) == Nones(n + 1) && [None] + Nones(n) + [None] + [None] == Nones(n + 3)
  {
  }

  lemma FeedAroundTwo(env: Env, rx: Rx, first: byte, middle: seq<byte>, a: byte, b: byte)
    requires rx.Safe()
    ensures var (start, out0) := ParseChar(env, rx, first);
            var (mid, outs) := Feed(env, start, middle);
            var (mid1, out1) := ParseChar(env, mid, a);
            var (end, out2) := ParseChar(env, mid1, b);
            Feed(env, rx, [first] + middle + [a] + [b]) == (end, [out0] + outs + [out1] + [out2])
  {
    hide ParseChar, Feed;
    FeedAround(env, rx, first, middle, a);
    var end := Feed(env, rx, [first] + middle + [a]).0;
    FeedConcat(env, rx, [first] + middle + [a], [b]);
    FeedOne(env, end, b);
  }

  lemma FollowingVersion(env: Env, rx: Rx, h: Msg, payload: seq<byte>, signature: seq<byte>, k: nat)
    requires Following(env, rx, h, payload, signature, k)
    ensures rx.v1 == h.IsV1()
  {
  }

  lemma PayloadFits(h: Msg, payload: seq<byte>, signature: seq<byte>)
    requires Sendable(h, payload, signature)
    ensures |payload| == h.len
  {
  }

  /** Damaged and correct frames agree up to the checksum bytes. */
  lemma SamePrefix(env: Env, h: Msg, payload: seq<byte>, signature: seq<byte>, sum: bv16)
    requires |payload| == h.len
    ensures var n := CoreLen(h.IsV1()) + h.len;
            [h.magic] + Body(h.IsV1(), h, payload, sum, [])
            == [h.magic] + FrameBody(env, h, payload, signature)[..n] + [CkA(sum)] + [CkB(sum)]
  {
    hide Core, FrameSum, CkA, CkB;
    var head := Core(h.IsV1(), h) + payload;
    assert FrameBody(env, h, payload, signature)[..|head|] == head;
    assert [h.magic] + (head + [CkA(sum), CkB(sum)] + []) == [h.magic] + head + [CkA(sum)] + [CkB(sum)];
  }

  lemma AtChecksum(env: Env, rx: Rx, h: Msg, payload: seq<byte>, signature: seq<byte>)
    requires Following(env, rx, h, payload, signature, CoreLen(h.IsV1()) + h.len)
    ensures rx.state == GotPayload
  {
    hide AccumulateAll, Accumulate, CkA, CkB, Filled, Checksum, IdByte0, IdByte1, IdByte2;
    var got, bytes := Consumed(rx), FrameBody(env, h, payload, signature);
    var k := CoreLen(h.IsV1()) + h.len;
    assert got[0] == bytes[..k][0] && bytes[0] == h.len;
    if !InHeader(rx.state) {
      assert got[0] == rx.msg.len;
    }
  }

  lemma WrongSumAtEnd(env: Env, rx: Rx, h: Msg, payload: seq<byte>, signature: seq<byte>, sum: bv16)
    requires Following(env, rx, h, payload, signature, CoreLen(h.IsV1()) + h.len) && rx.state == GotPayload
    requires sum != FrameSum(env, h, payload)
    ensures ParseChar(env, rx, CkA(sum)) == (Ck0Char(env, rx, CkA(sum)), None)
    ensures var (rx', out) := ParseChar(env, Ck0Char(env, rx, CkA(sum)), CkB(sum));
            && out == None && Inv(env, rx') && rx'.v1 == rx.v1
            && rx'.state == (if CkB(sum) == STX then GotStx else Idle)
            && rx'.signer == rx.signer && rx'.streams == rx.streams
  {
    hide InvActive, CkRight, Ck0Char, Ck1Char, FrameSum, FrameBody;
    WrongSumKept(env, rx, h, payload, signature, sum);
    WrongCkDropped(env, Ck0Char(env, rx, CkA(sum)), CkB(sum));
  }

  /** After the first checksum byte, the second one is not right. */
  lemma WrongSumKept(env: Env, rx: Rx, h: Msg, payload: seq<byte>, signature: seq<byte>, sum: bv16)
    requires Following(env, rx, h, payload, signature, CoreLen(h.IsV1()) + h.len) && rx.state == GotPayload
    requires sum != FrameSum(env, h, payload)
    ensures ParseChar(env, rx, CkA(sum)) == (Ck0Char(env, rx, CkA(sum)), None)
    ensures var mid := Ck0Char(env, rx, CkA(sum));
      && Inv(env, mid) && mid.state in {GotCrc1, GotBadCrc1} && mid.msg.Signed() == h.Signed()
      && !CkRight(mid, CkB(sum))
  {
    hide AccumulateAll, Accumulate, Core, CkA, CkB, Filled, Checksum, InvActive, Body, Consumed, Grows, FromBytes;
    var k := CoreLen(h.IsV1()) + h.len;
    var right := FrameBody(env, h, payload, signature)[k];
    Ck0Keeps(env, rx, right);
    FollowLonger(env, rx, Ck0Char(env, rx, right), h, payload, signature, k);
    FollowingHolds(env, Ck0Char(env, rx, right), h, payload, signature, k + 1);
    Ck0Keeps(env, rx, CkA(sum));
    BytesDetermine(sum, 0, 0);
    BytesDetermine(FrameSum(env, h, payload), 0, 0);
  }

  /** A wrong checksum, at its second byte. */
  lemma WrongCkDropped(env: Env, rx: Rx, c: byte)
    requires Inv(env, rx) && rx.state in {GotCrc1, GotBadCrc1} && !CkRight(rx, c)
    ensures var (rx', out) := ParseChar(env, rx, c);
            && out == None && Inv(env, rx') && rx'.v1 == rx.v1 && rx'.state == (if c == STX then GotStx else Idle)
            && rx'.signer == rx.signer && rx'.streams == rx.streams
  {
    hide AccumulateAll, Accumulate, Core, CkA, CkB, Filled, Checksum, InvActive, Body, Consumed, Ck1Char, CkRight;
    Ck1Verdict(env, rx, c);
    DropsKeep(env, rx, Ck1Char(env, rx, c).0, c);
  }

  /** Differences that the checksum is made for: a burst of at most 16 bits, or an odd number of flipped bits. */
  ghost predicate Damaged(x: seq<byte>, y: seq<byte>) {
    || OddOnes(BitStream(x)) != OddOnes(BitStream(y))
    || exists before, a, b, after :: Burst(BitStream(x), BitStream(y), before, a, b, after)
  }

  ghost predicate Burst(x: seq<bool>, y: seq<bool>, before: seq<bool>, a: seq<bool>, b: seq<bool>, after: seq<bool>) {
    x == before + a + after && y == before + b + after && |a| == |b| <= 16 && a != b
  }

  lemma DamageChangesSum(x: seq<byte>, y: seq<byte>, extra: byte, crc: bv16)
    requires Damaged(x, y)
    ensures Accumulate(extra, AccumulateAll(x, crc)) != Accumulate(extra, AccumulateAll(y, crc))
  {
    hide ByteStep, DivideBit, Bits, ToBits, OddOnes, BitStream, AccumulateAll;
    ChecksumDivides(x, crc);
    ChecksumDivides(y, crc);
    var sx, sy := BitStream(x), BitStream(y);
    ByteStepDivides(ToBits(extra), Divide(sx, crc));
    ByteStepDivides(ToBits(extra), Divide(sy, crc));
    if Accumulate(extra, AccumulateAll(x, crc)) == Accumulate(extra, AccumulateAll(y, crc)) {
      DivideInjective(Bits(ToBits(extra)), Divide(sx, crc), Divide(sy, crc));
      if OddOnes(sx) != OddOnes(sy) {
        OddErrorsDetected(sx, sy, crc);
      } else {
        var before, a, b, after :| Burst(sx, sy, before, a, b, after);
        BurstDetected(before, a, b, after, crc);
      }
    }
  }

  /**
   A frame damaged between the sender and the parser in the bytes that do not steer the
   parser - compatibility flags, sequence, system, component or payload - by a burst of at
   most 16 bits or in an odd number of bits is never delivered.
   */
  lemma DamageDetected(env: Env, rx: Rx, h: Msg, payload: seq<byte>, h': Msg, payload': seq<byte>)
    requires Inv(env, rx) && rx.Waiting()
    requires Sendable(h', payload', if h'.Signed() then seq(SIGNATURE_BLOCK_LEN, _ => 0) else [])
    requires h'.magic == h.magic && h'.msgid == h.msgid
    requires Damaged(Core(h.IsV1(), h) + payload, Core(h.IsV1(), h') + payload')
    ensures var bytes := [h'.magic] + Body(h'.IsV1(), h', payload', FrameSum(env, h, payload), []);
            Feed(env, rx, bytes).1 == Nones(|bytes|)
  {
    hide Accumulate, AccumulateAll, Damaged, Core, ParseChar, InvActive, Body, Sendable;
    var v1 := h.IsV1();
    DamageChangesSum(Core(v1, h) + payload, Core(v1, h') + payload', CrcExtra(env.table, h.msgid), X25_INIT_CRC);
    WrongSumDropped(env, rx, h', payload', FrameSum(env, h, payload));
  }

  /** In bytes: any one byte or two adjacent bytes of the covered part. */
  lemma AdjacentBytesDamage(before: seq<byte>, a: seq<byte>, b: seq<byte>, after: seq<byte>)
    requires |a| == |b| <= 2 && a != b
    ensures Damaged(before + a + after, before + b + after)
  {
    hide Bits, ToBits;
    BitStreamConcat(before + a, after);
    BitStreamConcat(before + b, after);
    BitStreamConcat(before, a);
    BitStreamConcat(before, b);
    if BitStream(a) == BitStream(b) {
      BitStreamDetermines(a, b);
    }
    assert Burst(BitStream(before + a + after), BitStream(before + b + after),
                 BitStream(before), BitStream(a), BitStream(b), BitStream(after));
  }

  // ----- Resynchronisation -----

  /** A bound on the bytes until the parser rests again, if none of them is a start marker. */
  function Left(rx: Rx): int
    requires rx.Safe()
  {
    match rx.state
    case Uninit | Idle => 0
    case GotStx => CoreLen(rx.v1) + MAX_PAYLOAD_LEN + 2 + SIGNATURE_BLOCK_LEN
    case GotMsgid3 => rx.msg.len - rx.packetIdx + 2 + SIGNATURE_BLOCK_LEN
    case GotPayload => 2 + SIGNATURE_BLOCK_LEN
    case GotCrc1 | GotBadCrc1 => 1 + SIGNATURE_BLOCK_LEN
    case SignatureWait => rx.signatureWait
    case _ => CoreLen(rx.v1) - HeaderCount(rx.state, rx.v1) + rx.msg.len + 2 + SIGNATURE_BLOCK_LEN
  }

  const RESYNC: nat := 279

  lemma LeftFallsInHeader(env: Env, rx: Rx, c: byte)
    requires Inv(env, rx) && InHeader(rx.state)
    ensures var rx' := HeaderChar(rx, c);
            && Left(rx) <= RESYNC
            && (rx'.Waiting() || Left(rx') < Left(rx))
  {
    hide AccumulateAll, Accumulate, Core, Consumed, Filled, IdByte0, IdByte1, IdByte2;
  }

  lemma LeftFalls(env: Env, rx: Rx, c: byte)
    requires Inv(env, rx) && !IsMarker(c)
    ensures var rx' := ParseChar(env, rx, c).0;
            && Left(rx) <= RESYNC
            && (if rx.Waiting() then rx' == rx else rx'.Waiting() || Left(rx') < Left(rx))
  {
    hide Accumulate, InvActive, HeaderChar, Check, Lookup, ZeroedFrom, CrcExtra, CkA, CkB;
    if InHeader(rx.state) {
      LeftFallsInHeader(env, rx, c);
    }
  }

  lemma {:induction false} QuietFalls(env: Env, rx: Rx, bytes: seq<byte>)
    requires Inv(env, rx) && forall i :: 0 <= i < |bytes| ==> !IsMarker(bytes[i])
    ensures var (rx', outs) := Feed(env, rx, bytes);
            && Inv(env, rx')
            && (rx'.Waiting() || Left(rx') + |bytes| <= Left(rx))
    decreases |bytes|
  {
    hide ParseChar, InvActive, Left;
    if bytes != [] {
      var n := |bytes| - 1;
      QuietFalls(env, rx, bytes[..n]);
      var mid := Feed(env, rx, bytes[..n]).0;
      LeftFalls(env, mid, bytes[n]);
      var _ := ParseKeeps(env, mid, bytes[n]);
    }
  }

  /**
   From every reachable state, 279 bytes without a start marker bring the parser to rest,
   and the next correct frame, signed or not, gets its answer at its last byte.
   */
  lemma Resynchronises(env: Env, rx: Rx, quiet: seq<byte>, h: Msg, payload: seq<byte>, signature: seq<byte>)
    returns (m: Msg)
    requires Inv(env, rx) && Sendable(h, payload, signature)
    requires |quiet| >= RESYNC && forall i :: 0 <= i < |quiet| ==> !IsMarker(quiet[i])
    ensures Feed(env, rx, quiet).0.Waiting()
    ensures m.Valid() && Carries(env, m, h, payload, signature)
    ensures var frame := [h.magic] + FrameBody(env, h, payload, signature);
            var (mid, outs) := Feed(env, rx, quiet);
            Feed(env, rx, quiet + frame).1
            == outs + Nones(|frame| - 1) + [if Passes(env, mid, m) then Some(m) else None]
    ensures rx.signer.None? ==> Passes(env, Feed(env, rx, quiet).0, m)
  {
    hide ParseChar, InvActive, FrameBody, Carries, Sendable, Passes;
    QuietFalls(env, rx, quiet);
    LeftBound(env, rx);
    var (mid, outs) := Feed(env, rx, quiet);
    LeftPositive(env, mid);
    m := FrameRoundTrip(env, mid, h, payload, signature);
    var frame := [h.magic] + FrameBody(env, h, payload, signature);
    FeedConcat(env, rx, quiet, frame);
    assert outs + (Nones(|frame| - 1) + Feed(env, mid, frame).1[|frame| - 1..])
        == outs + Nones(|frame| - 1) + Feed(env, mid, frame).1[|frame| - 1..];
    if rx.signer.None? {
      FeedSetup(env, rx, quiet);
      UnsignedChannel(env, mid, m);
    }
  }

  lemma UnsignedChannel(env: Env, rx: Rx, m: Msg)
    requires m.Valid() && rx.signer.None?
    ensures Passes(env, rx, m)
  {
  }

  lemma LeftBound(env: Env, rx: Rx)
    requires Inv(env, rx)
    ensures Left(rx) <= RESYNC
  {
    LeftFalls(env, rx, 0);
  }

  lemma LeftPositive(env: Env, rx: Rx)
    requires Inv(env, rx)
    ensures rx.Waiting() || Left(rx) > 0
  {
  }

  // ----- Why `mavlink_parse_char` resets the parser -----

  /** `mavlink_frame_char` on its own, byte after byte, and what it says of the last one. */
  function FrameFeed(env: Env, rx: Rx, bytes: seq<byte>): (r: (Rx, Framing))
    requires rx.Safe()
    ensures r.0.Safe()
  {
    if bytes == [] then (rx, Incomplete)
    else FrameChar(env, FrameFeed(env, rx, bytes[..|bytes| - 1]).0, bytes[|bytes| - 1])
  }

  lemma SignatureByte(env: Env, rx: Rx, c: byte)
    requires rx.Safe() && rx.state == SignatureWait
    ensures var (r, framing) := FrameChar(env, rx, c);
      if rx.signatureWait > 1 then
        r.state == SignatureWait && r.signatureWait == rx.signatureWait - 1 && r.signer == rx.signer
      else rx.signer.None? ==> framing == Good
  {
  }

  lemma WaitsForSignature(env: Env, rx: Rx, c: byte)
    requires rx.Safe() && rx.state in {GotCrc1, GotBadCrc1} && rx.msg.Signed()
    ensures var (r, framing) := FrameChar(env, rx, c);
      && r.state == SignatureWait && r.signatureWait == SIGNATURE_BLOCK_LEN && r.signer == rx.signer
      && (framing == BadCrc <==> rx.state == GotBadCrc1 || c != CkB(rx.msg.checksum))
  {
  }

  lemma {:induction false} BlockGoesOn(env: Env, rx: Rx, c: byte, block: seq<byte>)
    requires rx.Safe() && rx.state in {GotCrc1, GotBadCrc1} && rx.msg.Signed() && |block| < SIGNATURE_BLOCK_LEN
    ensures var r := FrameFeed(env, rx, [c] + block).0;
      && r.state == SignatureWait && r.signatureWait == SIGNATURE_BLOCK_LEN - |block| && r.signer == rx.signer
    decreases |block|
  {
    hide FrameChar;
    if block == [] {
      assert [c] + block == [c] && [c][..0] == [];
      WaitsForSignature(env, rx, c);
    } else {
      var before := block[..|block| - 1];
      BlockGoesOn(env, rx, c, before);
      assert ([c] + block)[..|block|] == [c] + before;
      SignatureByte(env, FrameFeed(env, rx, [c] + before).0, block[|block| - 1]);
    }
  }

  /** Thirteen bytes after a wrong checksum, the framing step accepts. */
  lemma BlockAccepted(env: Env, rx: Rx, c: byte, block: seq<byte>)
    requires rx.Safe() && rx.state in {GotCrc1, GotBadCrc1} && rx.msg.Signed() && rx.signer.None?
    requires rx.state == GotBadCrc1 || c != CkB(rx.msg.checksum)
    requires |block| == SIGNATURE_BLOCK_LEN
    ensures FrameChar(env, rx, c).1 == BadCrc
    ensures FrameFeed(env, rx, [c] + block).1 == Good
  {
    hide FrameChar;
    var before := block[..SIGNATURE_BLOCK_LEN - 1];
    WaitsForSignature(env, rx, c);
    BlockGoesOn(env, rx, c, before);
    assert ([c] + block)[..SIGNATURE_BLOCK_LEN] == [c] + before;
    SignatureByte(env, FrameFeed(env, rx, [c] + before).0, block[SIGNATURE_BLOCK_LEN - 1]);
  }

  lemma {:induction false} FrameFeedConcat(env: Env, rx: Rx, a: seq<byte>, b: seq<byte>)
    requires rx.Safe()
    ensures FrameFeed(env, rx, a + b)
            == if b == [] then FrameFeed(env, rx, a) else FrameFeed(env, FrameFeed(env, rx, a).0, b)
    decreases |b|
  {
    hide FrameChar;
    if b == [] {
      assert a + b == a;
    } else {
      assert (a + b)[..|a + b| - 1] == a + b[..|b| - 1];
      FrameFeedConcat(env, rx, a, b[..|b| - 1]);
    }
  }

  /** Up to the first checksum byte, the reset has nothing to do. */
  lemma NothingToReset(env: Env, rx: Rx, c: byte)
    requires rx.Safe() && rx.state !in {GotCrc1, GotBadCrc1, SignatureWait}
    ensures FrameChar(env, rx, c) == (ParseChar(env, rx, c).0, Incomplete)
  {
    hide HeaderChar, PayloadChar, Ck0Char;
  }

  lemma BeforeChecksum(env: Env, rx: Rx, h: Msg, payload: seq<byte>, signature: seq<byte>, k: nat)
    requires Following(env, rx, h, payload, signature, k) && k <= CoreLen(h.IsV1()) + h.len
    ensures rx.state !in {GotCrc1, GotBadCrc1, SignatureWait}
  {
    hide InvActive, Consumed, FrameBody, Sendable, Core;
    if rx.state in {GotCrc1, GotBadCrc1, SignatureWait} {
      FollowingHolds(env, rx, h, payload, signature, k);
    }
  }

  lemma {:induction false} FrameFollows(env: Env, rx: Rx, h: Msg, payload: seq<byte>, signature: seq<byte>, k: nat)
    requires Following(env, rx, h, payload, signature, 0) && |payload| == h.len && k <= CoreLen(h.IsV1()) + h.len
    ensures var body := FrameBody(env, h, payload, signature);
      FrameFeed(env, rx, body[..k]) == (Feed(env, rx, body[..k]).0, Incomplete)
    decreases k
  {
    hide Following, FrameChar, ParseChar, FrameBody, Nones;
    var body := FrameBody(env, h, payload, signature);
    if k > 0 {
      FollowingSafe(env, rx, h, payload, signature, 0);
      FrameFollows(env, rx, h, payload, signature, k - 1);
      var mid, _ := FeedFollows(env, rx, h, payload, signature, k - 1);
      BeforeChecksum(env, mid, h, payload, signature, k - 1);
      NothingToReset(env, mid, body[k - 1]);
      assert body[..k][..k - 1] == body[..k - 1];
    } else {
      FollowingSafe(env, rx, h, payload, signature, 0);
    }
  }

  lemma FollowingSafe(env: Env, rx: Rx, h: Msg, payload: seq<byte>, signature: seq<byte>, k: nat)
    requires Following(env, rx, h, payload, signature, k)
    ensures rx.Safe()
  {
  }

  /**
   A signed frame with a wrong checksum on a channel without signing, read from rest: the
   framing step alone rejects it at its checksum and accepts it with its signature block,
   13 bytes later, whatever those are. The reset in `mavlink_parse_char` is what keeps it out.
   */
  lemma WithoutReset(env: Env, rx: Rx, h: Msg, payload: seq<byte>, sum: bv16, block: seq<byte>)
    requires Inv(env, rx) && rx.Waiting() && rx.signer.None?
    requires Sendable(h, payload, block) && h.Signed() && sum != FrameSum(env, h, payload)
    ensures var frame := [h.magic] + Body(h.IsV1(), h, payload, sum, []);
      && FrameFeed(env, rx, frame).1 == BadCrc
      && FrameFeed(env, rx, frame + block).1 == Good
      && Feed(env, rx, frame).1 == Nones(|frame|)
      && Feed(env, rx, frame).0.state == if CkB(sum) == STX then GotStx else Idle
  {
    hide FrameChar, ParseChar, InvActive, Body, Core, Consumed, Following, FrameBody, FrameSum, Ck0Char;
    hide CkA, CkB, CkRight, Feed, FrameFeed, Sendable, Nones;
    SentLength(h, payload, block);
    var n, body := CoreLen(h.IsV1()) + h.len, FrameBody(env, h, payload, block);
    var start := Started(env, rx, h, payload, block);
    NothingToReset(env, rx, h.magic);
    FrameFollows(env, start, h, payload, block, n);
    var mid, _ := FeedFollows(env, start, h, payload, block, n);
    AtChecksum(env, mid, h, payload, block);
    FollowingSafe(env, mid, h, payload, block, n);
    NothingToReset(env, mid, CkA(sum));
    WrongSumKept(env, mid, h, payload, block, sum);
    var wrong := Ck0Char(env, mid, CkA(sum));
    WrongByte(env, wrong, CkB(sum));
    BlockAccepted(env, wrong, CkB(sum), block);
    FrameAround(env, rx, h.magic, body[..n], CkA(sum), CkB(sum), block);
    SamePrefix(env, h, payload, block, sum);
    SameWrong(env, rx, h, payload, sum, block);
  }

  lemma SentLength(h: Msg, payload: seq<byte>, block: seq<byte>)
    requires Sendable(h, payload, block) && h.Signed()
    ensures |payload| == h.len && |block| == SIGNATURE_BLOCK_LEN
  {
  }

  lemma WrongByte(env: Env, rx: Rx, c: byte)
    requires Inv(env, rx) && rx.state in {GotCrc1, GotBadCrc1} && !CkRight(rx, c)
    ensures rx.state == GotBadCrc1 || c != CkB(rx.msg.checksum)
  {
    hide CkA, CkB, Sum, Filled, Consumed;
  }

  lemma SameWrong(env: Env, rx: Rx, h: Msg, payload: seq<byte>, sum: bv16, block: seq<byte>)
    requires Inv(env, rx) && rx.Waiting() && Sendable(h, payload, block) && h.Signed()
    requires sum != FrameSum(env, h, payload)
    ensures var frame := [h.magic] + Body(h.IsV1(), h, payload, sum, []);
      && Feed(env, rx, frame).1 == Nones(|frame|)
      && Feed(env, rx, frame).0.state == if CkB(sum) == STX then GotStx else Idle
  {
    hide Feed, Body, FrameSum, InvActive, CkB, Nones;
    WrongSumDropped(env, rx, h, payload, sum);
  }

  lemma FrameAround(env: Env, rx: Rx, first: byte, middle: seq<byte>, a: byte, b: byte, block: seq<byte>)
    requires rx.Safe() && block != []
    ensures var start := FrameChar(env, rx, first).0;
      var mid := if middle == [] then start else FrameFeed(env, start, middle).0;
      var last := FrameChar(env, mid, a).0;
      && FrameFeed(env, rx, [first] + middle + [a] + [b]).1 == FrameChar(env, last, b).1
      && FrameFeed(env, rx, [first] + middle + [a] + [b] + block).1 == FrameFeed(env, last, [b] + block).1
  {
    hide FrameChar, FrameFeed;
    FrameFeedConcat(env, rx, [first], middle);
    FrameFeedConcat(env, rx, [first] + middle, [a]);
    FrameFeedConcat(env, rx, [first] + middle + [a], [b]);
    FrameFeedConcat(env, rx, [first] + middle + [a], [b] + block);
    assert [first] + middle + [a] + ([b] + block) == [first] + middle + [a] + [b] + block;
    FrameFeedOne(env, rx, first);
    var mid := FrameFeed(env, rx, [first] + middle).0;
    FrameFeedOne(env, mid, a);
    FrameFeedOne(env, FrameFeed(env, mid, [a]).0, b);
  }

  lemma FrameFeedOne(env: Env, rx: Rx, c: byte)
    requires rx.Safe()
    ensures FrameFeed(env, rx, [c]) == FrameChar(env, rx, c)
  {
    hide FrameChar;
    assert [c][..0] == [];
    assert FrameFeed(env, rx, []) == (rx, Incomplete);
  }
}
