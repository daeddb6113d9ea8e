/**
 The byte-at-a-time frame parser: its step, the invariant that says what it has
 consumed since the last start marker, and what it delivers.
 */
module Parser {

  import opened Crc
  import opened Wire
  import opened Signing
  import opened Wrappers

  datatype ParseState =
    | Uninit | Idle | GotStx | GotLength | GotIncompatFlags | GotCompatFlags | GotSeq | GotSysid
    | GotCompid | GotMsgid1 | GotMsgid2 | GotMsgid3 | GotPayload | GotCrc1 | GotBadCrc1 | SignatureWait

  datatype Framing = Incomplete | Good | BadCrc | BadSignature

  /** What the parser is configured with; no callback is a callback that never accepts. */
  datatype Env = Env(table: seq<MsgEntry>, digest: Digest, acceptUnsigned: nat -> bool)

  /** Channel status and receive buffer. */
  datatype Rx = Rx(
    state: ParseState, v1: bool, packetIdx: nat, signatureWait: nat, msg: Msg,
    signer: Option<Signer>, streams: Option<seq<Stream>>)
  {
    /** The indices the parser is about to use are in range. */
    ghost predicate Safe() {
      && msg.Valid()
      && (state == GotMsgid3 ==> packetIdx < msg.len)
      && packetIdx <= MAX_PAYLOAD_LEN && (InHeader(state) && state != GotStx ==> packetIdx == 0)
      && (state == SignatureWait ==> 1 <= signatureWait <= SIGNATURE_BLOCK_LEN)
    }

    predicate Waiting() {
      state == Uninit || state == Idle
    }
  }

  /** The receive buffer with one more byte folded into its checksum. */
  function Fold(m: Msg, c: byte): Msg {
    m.(checksum := Accumulate(c, m.checksum))
  }

  /** The payload buffer with zeros from one index up to another. */
  function ZeroedFrom(payload: seq<byte>, from: nat, to: nat): (r: seq<byte>)
    requires to <= |payload|
    ensures |r| == |payload|
  {
    seq(|payload|, i requires 0 <= i < |payload| => if from <= i < to then 0 else payload[i])
  }

  predicate InHeader(state: ParseState) {
    state in {GotStx, GotLength, GotIncompatFlags, GotCompatFlags, GotSeq, GotSysid, GotCompid, GotMsgid1, GotMsgid2}
  }

  /** Header bytes, from the length to the last byte of the message id. */
  function HeaderChar(rx: Rx, c: byte): (r: Rx)
    requires rx.Safe() && InHeader(rx.state)
    ensures r.Safe()
    ensures r.signer == rx.signer && r.streams == rx.streams && r.v1 == rx.v1
  {
    var m := rx.msg;
    match rx.state
    case GotStx =>
      var m1 := Fold(m.(len := c), c);
      if rx.v1 then rx.(state := GotCompatFlags, packetIdx := 0, msg := m1.(incompat := 0, compat := 0))
      else rx.(state := GotLength, packetIdx := 0, msg := m1)
    case GotLength =>
      if c / 2 != 0 then rx.(state := Idle, msg := m.(incompat := c))
      else rx.(state := GotIncompatFlags, msg := Fold(m.(incompat := c), c))
    case GotIncompatFlags => rx.(state := GotCompatFlags, msg := Fold(m.(compat := c), c))
    case GotCompatFlags => rx.(state := GotSeq, msg := Fold(m.(seqno := c), c))
    case GotSeq => rx.(state := GotSysid, msg := Fold(m.(sysid := c), c))
    case GotSysid => rx.(state := GotCompid, msg := Fold(m.(compid := c), c))
    case GotCompid =>
      rx.(state := if rx.v1 then AfterHeader(rx) else GotMsgid1, msg := Fold(m.(msgid := c), c))
    case GotMsgid1 => rx.(state := GotMsgid2, msg := Fold(m.(msgid := Id2(m.msgid, c)), c))
    case GotMsgid2 => rx.(state := AfterHeader(rx), msg := Fold(m.(msgid := Id3(m.msgid, c)), c))
    case _ => rx
  }

  function AfterHeader(rx: Rx): ParseState {
    if rx.msg.len > 0 then GotMsgid3 else GotPayload
  }

  function PayloadChar(rx: Rx, c: byte): (r: Rx)
    requires rx.Safe() && rx.state == GotMsgid3
    ensures r.Safe()
    ensures r.signer == rx.signer && r.streams == rx.streams && r.v1 == rx.v1
  {
    var m := rx.msg;
    rx.(state := if rx.packetIdx + 1 == m.len then GotPayload else GotMsgid3,
        packetIdx := rx.packetIdx + 1,
        msg := Fold(m.(payload := m.payload[rx.packetIdx := c]), c))
  }

  /** The first checksum byte: fold in the seed, compare, and zero-fill a short payload. */
  function Ck0Char(env: Env, rx: Rx, c: byte): (r: Rx)
    requires rx.Safe() && rx.state == GotPayload
    ensures r.Safe()
    ensures r.signer == rx.signer && r.streams == rx.streams && r.v1 == rx.v1
  {
    var m := rx.msg;
    var e := Lookup(env.table, m.msgid);
    var m1 := Fold(m, CrcExtra(env.table, m.msgid));
    var filled := if e.Some? then ZeroedFrom(m.payload, rx.packetIdx, e.value.maxLen) else m.payload;
    rx.(state := if c != CkA(m1.checksum) then GotBadCrc1 else GotCrc1, msg := m1.(ck0 := c, payload := filled))
  }

  /** The second checksum byte: the frame ends here unless it is signed. */
  function Ck1Char(env: Env, rx: Rx, c: byte): (r: (Rx, Framing))
    requires rx.Safe() && (rx.state == GotCrc1 || rx.state == GotBadCrc1)
    ensures r.0.Safe()
    ensures r.0.signer == rx.signer && r.0.streams == rx.streams && r.0.v1 == rx.v1
  {
    var bad := rx.state == GotBadCrc1 || c != CkB(rx.msg.checksum);
    var m := rx.msg.(ck1 := c);
    if m.Signed() then
      (rx.(state := SignatureWait, signatureWait := SIGNATURE_BLOCK_LEN, msg := m), if bad then BadCrc else Incomplete)
    else
      (rx.(state := Idle, msg := m),
       if bad then BadCrc
       else if rx.signer.Some? && !env.acceptUnsigned(m.msgid) then BadSignature
       else Good)
  }

  function SignatureChar(env: Env, rx: Rx, c: byte): (r: (Rx, Framing))
    requires rx.Safe() && rx.state == SignatureWait
    ensures r.0.Safe() && r.0.v1 == rx.v1
  {
    var m := rx.msg.(signature := rx.msg.signature[SIGNATURE_BLOCK_LEN - rx.signatureWait := c]);
    var rx1 := rx.(signatureWait := rx.signatureWait - 1, msg := m);
    if rx1.signatureWait != 0 then (rx1, Incomplete)
    else
      var check := Check(env.digest, rx.signer, rx.streams, m);
      (rx1.(state := Idle, signer := check.signer, streams := check.streams),
       if check.ok || env.acceptUnsigned(m.msgid) then Good else BadSignature)
  }

  /** `mavlink_frame_char_buffer` */
  function FrameChar(env: Env, rx: Rx, c: byte): (r: (Rx, Framing))
    requires rx.Safe()
    ensures r.0.Safe()
  {
    if rx.Waiting() then
      if c == STX || c == STX_MAVLINK1 then
        (rx.(state := GotStx, v1 := c == STX_MAVLINK1,
             msg := rx.msg.(len := 0, magic := c, checksum := X25_INIT_CRC)), Incomplete)
      else (rx, Incomplete)
    else if InHeader(rx.state) then (HeaderChar(rx, c), Incomplete)
    else if rx.state == GotMsgid3 then (PayloadChar(rx, c), Incomplete)
    else if rx.state == GotPayload then (Ck0Char(env, rx, c), Incomplete)
    else if rx.state == SignatureWait then SignatureChar(env, rx, c)
    else Ck1Char(env, rx, c)
  }

  /** `mavlink_parse_char`: a frame that fails is dropped, and its last byte may start the next one. */
  function ParseChar(env: Env, rx: Rx, c: byte): (r: (Rx, Option<Msg>))
    requires rx.Safe()
    ensures r.0.Safe()
  {
    var (rx1, framing) := FrameChar(env, rx, c);
    if framing == BadCrc || framing == BadSignature then
      if c == STX then (rx1.(state := GotStx, msg := rx1.msg.(len := 0, checksum := X25_INIT_CRC)), None)
      else (rx1.(state := Idle), None)
    else (rx1, if framing == Good then Some(rx1.msg) else None)
  }

  // ----- What has been consumed -----

  /** How many header bytes after the marker a state has consumed. */
  function HeaderCount(state: ParseState, v1: bool): nat {
    match state
    case GotLength => 1
    case GotIncompatFlags => 2
    case GotCompatFlags => if v1 then 1 else 3
    case GotSeq => if v1 then 2 else 4
    case GotSysid => if v1 then 3 else 5
    case GotCompid => if v1 then 4 else 6
    case GotMsgid1 => 7
    case GotMsgid2 => 8
    case GotMsgid3 | GotPayload | GotCrc1 | GotBadCrc1 | SignatureWait => CoreLen(v1)
    case _ => 0
  }

  /** The bytes since the last start marker, read back from the receive buffer. */
  ghost function Consumed(rx: Rx): seq<byte>
    requires rx.Safe()
  {
    var m := rx.msg;
    var core := Core(rx.v1, m);
    match rx.state
    case Uninit | Idle => []
    case GotMsgid3 | GotPayload => core + m.payload[..rx.packetIdx]
    case GotCrc1 | GotBadCrc1 => core + m.payload[..m.len] + [m.ck0]
    case SignatureWait =>
      core + m.payload[..m.len] + [m.ck0, m.ck1] + m.signature[..SIGNATURE_BLOCK_LEN - rx.signatureWait]
    case _ => if HeaderCount(rx.state, rx.v1) <= |core| then core[..HeaderCount(rx.state, rx.v1)] else []
  }

  /** The fill of the payload buffer up to the full width of the message type. */
  ghost predicate Filled(env: Env, m: Msg)
    requires m.Valid()
  {
    var e := Lookup(env.table, m.msgid);
    e.Some? ==> forall i :: m.len <= i < e.value.maxLen ==> m.payload[i] == 0
  }

  /** The checksum over everything up to the checksum bytes. */
  function Sum(env: Env, v1: bool, m: Msg): bv16
    requires m.len <= |m.payload|
  {
    Checksum(v1, m, m.payload[..m.len], CrcExtra(env.table, m.msgid))
  }

  /** The state invariant of the parser. */
  ghost predicate Inv(env: Env, rx: Rx) {
    && rx.Safe()
    && (!rx.Waiting() ==> InvActive(env, rx))
  }

  ghost predicate InvActive(env: Env, rx: Rx)
    requires rx.Safe()
  {
    var m := rx.msg;
    && m.magic == (if rx.v1 then STX_MAVLINK1 else STX)
    && (rx.v1 ==> rx.state !in {GotLength, GotIncompatFlags, GotMsgid1, GotMsgid2, SignatureWait})
    && (rx.v1 && rx.state != GotStx ==> m.incompat == 0 && m.compat == 0)
    && (rx.state !in {GotStx, GotLength} ==> m.incompat <= 1)
    && (rx.state == GotMsgid1 ==> m.msgid < 0x100)
    && (rx.state == GotMsgid2 ==> m.msgid < 0x10000)
    && (!InHeader(rx.state) ==> m.msgid < if rx.v1 then 0x100 else MSGID_LIMIT)
    && (rx.state in {GotPayload, GotCrc1, GotBadCrc1, SignatureWait} ==> rx.packetIdx == m.len)
    && (if InHeader(rx.state) || rx.state in {GotMsgid3, GotPayload}
        then m.checksum == AccumulateAll(Consumed(rx), X25_INIT_CRC)
        else m.checksum == Sum(env, rx.v1, m) && Filled(env, m))
    && (rx.state == GotCrc1 ==> m.ck0 == CkA(m.checksum))
    && (rx.state == GotBadCrc1 ==> m.ck0 != CkA(m.checksum))
    && (rx.state == SignatureWait ==> m.ck0 == CkA(m.checksum) && m.ck1 == CkB(m.checksum) && m.Signed())
  }

  /** The step the header, payload and checksum states share: one more byte consumed. */
  ghost predicate Grows(rx: Rx, rx': Rx, c: byte)
    requires rx.Safe() && rx'.Safe()
  {
    && !rx'.Waiting()
    && rx'.v1 == rx.v1 && rx'.msg.magic == rx.msg.magic
    && rx'.signer == rx.signer && rx'.streams == rx.streams
    && Consumed(rx') == Consumed(rx) + [c]
  }

  /** One header byte more, where the header goes on. */
  lemma HeaderGrows(env: Env, rx: Rx, c: byte)
    requires Inv(env, rx) && InHeader(rx.state)
    requires rx.state == GotLength ==> c <= 1
    ensures var rx' := HeaderChar(rx, c);
            && Grows(rx, rx', c)
            && rx'.state !in {GotStx, GotCrc1, GotBadCrc1, SignatureWait}
            && rx'.msg.checksum == Accumulate(c, rx.msg.checksum)
  {
    hide AccumulateAll, Accumulate, Core, Filled, Sum;
    var rx' := HeaderChar(rx, c);
    var n := HeaderCount(rx.state, rx.v1);
    CoreGrows(env, rx, c);
    var core, core' := Core(rx.v1, rx.msg), Core(rx.v1, rx'.msg);
    OneMore(core, core', n, c);
    if n + 1 == |core| {
      assert rx'.msg.payload[..0] == [];
      assert core' + [] == core';
    }
  }

  lemma OneMore(core: seq<byte>, core': seq<byte>, n: nat, c: byte)
    requires n < |core| == |core'| && core'[..n] == core[..n] && core'[n] == c
    ensures core'[..n + 1] == core[..n] + [c]
    ensures n + 1 == |core| ==> core' == core[..n] + [c]
  {
  }

  lemma CoreGrows(env: Env, rx: Rx, c: byte)
    requires Inv(env, rx) && InHeader(rx.state)
    requires rx.state == GotLength ==> c <= 1
    ensures var rx' := HeaderChar(rx, c);
            var n := HeaderCount(rx.state, rx.v1);
            && n < CoreLen(rx.v1)
            && HeaderCount(rx'.state, rx.v1) == n + 1
            && Core(rx.v1, rx'.msg)[..n] == Core(rx.v1, rx.msg)[..n]
            && Core(rx.v1, rx'.msg)[n] == c
  {
    hide AccumulateAll, Accumulate, IdByte0, IdByte1, IdByte2, Id2, Id3, Consumed, Filled, Sum;
    IdAssembled(c, c);
    IdAssembled(rx.msg.msgid, c);
    if rx.state in {GotStx, GotLength, GotIncompatFlags, GotCompatFlags} {
      hide HeaderChar;
      CoreStarts(env, rx, c);
    }
  }

  lemma CoreStarts(env: Env, rx: Rx, c: byte)
    requires Inv(env, rx) && rx.state in {GotStx, GotLength, GotIncompatFlags, GotCompatFlags}
    requires rx.state == GotLength ==> c <= 1
    ensures var rx' := HeaderChar(rx, c);
            var n := HeaderCount(rx.state, rx.v1);
            && n < CoreLen(rx.v1)
            && HeaderCount(rx'.state, rx.v1) == n + 1
            && Core(rx.v1, rx'.msg)[..n] == Core(rx.v1, rx.msg)[..n]
            && Core(rx.v1, rx'.msg)[n] == c
  {
    hide AccumulateAll, Accumulate, IdByte0, IdByte1, IdByte2, Id2, Id3, Consumed, Filled, Sum;
  }

  lemma ChecksumGrows(consumed: seq<byte>, c: byte)
    ensures Accumulate(c, AccumulateAll(consumed, X25_INIT_CRC)) == AccumulateAll(consumed + [c], X25_INIT_CRC)
  {
    AccumulateSnoc(consumed, c, X25_INIT_CRC);
  }

  lemma HeaderKeeps(env: Env, rx: Rx, c: byte)
    requires Inv(env, rx) && InHeader(rx.state)
    ensures var rx' := HeaderChar(rx, c);
            && Inv(env, rx')
            && rx'.signer == rx.signer && rx'.streams == rx.streams
            && (if rx.state == GotLength && c > 1 then rx'.state == Idle else Grows(rx, rx', c))
  {
    hide AccumulateAll, Accumulate, Core, Consumed, Grows, IdByte0, IdByte1, IdByte2;
    var rx' := HeaderChar(rx, c);
    if !(rx.state == GotLength && c > 1) {
      HeaderGrows(env, rx, c);
      ChecksumGrows(Consumed(rx), c);
      GrowsGives(rx, rx', c);
    }
  }

  lemma GrowsGives(rx: Rx, rx': Rx, c: byte)
    requires rx.Safe() && rx'.Safe() && Grows(rx, rx', c)
    ensures Consumed(rx') == Consumed(rx) + [c] && rx'.msg.magic == rx.msg.magic && rx'.v1 == rx.v1
  {
  }

  lemma PayloadKeeps(env: Env, rx: Rx, c: byte)
    requires Inv(env, rx) && rx.state == GotMsgid3
    ensures var rx' := PayloadChar(rx, c);
            && Inv(env, rx') && Grows(rx, rx', c)
  {
    hide AccumulateAll, Accumulate, IdByte0, IdByte1, IdByte2;
    var rx' := PayloadChar(rx, c);
    var n := rx.packetIdx;
    assert rx'.msg.payload[..n + 1] == rx.msg.payload[..n] + [c];
    assert Core(rx.v1, rx'.msg) == Core(rx.v1, rx.msg);
    assert Consumed(rx') == Consumed(rx) + [c];
    ChecksumGrows(Consumed(rx), c);
  }

  lemma Ck0Keeps(env: Env, rx: Rx, c: byte)
    requires Inv(env, rx) && rx.state == GotPayload
    ensures var rx' := Ck0Char(env, rx, c);
            && Inv(env, rx') && Grows(rx, rx', c)
            && rx'.msg.len == rx.msg.len
  {
    hide AccumulateAll, Accumulate, CkA, IdByte0, IdByte1, IdByte2;
    var rx' := Ck0Char(env, rx, c);
    var n := rx.packetIdx;
    assert rx'.msg.payload[..n] == rx.msg.payload[..n];
    assert Core(rx.v1, rx'.msg) == Core(rx.v1, rx.msg);
    assert Consumed(rx') == Consumed(rx) + [c];
  }

  // ----- What is delivered -----

  /** The signature bytes a message carries on the wire. */
  function SignatureOf(m: Msg): seq<byte> {
    if m.Signed() then m.signature else []
  }

  /** The bytes after the marker are this message: header, payload of the declared length, both checksum bytes and,
      if flagged, the signature; and the payload buffer is zero-filled to the width of the type. */
  ghost predicate IsBody(env: Env, v1: bool, m: Msg, bytes: seq<byte>) {
    && m.Valid()
    && m.magic == (if v1 then STX_MAVLINK1 else STX)
    && m.incompat <= 1 && (v1 ==> m.incompat == 0 && m.compat == 0)
    && m.msgid < (if v1 then 0x100 else MSGID_LIMIT)
    && m.checksum == Sum(env, v1, m) && m.ck0 == CkA(m.checksum) && m.ck1 == CkB(m.checksum)
    && Filled(env, m)
    && bytes == Body(v1, m, m.payload[..m.len], m.checksum, SignatureOf(m))
  }

  /** Whether the parser's signing configuration lets an unsigned message through. */
  predicate UnsignedPasses(env: Env, rx: Rx, msgid: nat) {
    rx.signer.None? || env.acceptUnsigned(msgid)
  }

  /** Both checksum bytes of the frame being read are right. */
  predicate CkRight(rx: Rx, c: byte) {
    rx.msg.ck0 == CkA(rx.msg.checksum) && c == CkB(rx.msg.checksum)
  }

  lemma Ck1Verdict(env: Env, rx: Rx, c: byte)
    requires Inv(env, rx) && (rx.state == GotCrc1 || rx.state == GotBadCrc1)
    ensures var (rx', framing) := Ck1Char(env, rx, c);
            && rx'.msg == rx.msg.(ck1 := c) && rx'.v1 == rx.v1
            && rx'.signer == rx.signer && rx'.streams == rx.streams
            && rx'.state == (if rx.msg.Signed() then SignatureWait else Idle)
            && framing == if !CkRight(rx, c) then BadCrc
                          else if rx.msg.Signed() then Incomplete
                          else if UnsignedPasses(env, rx, rx.msg.msgid) then Good else BadSignature
  {
    hide AccumulateAll, Accumulate, CkA, CkB, Core, Consumed;
  }

  lemma Ck1Keeps(env: Env, rx: Rx, c: byte)
    requires Inv(env, rx) && (rx.state == GotCrc1 || rx.state == GotBadCrc1)
    requires CkRight(rx, c)
    ensures var rx' := Ck1Char(env, rx, c).0;
            && (rx.msg.Signed() ==> Inv(env, rx') && Grows(rx, rx', c))
            && (!rx.msg.Signed() ==> IsBody(env, rx.v1, rx'.msg, Consumed(rx) + [c]))
  {
    if rx.msg.Signed() { Ck1Waits(env, rx, c); } else { Ck1Body(env, rx, c); }
  }

  lemma Ck1Waits(env: Env, rx: Rx, c: byte)
    requires Inv(env, rx) && (rx.state == GotCrc1 || rx.state == GotBadCrc1)
    requires CkRight(rx, c) && rx.msg.Signed()
    ensures var rx' := Ck1Char(env, rx, c).0; Inv(env, rx') && Grows(rx, rx', c)
  {
    Ck1WaitsIs(env, rx, c);
    Ck1WaitsGrows(env, rx, c);
    Ck1WaitsInv(env, rx, c);
    hide Inv, Grows, Ck1Char;
  }

  lemma Ck1WaitsInv(env: Env, rx: Rx, c: byte)
    requires Inv(env, rx) && (rx.state == GotCrc1 || rx.state == GotBadCrc1)
    requires CkRight(rx, c) && rx.msg.Signed()
    ensures Inv(env, rx.(state := SignatureWait, signatureWait := SIGNATURE_BLOCK_LEN, msg := rx.msg.(ck1 := c)))
  {
    hide CkA, CkB, Consumed, Sum, Filled;
    SameFill(env, rx.v1, rx.msg, rx.msg.(ck1 := c));
  }

  lemma Ck1WaitsIs(env: Env, rx: Rx, c: byte)
    requires rx.Safe() && (rx.state == GotCrc1 || rx.state == GotBadCrc1) && rx.msg.Signed()
    ensures Ck1Char(env, rx, c).0
            == rx.(state := SignatureWait, signatureWait := SIGNATURE_BLOCK_LEN, msg := rx.msg.(ck1 := c))
  {
  }

  lemma Ck1WaitsGrows(env: Env, rx: Rx, c: byte)
    requires rx.Safe() && (rx.state == GotCrc1 || rx.state == GotBadCrc1) && rx.msg.Signed()
    ensures Grows(rx, Ck1Char(env, rx, c).0, c)
  {
    Ck1WaitsIs(env, rx, c);
    hide Core, Ck1Char;
    var m, m' := rx.msg, rx.msg.(ck1 := c);
    SameCore(rx.v1, m, m');
    JoinedTwo(Core(rx.v1, m) + m.payload[..m.len], m.ck0, c, m'.signature);
  }

  lemma JoinedTwo(head: seq<byte>, a: byte, b: byte, rest: seq<byte>)
    ensures head + [a] + [b] == head + [a, b] + rest[..0]
  {
  }

  lemma SameCore(v1: bool, m: Msg, m': Msg)
    requires m' == m.(ck1 := m'.ck1, signature := m'.signature)
    ensures Core(v1, m') == Core(v1, m)
  {
  }

  lemma SameFill(env: Env, v1: bool, m: Msg, m': Msg)
    requires m.Valid() && m'.Valid() && m' == m.(ck1 := m'.ck1, signature := m'.signature)
    ensures Sum(env, v1, m') == Sum(env, v1, m) && Filled(env, m') == Filled(env, m)
  {
    hide AccumulateAll, Lookup;
    SameCore(v1, m, m');
  }

  lemma Ck1Body(env: Env, rx: Rx, c: byte)
    requires Inv(env, rx) && (rx.state == GotCrc1 || rx.state == GotBadCrc1)
    requires CkRight(rx, c) && !rx.msg.Signed()
    ensures IsBody(env, rx.v1, Ck1Char(env, rx, c).0.msg, Consumed(rx) + [c])
  {
    hide AccumulateAll, Accumulate, CkA, CkB, IdByte0, IdByte1, IdByte2;
    var m, m' := rx.msg, Ck1Char(env, rx, c).0.msg;
    assert Core(rx.v1, m') == Core(rx.v1, m);
    var head := Core(rx.v1, m') + m'.payload[..m.len];
    assert head + [m.ck0] + [c] == head + [m.ck0, c] == head + [m.ck0, c] + [];
  }

  /** What the signature check of a complete signed message decides. */
  function SignedPasses(env: Env, rx: Rx, m: Msg): bool
    requires m.Valid()
  {
    Check(env.digest, rx.signer, rx.streams, m).ok || env.acceptUnsigned(m.msgid)
  }

  lemma SignatureKeeps(env: Env, rx: Rx, c: byte)
    requires Inv(env, rx) && rx.state == SignatureWait
    ensures var (rx', framing) := SignatureChar(env, rx, c);
            && (rx.signatureWait > 1 ==> framing == Incomplete && Inv(env, rx') && Grows(rx, rx', c))
            && (rx.signatureWait == 1 ==>
                 && rx'.state == Idle && IsBody(env, rx.v1, rx'.msg, Consumed(rx) + [c])
                 && framing == if SignedPasses(env, rx, rx'.msg) then Good else BadSignature)
  {
    hide AccumulateAll, CkA, CkB, Check, Core, Sum, Filled, Consumed, InvActive, IsBody;
    if rx.signatureWait == 1 {
      SignatureLast(env, rx, c);
    } else {
      SignatureMore(env, rx, c);
    }
  }

  /** The receive buffer with one more byte of the signature block. */
  ghost function WithSignature(rx: Rx, c: byte): (m: Msg)
    requires rx.Safe() && rx.state == SignatureWait
    ensures m.Valid()
  {
    rx.msg.(signature := rx.msg.signature[SIGNATURE_BLOCK_LEN - rx.signatureWait := c])
  }

  lemma SignatureConsumed(rx: Rx, c: byte)
    requires rx.Safe() && rx.state == SignatureWait
    ensures var m' := WithSignature(rx, c);
      Consumed(rx) + [c] == Core(rx.v1, m') + m'.payload[..m'.len] + [m'.ck0, m'.ck1]
                            + m'.signature[..SIGNATURE_BLOCK_LEN - rx.signatureWait + 1]
  {
    hide Core;
    var m, m', n := rx.msg, WithSignature(rx, c), SIGNATURE_BLOCK_LEN - rx.signatureWait;
    SameCore(rx.v1, m, m');
    assert m'.signature[..n + 1] == m.signature[..n] + [c];
  }

  lemma SignatureMore(env: Env, rx: Rx, c: byte)
    requires Inv(env, rx) && rx.state == SignatureWait && rx.signatureWait > 1
    ensures var rx' := rx.(signatureWait := rx.signatureWait - 1, msg := WithSignature(rx, c));
      Inv(env, rx') && Grows(rx, rx', c)
  {
    hide CkA, CkB, Core, Sum, Filled;
    SameFill(env, rx.v1, rx.msg, WithSignature(rx, c));
    SignatureConsumed(rx, c);
  }

  lemma SignatureLast(env: Env, rx: Rx, c: byte)
    requires Inv(env, rx) && rx.state == SignatureWait && rx.signatureWait == 1
    ensures IsBody(env, rx.v1, WithSignature(rx, c), Consumed(rx) + [c])
  {
    hide CkA, CkB, Core, Sum, Filled;
    var m' := WithSignature(rx, c);
    SameFill(env, rx.v1, rx.msg, m');
    SignatureConsumed(rx, c);
    hide Consumed;
    assert m'.signature[..SIGNATURE_BLOCK_LEN] == m'.signature;
  }

  /**
   The last six bytes of a signed frame are the first 48 bits of the hash over the key, the
   marker and all bytes of the frame before them.
   */
  ghost predicate Authentic(digest: Digest, key: seq<byte>, magic: byte, body: seq<byte>) {
    |body| >= 6 &&
    var tag, hash := body[|body| - 6..], digest(key + [magic] + body[..|body| - 6]);
    forall k :: 0 <= k < 6 ==> tag[k] == if k < |hash| then hash[k] else 0
  }

  /** What lets a message through: no signing, the application's override, or a right signature. */
  ghost predicate Vetted(env: Env, rx: Rx, m: Msg, body: seq<byte>) {
    || rx.signer.None? || env.acceptUnsigned(m.msgid)
    || (m.Signed() && rx.streams.Some? && Authentic(env.digest, rx.signer.value.key, m.magic, body))
  }

  lemma SignedBody(env: Env, v1: bool, m: Msg, body: seq<byte>)
    requires IsBody(env, v1, m, body) && m.Signed()
    ensures |body| >= 6
    ensures body[..|body| - 6] == Core(false, m) + m.payload[..m.len] + [m.ck0, m.ck1] + m.signature[..7]
    ensures body[|body| - 6..] == m.signature[7..]
  {
    hide Core, CkA, CkB, Sum, Filled;
    var head := Core(false, m) + m.payload[..m.len] + [m.ck0, m.ck1];
    assert m.signature == m.signature[..7] + m.signature[7..];
    assert body == head + m.signature[..7] + m.signature[7..];
  }

  lemma Regrouped(key: seq<byte>, magic: byte, core: seq<byte>, payload: seq<byte>, ck: seq<byte>, stamp: seq<byte>)
    ensures key + ([magic] + core) + payload + ck + stamp == key + [magic] + (core + payload + ck + stamp)
  {
  }

  /** The tag of a complete message matches exactly if its bytes are authentic. */
  lemma TagIffAuthentic(env: Env, v1: bool, m: Msg, body: seq<byte>, key: seq<byte>)
    requires IsBody(env, v1, m, body) && m.Signed()
    ensures TagMatches(env.digest, key, m) <==> Authentic(env.digest, key, m.magic, body)
  {
    SignedBody(env, v1, m, body);
    Regrouped(key, m.magic, Core(false, m), m.payload[..m.len], [m.ck0, m.ck1], m.signature[..7]);
    hide IsBody, Core;
    TagBytes(Final48(env.digest, Hashed(key, m)), m.signature[7..]);
  }

  lemma TagBytes(a: seq<byte>, b: seq<byte>)
    requires |a| == |b| == 6
    ensures a == b <==> forall k :: 0 <= k < 6 ==> b[k] == a[k]
  {
  }

  /** What a byte delivers is vetted; and it changes the signing state only with an authentic message. */
  lemma DeliversVetted(env: Env, rx: Rx, c: byte)
    requires Inv(env, rx) && !rx.Waiting()
    ensures var (rx', out) := ParseChar(env, rx, c);
      && (out.Some? ==> Vetted(env, rx, out.value, Consumed(rx) + [c]))
      && (rx'.signer != rx.signer || rx'.streams != rx.streams ==>
            out.Some? && out.value.Signed() && rx.signer.Some?
            && Authentic(env.digest, rx.signer.value.key, out.value.magic, Consumed(rx) + [c]))
  {
    hide HeaderChar, PayloadChar, Ck0Char, Core, Consumed, InvActive, Authentic, IsBody;
    if rx.state == SignatureWait {
      SignatureVetted(env, rx, c);
    } else if rx.state in {GotCrc1, GotBadCrc1} {
      Ck1Verdict(env, rx, c);
      hide Ck1Char;
    }
  }

  lemma SignatureVetted(env: Env, rx: Rx, c: byte)
    requires Inv(env, rx) && rx.state == SignatureWait
    ensures var (rx', framing) := SignatureChar(env, rx, c);
      && (framing == Good ==> Vetted(env, rx, rx'.msg, Consumed(rx) + [c]))
      && (rx'.signer != rx.signer || rx'.streams != rx.streams ==>
            framing == Good && rx'.msg.Signed() && rx.signer.Some?
            && Authentic(env.digest, rx.signer.value.key, rx'.msg.magic, Consumed(rx) + [c]))
  {
    hide Core, Consumed, Authentic, IsBody, TagMatches, Fresh, Remember;
    if rx.signatureWait == 1 {
      SignatureLast(env, rx, c);
      StillSigned(env, rx, c);
      if rx.signer.Some? {
        TagIffAuthentic(env, rx.v1, WithSignature(rx, c), Consumed(rx) + [c], rx.signer.value.key);
      }
      hide InvActive;
    }
  }

  lemma StillSigned(env: Env, rx: Rx, c: byte)
    requires Inv(env, rx) && rx.state == SignatureWait
    ensures WithSignature(rx, c).Signed()
  {
    hide CkA, CkB, Sum, Filled, Consumed;
  }

  /** How one byte can go while a frame is being read: it is consumed, completes a message, or the frame is dropped. */
  datatype Outcome = Consumes | Delivers | Drops

  ghost predicate Outcomes(env: Env, rx: Rx, c: byte, outcome: Outcome)
    requires rx.Safe() && !rx.Waiting()
  {
    var (rx', out) := ParseChar(env, rx, c);
    match outcome
    case Consumes => out.None? && Grows(rx, rx', c)
    case Delivers => out.Some? && rx'.state == Idle && rx'.msg == out.value
                     && IsBody(env, rx.v1, out.value, Consumed(rx) + [c])
    case Drops => out.None? && rx'.v1 == rx.v1
                  && rx'.state == (if c == STX && rx.state != GotLength then GotStx else Idle)
  }

  lemma EmptyChecksum()
    ensures AccumulateAll([], X25_INIT_CRC) == X25_INIT_CRC
  {
  }

  lemma DropsKeep(env: Env, rx: Rx, rx1: Rx, c: byte)
    requires rx1.Safe() && Inv(env, rx)
    requires !rx.Waiting() && rx1.msg.magic == rx.msg.magic && rx1.v1 == rx.v1
    ensures Inv(env, rx1.(state := Idle))
    ensures Inv(env, rx1.(state := GotStx, msg := rx1.msg.(len := 0, checksum := X25_INIT_CRC)))
  {
    hide Accumulate;
    EmptyChecksum();
    var rx2 := rx1.(state := GotStx, msg := rx1.msg.(len := 0, checksum := X25_INIT_CRC));
    assert Consumed(rx2) == [];
  }

  /** What the parser does between frames. */
  function Hunt(rx: Rx, c: byte): Rx {
    if c == STX || c == STX_MAVLINK1 then
      rx.(state := GotStx, v1 := c == STX_MAVLINK1, msg := rx.msg.(len := 0, magic := c, checksum := X25_INIT_CRC))
    else rx
  }

  lemma HuntKeeps(env: Env, rx: Rx, c: byte)
    requires Inv(env, rx) && rx.Waiting()
    ensures Inv(env, Hunt(rx, c)) && ParseChar(env, rx, c) == (Hunt(rx, c), None)
  {
    hide Accumulate;
    assert c == STX || c == STX_MAVLINK1 ==> Consumed(Hunt(rx, c)) == [];
  }

  lemma Ck1Ends(env: Env, rx: Rx, c: byte) returns (outcome: Outcome)
    requires Inv(env, rx) && (rx.state == GotCrc1 || rx.state == GotBadCrc1)
    ensures Inv(env, ParseChar(env, rx, c).0) && Outcomes(env, rx, c, outcome)
  {
    hide Accumulate, AccumulateAll, CkRight, Core, IsBody, Grows, Consumed, InvActive, Ck1Char;
    var (rx1, framing) := FrameChar(env, rx, c);
    Ck1Verdict(env, rx, c);
    if framing != BadCrc {
      Ck1Keeps(env, rx, c);
    }
    outcome := if framing == Incomplete then Consumes else if framing == Good then Delivers else Drops;
    DropsKeep(env, rx, rx1, c);
  }

  lemma SignatureEnds(env: Env, rx: Rx, c: byte) returns (outcome: Outcome)
    requires Inv(env, rx) && rx.state == SignatureWait
    ensures Inv(env, ParseChar(env, rx, c).0) && Outcomes(env, rx, c, outcome)
  {
    hide Accumulate, AccumulateAll, Core, IsBody, Grows, Consumed, InvActive, SignedPasses, Check;
    var (rx1, framing) := FrameChar(env, rx, c);
    SignatureKeeps(env, rx, c);
    outcome := if framing == Incomplete then Consumes else if framing == Good then Delivers else Drops;
    DropsKeep(env, rx, rx1, c);
  }

  /** Every byte keeps the parser's invariant, and is consumed, completes a message or drops the frame. */
  lemma ParseKeeps(env: Env, rx: Rx, c: byte) returns (outcome: Outcome)
    requires Inv(env, rx)
    ensures Inv(env, ParseChar(env, rx, c).0)
    ensures !rx.Waiting() ==> Outcomes(env, rx, c, outcome)
    ensures rx.Waiting() ==> ParseChar(env, rx, c) == (Hunt(rx, c), None)
  {
    hide Accumulate, AccumulateAll, HeaderChar, PayloadChar, Ck0Char, SignatureChar, Ck1Char;
    hide Grows, InvActive, Consumed;
    outcome := Consumes;
    if rx.Waiting() {
      HuntKeeps(env, rx, c);
    } else if InHeader(rx.state) {
      HeaderKeeps(env, rx, c);
      outcome := if rx.state == GotLength && c > 1 then Drops else Consumes;
    } else if rx.state == GotMsgid3 {
      PayloadKeeps(env, rx, c);
    } else if rx.state == GotPayload {
      Ck0Keeps(env, rx, c);
    } else if rx.state == SignatureWait {
      outcome := SignatureEnds(env, rx, c);
    } else {
      outcome := Ck1Ends(env, rx, c);
    }
  }
}
