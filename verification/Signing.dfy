/**
 Message signing: the signature block of outgoing packets and the replay check of
 incoming ones. The hash is any function from byte strings to byte strings.
 */
module Signing {

  import opened Crc
  import opened Wire
  import opened Wrappers

  const MAX_SIGNING_STREAMS: nat := 16
  const LIMIT_48: nat := 0x1_0000_0000_0000
  const LIMIT_64: nat := 0x1_0000_0000_0000_0000

  /** One minute, in the units of the timestamps. */
  const MAX_AGE: nat := 6000 * 1000

  type Digest = seq<byte> -> seq<byte>

  // ----- Six-byte little-endian timestamps -----

  function Le48(t: nat): (b: seq<byte>)
    ensures |b| == 6
  {
    [t % 256, t / 0x100 % 256, t / 0x10000 % 256, t / 0x1000000 % 256, t / 0x100000000 % 256, t / 0x10000000000 % 256]
  }

  function FromLe48(b: seq<byte>): (t: nat)
    requires |b| == 6
    ensures t < LIMIT_48
  {
    b[0] as int + b[1] as int * 0x100 + b[2] as int * 0x10000 + b[3] as int * 0x1000000
    + b[4] as int * 0x100000000 + b[5] as int * 0x10000000000
  }

  /** Six bytes carry a timestamp up to 2^48; beyond that they wrap. */
  lemma Le48RoundTrip(t: nat)
    ensures FromLe48(Le48(t)) == t % LIMIT_48
  {
    Quotients(t);
    var t1, t2, t3 := t / 0x100, t / 0x10000, t / 0x1000000;
    var t4, t5, t6 := t / 0x100000000, t / 0x10000000000, t / LIMIT_48;
    assert t == FromLe48(Le48(t)) + LIMIT_48 * t6;
  }

  lemma Quotients(t: nat)
    ensures t / 0x10000 == t / 0x100 / 0x100
    ensures t / 0x1000000 == t / 0x10000 / 0x100
    ensures t / 0x100000000 == t / 0x1000000 / 0x100
    ensures t / 0x10000000000 == t / 0x100000000 / 0x100
    ensures t / LIMIT_48 == t / 0x10000000000 / 0x100
  {
  }

  // ----- Signing and checking, on values -----

  datatype Signer = Signer(signOutgoing: bool, linkId: byte, timestamp: nat, key: seq<byte>)

  /** A remembered stream; `last` is the number its six timestamp bytes stand for. */
  datatype Stream = Stream(id: StreamId, last: nat)

  datatype StreamId = StreamId(sysid: byte, compid: byte, linkId: byte)

  /** The first 48 bits of a digest. */
  function Final48(digest: Digest, data: seq<byte>): (tag: seq<byte>)
    ensures |tag| == 6
  {
    var d := digest(data);
    seq(6, i requires 0 <= i < 6 => if i < |d| then d[i] else 0)
  }

  /** Link id and timestamp, the part of the block that is hashed. */
  function Stamp(s: Signer): (stamp: seq<byte>)
    ensures |stamp| == 7
  {
    [s.linkId] + Le48(s.timestamp)
  }

  /** The 13 bytes appended to a packet. */
  function Block(digest: Digest, s: Signer, header: seq<byte>, payload: seq<byte>, ck: seq<byte>): (block: seq<byte>)
    ensures |block| == SIGNATURE_BLOCK_LEN
  {
    Stamp(s) + Final48(digest, s.key + header + payload + ck + Stamp(s))
  }

  /**
   The block byte for byte: the link id, the timestamp least significant byte first, and the
   first six bytes of the hash over key, header, payload, checksum and those seven bytes.
   */
  lemma BlockFormat(digest: Digest, s: Signer, header: seq<byte>, payload: seq<byte>, ck: seq<byte>)
    ensures var block, t := Block(digest, s, header, payload, ck), s.timestamp;
      var hash := digest(s.key + header + payload + ck + block[..7]);
      && block[0] == s.linkId
      && block[1..7] == [t % 256, t / 0x100 % 256, t / 0x10000 % 256, t / 0x1000000 % 256, t / 0x100000000 % 256,
                         t / 0x10000000000 % 256]
      && forall i :: 0 <= i < 6 ==> block[7 + i] == if i < |hash| then hash[i] else 0
  {
    assert Block(digest, s, header, payload, ck)[..7] == Stamp(s);
  }

  /** The signer after one packet: the next timestamp, in 64 bits. */
  function Ticked(s: Signer): Signer {
    s.(timestamp := (s.timestamp + 1) % LIMIT_64)
  }

  /** What a received message presents to the hash. */
  function Hashed(key: seq<byte>, m: Msg): seq<byte>
    requires m.Valid()
  {
    key + ([m.magic] + Core(false, m)) + m.payload[..m.len] + [m.ck0, m.ck1] + m.signature[..7]
  }

  predicate TagMatches(digest: Digest, key: seq<byte>, m: Msg)
    requires m.Valid()
  {
    Final48(digest, Hashed(key, m)) == m.signature[7..]
  }

  function StreamOf(m: Msg): StreamId
    requires m.Valid()
  {
    StreamId(m.sysid, m.compid, m.signature[0])
  }

  function TimestampOf(m: Msg): nat
    requires m.Valid()
  {
    FromLe48(m.signature[1..7])
  }

  /** The index of a stream, or the number of streams. */
  function Find(streams: seq<Stream>, id: StreamId): (i: nat)
    ensures i <= |streams|
    ensures i < |streams| ==> streams[i].id == id
    ensures forall j :: 0 <= j < i ==> streams[j].id != id
  {
    if streams == [] || streams[0].id == id then 0 else 1 + Find(streams[1..], id)
  }

  /** The replay rules: whether a timestamp is accepted on a stream. */
  predicate Fresh(timestamp: nat, streams: seq<Stream>, id: StreamId, t: nat) {
    var i := Find(streams, id);
    if i == |streams| then |streams| < MAX_SIGNING_STREAMS && t + MAX_AGE >= timestamp
    else t > streams[i].last
  }

  /**
   The replay rules in numbers: a remembered stream accepts what is newer than its last
   timestamp; a new one needs one of sixteen places and a timestamp at most a minute, which
   is 6000000 units, behind the local one.
   */
  lemma FreshIff(timestamp: nat, streams: seq<Stream>, id: StreamId, t: nat)
    requires forall i, j :: 0 <= i < j < |streams| ==> streams[i].id != streams[j].id
    ensures forall i :: 0 <= i < |streams| && streams[i].id == id ==>
              (Fresh(timestamp, streams, id, t) <==> t > streams[i].last)
    ensures (forall i :: 0 <= i < |streams| ==> streams[i].id != id) ==>
              (Fresh(timestamp, streams, id, t) <==> |streams| < 16 && t + 6_000_000 >= timestamp)
  {
    var k := Find(streams, id);
    assert forall i :: 0 <= i < |streams| && streams[i].id == id ==> i == k;
  }

  function Remember(streams: seq<Stream>, id: StreamId, t: nat): seq<Stream> {
    var i := Find(streams, id);
    if i == |streams| then streams + [Stream(id, t)] else streams[i := Stream(id, t)]
  }

  datatype Checked = Checked(ok: bool, signer: Option<Signer>, streams: Option<seq<Stream>>)

  /** The outcome of a signature check and the signing state it leaves. */
  function Check(digest: Digest, signer: Option<Signer>, streams: Option<seq<Stream>>, m: Msg): Checked
    requires m.Valid()
  {
    if signer.None? then Checked(true, signer, streams)
    else if !TagMatches(digest, signer.value.key, m) || streams.None? then Checked(false, signer, streams)
    else
      var id, t := StreamOf(m), TimestampOf(m);
      if !Fresh(signer.value.timestamp, streams.value, id, t) then Checked(false, signer, streams)
      else
        var now := if t > signer.value.timestamp then t else signer.value.timestamp;
        Checked(true, Some(signer.value.(timestamp := now)), Some(Remember(streams.value, id, t)))
  }

  // ----- The same, in place -----

  class SigningState {
    var signOutgoing: bool
    var linkId: byte
    var timestamp: nat
    var key: seq<byte>

    function View(): Signer
      reads this
    {
      Signer(signOutgoing, linkId, timestamp, key)
    }

    constructor (signOutgoing: bool, linkId: byte, timestamp: nat, key: seq<byte>)
      ensures View() == Signer(signOutgoing, linkId, timestamp, key)
    {
      this.signOutgoing, this.linkId, this.timestamp, this.key := signOutgoing, linkId, timestamp, key;
    }

    /** `mavlink_sign_packet` */
    method SignPacket(digest: Digest, signature: array<byte>, header: seq<byte>, payload: seq<byte>, ck: seq<byte>)
      returns (n: nat)
      requires signature.Length == SIGNATURE_BLOCK_LEN
      modifies this`timestamp, signature
      ensures n == (if signOutgoing then SIGNATURE_BLOCK_LEN else 0)
      ensures signOutgoing ==>
        View() == Ticked(old(View())) && signature[..] == Block(digest, old(View()), header, payload, ck)
      ensures !signOutgoing ==> View() == old(View()) && signature[..] == old(signature[..])
    {
      if !signOutgoing {
        return 0;
      }
      ghost var s := View();
      signature[0] := linkId;
      var t8 := Le48(timestamp);
      for i := 0 to 6
        invariant View() == s && signature[0] == linkId
        invariant signature[1..1 + i] == t8[..i]
      {
        signature[1 + i] := t8[i];
      }
      timestamp := (timestamp + 1) % LIMIT_64;
      var stamp := signature[..7];
      assert stamp == Stamp(s);
      var tag := Final48(digest, key + header + payload + ck + stamp);
      for i := 0 to 6
        invariant View() == Ticked(s) && signature[..7] == stamp
        invariant signature[7..7 + i] == tag[..i]
      {
        signature[7 + i] := tag[i];
      }
      assert signature[..] == signature[..7] + signature[7..13];
      return SIGNATURE_BLOCK_LEN;
    }
  }

  class SigningStreams {
    var num: nat
    const stream: array<Stream>

    ghost predicate Valid()
      reads this
    {
      stream.Length == MAX_SIGNING_STREAMS && num <= MAX_SIGNING_STREAMS
    }

    ghost function View(): seq<Stream>
      reads this, stream
      requires Valid()
    {
      stream[..num]
    }

    constructor ()
      ensures Valid() && View() == [] && fresh(stream)
    {
      num := 0;
      stream := new Stream[MAX_SIGNING_STREAMS](_ => Stream(StreamId(0, 0, 0), 0));
    }

    /** The stream search of `mavlink_signature_check`. */
    method FindStream(id: StreamId) returns (i: nat)
      requires Valid()
      ensures i == Find(View(), id)
    {
      i := 0;
      while i < num && stream[i].id != id
        invariant i <= num
        invariant Find(View(), id) == i + Find(View()[i..], id)
      {
        i := i + 1;
      }
    }
  }

  ghost function ViewStreams(streams: SigningStreams?): Option<seq<Stream>>
    reads streams, if streams == null then {} else {streams.stream}
    requires streams != null ==> streams.Valid()
  {
    if streams == null then None else Some(streams.View())
  }

  ghost function ViewSigner(signing: SigningState?): Option<Signer>
    reads signing
  {
    if signing == null then None else Some(signing.View())
  }

  /** `mavlink_signature_check` */
  method SignatureCheck(digest: Digest, signing: SigningState?, streams: SigningStreams?, m: Msg) returns (ok: bool)
    requires m.Valid()
    requires streams != null ==> streams.Valid()
    modifies signing, streams, if streams == null then {} else {streams.stream}
    ensures streams != null ==> streams.Valid()
    ensures Checked(ok, ViewSigner(signing), ViewStreams(streams))
         == Check(digest, old(ViewSigner(signing)), old(ViewStreams(streams)), m)
  {
    if signing == null {
      return true;
    }
    var tag := Final48(digest, Hashed(signing.key, m));
    if tag != m.signature[7..] {
      return false;
    }
    if streams == null {
      return false;
    }
    var id, t := StreamOf(m), TimestampOf(m);
    var i := streams.FindStream(id);
    if i == streams.num {
      if streams.num >= MAX_SIGNING_STREAMS {
        return false;
      }
      if t + MAX_AGE < signing.timestamp {
        return false;
      }
      streams.num := streams.num + 1;
    } else if t <= streams.stream[i].last {
      return false;
    }
    streams.stream[i] := Stream(id, t);
    if t > signing.timestamp {
      signing.timestamp := t;
    }
    assert streams.View() == Remember(old(streams.View()), id, t);
    return true;
  }

  // ----- Whole runs -----

  datatype State = State(signer: Signer, streams: seq<Stream>)

  datatype Event = Outgoing(header: seq<byte>, payload: seq<byte>, ck: seq<byte>) | Incoming(m: Msg)

  /** What an event shows to the outside: a timestamp put on the wire, a timestamp accepted, or nothing. */
  datatype Out = Sent(t: nat) | Accepted(id: StreamId, t: nat) | Nothing

  ghost predicate ValidEvent(e: Event) {
    e.Incoming? ==> e.m.Valid()
  }

  function Step(digest: Digest, s: State, e: Event): (State, Out)
    requires ValidEvent(e)
  {
    match e
    case Outgoing(header, payload, ck) =>
      if !s.signer.signOutgoing then (s, Nothing)
      else (s.(signer := Ticked(s.signer)), Sent(FromLe48(Block(digest, s.signer, header, payload, ck)[1..7])))
    case Incoming(m) =>
      var c := Check(digest, Some(s.signer), Some(s.streams), m);
      (State(c.signer.value, c.streams.value), if c.ok then Accepted(StreamOf(m), TimestampOf(m)) else Nothing)
  }

  /** The state and the outputs after all events. */
  function Run(digest: Digest, s: State, events: seq<Event>): (State, seq<Out>)
    requires forall i :: 0 <= i < |events| ==> ValidEvent(events[i])
    decreases |events|
  {
    if events == [] then (s, [])
    else
      var (mid, outs) := Run(digest, s, events[..|events| - 1]);
      var (end, out) := Step(digest, mid, events[|events| - 1]);
      (end, outs + [out])
  }

  /** Every packet of the run is signed before the local timestamp outgrows six bytes. */
  predicate Within48(digest: Digest, s: State, events: seq<Event>)
    requires forall i :: 0 <= i < |events| ==> ValidEvent(events[i])
    decreases |events|
  {
    events == [] ||
    (Within48(digest, s, events[..|events| - 1]) &&
     (events[|events| - 1].Outgoing? ==> Run(digest, s, events[..|events| - 1]).0.signer.timestamp < LIMIT_48))
  }

  /** Stream ids are unique and fit the table; timestamps are 64-bit. */
  predicate Sound(s: State) {
    && |s.streams| <= MAX_SIGNING_STREAMS
    && s.signer.timestamp < LIMIT_64
    && (forall i, j :: 0 <= i < j < |s.streams| ==> s.streams[i].id != s.streams[j].id)
  }

  /** Everything put out so far is covered by the state: the next output can only be newer. */
  ghost predicate Covers(s: State, out: Out) {
    match out
    case Sent(t) => t < s.signer.timestamp
    case Accepted(id, t) =>
      && t <= s.signer.timestamp
      && (exists i :: 0 <= i < |s.streams| && s.streams[i].id == id && t <= s.streams[i].last)
    case Nothing => true
  }

  /** Two outputs of a run, the first before the second, in the order replay protection demands. */
  predicate Ordered(a: Out, b: Out) {
    match (a, b)
    case (Sent(t), Sent(u)) => t < u
    case (Accepted(_, t), Sent(u)) => t <= u
    case (Accepted(id, t), Accepted(id', u)) => id == id' ==> t < u
    case _ => true
  }

  lemma WireTimestamp(digest: Digest, s: Signer, header: seq<byte>, payload: seq<byte>, ck: seq<byte>)
    ensures FromLe48(Block(digest, s, header, payload, ck)[1..7]) == s.timestamp % LIMIT_48
  {
    assert Block(digest, s, header, payload, ck)[1..7] == Le48(s.timestamp);
    Le48RoundTrip(s.timestamp);
  }

  lemma RememberUnique(streams: seq<Stream>, id: StreamId, t: nat)
    requires forall i, j :: 0 <= i < j < |streams| ==> streams[i].id != streams[j].id
    ensures var r := Remember(streams, id, t);
            && (forall i, j :: 0 <= i < j < |r| ==> r[i].id != r[j].id)
            && (exists i :: 0 <= i < |r| && r[i] == Stream(id, t))
            && (forall i :: 0 <= i < |streams| && streams[i].id != id ==> i < |r| && r[i] == streams[i])
  {
    var i := Find(streams, id);
    assert Remember(streams, id, t)[i] == Stream(id, t);
  }

  /** One step keeps the state sound, never lowers the local timestamp, and puts out only what is newer. */
  lemma StepKeeps(digest: Digest, s: State, e: Event, before: Out)
    requires Sound(s) && ValidEvent(e) && Covers(s, before)
    requires e.Outgoing? ==> s.signer.timestamp < LIMIT_48
    ensures var (s', out) := Step(digest, s, e);
            && Sound(s') && Covers(s', out) && Covers(s', before)
            && s.signer.timestamp <= s'.signer.timestamp
            && Ordered(before, out)
  {
    hide Block, TagMatches;
    var (s', out) := Step(digest, s, e);
    match e
    case Outgoing(header, payload, ck) =>
      hide Le48, FromLe48;
      WireTimestamp(digest, s.signer, header, payload, ck);
    case Incoming(m) =>
      hide Le48, FromLe48, StreamOf, TimestampOf;
      if out.Accepted? {
        Remembers(s, out);
        if before.Accepted? {
          AcceptedAfter(s, before, out);
        }
        hide Remember, Fresh;
      }
  }

  lemma Remembers(s: State, out: Out)
    requires Sound(s) && out.Accepted? && Fresh(s.signer.timestamp, s.streams, out.id, out.t)
    ensures var r := Remember(s.streams, out.id, out.t);
      && |r| <= MAX_SIGNING_STREAMS
      && (forall i, j :: 0 <= i < j < |r| ==> r[i].id != r[j].id)
      && (exists i :: 0 <= i < |r| && r[i].id == out.id && out.t <= r[i].last)
  {
    RememberUnique(s.streams, out.id, out.t);
  }

  /** A remembered stream accepts only what is newer, and the others stay as they were. */
  lemma AcceptedAfter(s: State, before: Out, out: Out)
    requires Sound(s) && Covers(s, before) && before.Accepted? && out.Accepted?
    requires Fresh(s.signer.timestamp, s.streams, out.id, out.t)
    ensures Ordered(before, out)
    ensures var r := Remember(s.streams, out.id, out.t);
      exists i :: 0 <= i < |r| && r[i].id == before.id && before.t <= r[i].last
  {
    RememberUnique(s.streams, out.id, out.t);
    var r := Remember(s.streams, out.id, out.t);
    var i :| 0 <= i < |s.streams| && s.streams[i].id == before.id && before.t <= s.streams[i].last;
    if before.id == out.id {
      assert Find(s.streams, out.id) == i;
      assert r[i] == Stream(out.id, out.t);
    } else {
      assert r[i] == s.streams[i];
    }
  }

  /** Over any run: sound states, a local timestamp that never decreases, and every pair of outputs in order. */
  lemma {:induction false} RunOrdered(digest: Digest, s: State, events: seq<Event>)
    requires forall i :: 0 <= i < |events| ==> ValidEvent(events[i])
    requires Sound(s) && Within48(digest, s, events)
    ensures var (s', outs) := Run(digest, s, events);
            && Sound(s') && s.signer.timestamp <= s'.signer.timestamp
            && |outs| == |events|
            && (forall i :: 0 <= i < |outs| ==> Covers(s', outs[i]))
            && (forall i, j :: 0 <= i < j < |outs| ==> Ordered(outs[i], outs[j]))
    decreases |events|
  {
    hide Step, Sound, Covers, Ordered;
    if events != [] {
      var init, e := events[..|events| - 1], events[|events| - 1];
      RunOrdered(digest, s, init);
      var (mid, outs) := Run(digest, s, init);
      var (s', out) := Step(digest, mid, e);
      assert Covers(mid, Nothing) by { CoversNothing(mid); }
      StepKeeps(digest, mid, e, Nothing);
      forall i | 0 <= i < |outs|
        ensures Covers(s', outs[i]) && Ordered(outs[i], out)
      {
        StepKeeps(digest, mid, e, outs[i]);
      }
    }
  }

  lemma CoversNothing(s: State)
    ensures Covers(s, Nothing)
  {
  }

  /**
   The bound on the local timestamp is needed: of two packets in a row the second is newer
   on the wire exactly if it did not wrap.
   */
  lemma WireIncreasesIff(digest: Digest, s: Signer, header: seq<byte>, payload: seq<byte>, ck: seq<byte>)
    requires s.timestamp < LIMIT_64
    ensures FromLe48(Block(digest, s, header, payload, ck)[1..7])
            < FromLe48(Block(digest, Ticked(s), header, payload, ck)[1..7])
            <==> (s.timestamp + 1) % LIMIT_48 != 0
  {
    hide Block;
    WireTimestamp(digest, s, header, payload, ck);
    WireTimestamp(digest, Ticked(s), header, payload, ck);
    NextModulo(s.timestamp);
  }

  lemma NextModulo(t: nat)
    requires t < LIMIT_64
    ensures (t + 1) % LIMIT_64 % LIMIT_48 == (t + 1) % LIMIT_48
    ensures t % LIMIT_48 < (t + 1) % LIMIT_48 <==> (t + 1) % LIMIT_48 != 0
  {
  }
}
