/**
 MAVLink messages as values, the wire format of a frame, and the table of known
 message types.
 */
module Wire {

  import opened Crc
  import opened Wrappers

  const STX: byte := 0xFD
  const STX_MAVLINK1: byte := 0xFE

  const CORE_HEADER_LEN: nat := 9
  const CORE_HEADER_MAVLINK1_LEN: nat := 5
  const SIGNATURE_BLOCK_LEN: nat := 13

  /** Payload buffer: 255 bytes and two checksum bytes, rounded up to 64-bit words. */
  const PAYLOAD_BUFFER_LEN: nat := 264

  const MAX_PAYLOAD_LEN: nat := 255

  /** The only incompatibility flag this library understands, the lowest bit. */
  const IFLAG_SIGNED: byte := 0x01

  datatype Msg = Msg(
    checksum: bv16, magic: byte, len: byte, incompat: byte, compat: byte,
    seqno: byte, sysid: byte, compid: byte, msgid: nat,
    payload: seq<byte>, ck0: byte, ck1: byte, signature: seq<byte>)
  {
    ghost predicate Valid() {
      |payload| == PAYLOAD_BUFFER_LEN && |signature| == SIGNATURE_BLOCK_LEN
    }

    predicate IsV1() {
      magic == STX_MAVLINK1
    }

    predicate Signed() {
      incompat % 2 == 1
    }
  }

  // ----- 24-bit message ids, least significant byte first -----

  const MSGID_LIMIT: nat := 0x1000000

  function IdByte0(id: nat): byte { id % 256 }
  function IdByte1(id: nat): byte { id / 256 % 256 }
  function IdByte2(id: nat): byte { id / 65536 % 256 }

  /** The id as the parser assembles it: each byte or-ed above the ones before, where the bits are still clear. */
  function Id2(id: nat, b1: byte): nat { id + 256 * b1 }
  function Id3(id: nat, b2: byte): nat { id + 65536 * b2 }

  lemma IdAssembled(id: nat, b: byte)
    ensures id < 0x100 ==> IdByte0(id) == id
    ensures id < 0x100 ==> IdByte0(Id2(id, b)) == IdByte0(id) && IdByte1(Id2(id, b)) == b && Id2(id, b) < 0x10000
    ensures id < 0x10000 ==> IdByte0(Id3(id, b)) == IdByte0(id) && IdByte1(Id3(id, b)) == IdByte1(id)
    ensures id < 0x10000 ==> IdByte2(Id3(id, b)) == b && Id3(id, b) < MSGID_LIMIT
  {
    hide IdByte0, IdByte1, IdByte2, Id2, Id3;
    SecondByte(id, b);
    ThirdByte(id, b);
  }

  lemma SecondByte(id: nat, b: byte)
    ensures id < 0x100 ==> IdByte0(id) == id
    ensures id < 0x100 ==> IdByte0(Id2(id, b)) == IdByte0(id) && IdByte1(Id2(id, b)) == b && Id2(id, b) < 0x10000
  {
  }

  lemma ThirdByte(id: nat, b: byte)
    ensures id < 0x10000 ==> IdByte0(Id3(id, b)) == IdByte0(id) && IdByte1(Id3(id, b)) == IdByte1(id)
    ensures id < 0x10000 ==> IdByte2(Id3(id, b)) == b && Id3(id, b) < MSGID_LIMIT
  {
    assert Id3(id, b) / 256 == id / 256 + 256 * b;
  }

  lemma IdParts(id: nat)
    requires id < MSGID_LIMIT
    ensures id == IdByte0(id) + 256 * IdByte1(id) + 65536 * IdByte2(id)
  {
    assert id / 65536 < 256;
    assert id / 65536 == id / 256 / 256;
  }

  lemma IdDetermined(a: nat, b: nat)
    requires a < MSGID_LIMIT && b < MSGID_LIMIT
    requires IdByte0(a) == IdByte0(b) && IdByte1(a) == IdByte1(b) && IdByte2(a) == IdByte2(b)
    ensures a == b
  {
    hide IdByte0, IdByte1, IdByte2;
    IdParts(a);
    IdParts(b);
  }

  // ----- The frame on the wire -----

  /** The header after the start marker. */
  function Core(v1: bool, m: Msg): (core: seq<byte>)
    ensures |core| == CoreLen(v1)
  {
    if v1 then [m.len, m.seqno, m.sysid, m.compid, IdByte0(m.msgid)]
    else [m.len, m.incompat, m.compat, m.seqno, m.sysid, m.compid,
          IdByte0(m.msgid), IdByte1(m.msgid), IdByte2(m.msgid)]
  }

  function CoreLen(v1: bool): nat {
    if v1 then CORE_HEADER_MAVLINK1_LEN else CORE_HEADER_LEN
  }

  /** The checksum of a frame: header after the marker, payload, and the seed of its message type. */
  function Checksum(v1: bool, m: Msg, payload: seq<byte>, crcExtra: byte): bv16 {
    Accumulate(crcExtra, AccumulateAll(Core(v1, m) + payload, X25_INIT_CRC))
  }

  /** Everything after the start marker, with a given checksum and trailing signature. */
  function Body(v1: bool, m: Msg, payload: seq<byte>, sum: bv16, signature: seq<byte>): seq<byte> {
    Core(v1, m) + payload + [CkA(sum), CkB(sum)] + signature
  }

  // ----- Trailing zeros -----

  /** The trimmed length of a payload: at least one byte stays if there was one. */
  function Trim(payload: seq<byte>, length: nat): (n: nat)
    requires length <= |payload|
    ensures n <= length && (length >= 1 ==> n >= 1)
    ensures forall i :: n <= i < length ==> payload[i] == 0
    ensures n > 1 ==> payload[n - 1] != 0
  {
    if length > 1 && payload[length - 1] == 0 then Trim(payload, length - 1) else length
  }

  /** `_mav_trim_payload` */
  method TrimPayload(payload: array<byte>, length: nat) returns (n: nat)
    requires length <= payload.Length
    ensures n == Trim(payload[..], length)
  {
    n := length;
    while n > 1 && payload[n - 1] == 0
      invariant n <= length
      invariant Trim(payload[..], length) == Trim(payload[..], n)
    {
      n := n - 1;
    }
  }

  /** The trimmed length is the only one with the two properties it promises, so trimming twice is trimming once. */
  lemma TrimUnique(payload: seq<byte>, length: nat, n: nat)
    requires n <= length <= |payload| && (length >= 1 ==> n >= 1)
    requires forall i :: n <= i < length ==> payload[i] == 0
    requires n > 1 ==> payload[n - 1] != 0
    ensures Trim(payload, length) == n
    ensures Trim(payload, n) == n
  {
    TrimIs(payload, length, n);
    TrimIs(payload, n, n);
  }

  lemma {:induction false} TrimIs(payload: seq<byte>, length: nat, n: nat)
    requires n <= length <= |payload| && (length >= 1 ==> n >= 1)
    requires forall i :: n <= i < length ==> payload[i] == 0
    requires n > 1 ==> payload[n - 1] != 0
    ensures Trim(payload, length) == n
  {
    if n < length {
      TrimIs(payload, length - 1, n);
    }
  }

  /** A payload cut to some length and filled up with zeros to a width. */
  function ZeroFill(payload: seq<byte>, width: nat): (full: seq<byte>)
    requires |payload| <= width
    ensures |full| == width
  {
    payload + seq(width - |payload|, _ => 0)
  }

  /** Filling up with zeros restores exactly what trimming removed. */
  lemma FillUndoesTrim(payload: seq<byte>, length: nat)
    requires length <= |payload|
    ensures ZeroFill(payload[..Trim(payload, length)], length) == payload[..length]
  {
    var n := Trim(payload, length);
    var full := ZeroFill(payload[..n], length);
    forall i | 0 <= i < length
      ensures full[i] == payload[i]
    {
      if i < n { assert full[i] == payload[..n][i]; } else { assert payload[i] == 0; }
    }
  }

  // ----- The table of message types -----

  datatype MsgEntry = MsgEntry(msgid: nat, crcExtra: byte, minLen: byte, maxLen: byte)

  predicate Sorted(table: seq<MsgEntry>) {
    forall i, j :: 0 <= i < j < |table| ==> table[i].msgid < table[j].msgid
  }

  /** The entry of a message type, wherever it stands. */
  function Lookup(table: seq<MsgEntry>, msgid: nat): (e: Option<MsgEntry>)
    ensures e.Some? ==> e.value in table && e.value.msgid == msgid
    ensures e.None? ==> forall i :: 0 <= i < |table| ==> table[i].msgid != msgid
  {
    if table == [] then None
    else if table[0].msgid == msgid then Some(table[0])
    else Lookup(table[1..], msgid)
  }

  lemma LookupAt(table: seq<MsgEntry>, k: nat)
    requires Sorted(table) && k < |table|
    ensures Lookup(table, table[k].msgid) == Some(table[k])
  {
    var e := Lookup(table, table[k].msgid);
    var j :| 0 <= j < |table| && table[j] == e.value;
    if j < k { assert table[j].msgid < table[k].msgid; }
    if k < j { assert table[k].msgid < table[j].msgid; }
  }

  /** `mavlink_get_msg_entry`: bisection over a sorted, non-empty table. */
  method GetMsgEntry(table: seq<MsgEntry>, msgid: nat) returns (e: Option<MsgEntry>)
    requires table != [] && Sorted(table)
    ensures e == Lookup(table, msgid)
  {
    var low, high := 0, |table| - 1;
    while low < high
      invariant 0 <= low <= high < |table|
      invariant forall i :: 0 <= i < low ==> table[i].msgid != msgid
      invariant forall i :: high < i < |table| ==> table[i].msgid != msgid
      decreases high - low
    {
      var mid := (low + 1 + high) / 2;
      if msgid < table[mid].msgid {
        assert forall i :: mid <= i < |table| ==> table[i].msgid != msgid;
        high := mid - 1;
      } else if msgid > table[mid].msgid {
        assert forall i :: 0 <= i <= mid ==> table[i].msgid != msgid;
        low := mid;
      } else {
        low := mid;
        break;
      }
    }
    if table[low].msgid != msgid {
      e := None;
      assert forall i :: 0 <= i < |table| ==> table[i].msgid != msgid;
    } else {
      LookupAt(table, low);
      e := Some(table[low]);
    }
  }

  /** The checksum seed of a message type; 0 for an unknown one. */
  function CrcExtra(table: seq<MsgEntry>, msgid: nat): byte {
    var e := Lookup(table, msgid);
    if e.Some? then e.value.crcExtra else 0
  }

  /** Every type of a sorted table is checksummed with the seed of its own entry, any other one with 0. */
  lemma SeedOfEntry(table: seq<MsgEntry>, msgid: nat)
    requires Sorted(table)
    ensures forall e :: e in table && e.msgid == msgid ==> CrcExtra(table, msgid) == e.crcExtra
    ensures (forall e :: e in table ==> e.msgid != msgid) ==> CrcExtra(table, msgid) == 0
  {
    forall e | e in table && e.msgid == msgid ensures CrcExtra(table, msgid) == e.crcExtra {
      var k :| 0 <= k < |table| && table[k] == e;
      LookupAt(table, k);
    }
  }
}
