/** The byte layout of the registry account: a counted list of fixed-width records. */
module Borsh {
  import opened Types

  const RECORD_BYTES := 86

  datatype RegistryState = RegistryState(records: seq<DocumentRecord>)

  // ----- little-endian integers -----

  function LeBytes(n: nat, width: nat): (bytes: seq<Byte>)
    ensures |bytes| == width
  {
    if width == 0 then [] else [n % 256] + LeBytes(n / 256, width - 1)
  }

  function LeValue(bytes: seq<Byte>): nat {
    if bytes == [] then 0 else bytes[0] + 256 * LeValue(bytes[1..])
  }

  function Span(width: nat): nat {
    if width == 0 then 1 else 256 * Span(width - 1)
  }

  lemma {:induction false} LeRoundTrip(n: nat, width: nat)
    requires n < Span(width)
    ensures LeValue(LeBytes(n, width)) == n
  {
    if width != 0 {
      LeRoundTrip(n / 256, width - 1);
      assert LeBytes(n, width)[1..] == LeBytes(n / 256, width - 1);
    }
  }

  lemma {:induction false} LeBytesOfValue(bytes: seq<Byte>)
    ensures LeValue(bytes) < Span(|bytes|)
    ensures LeBytes(LeValue(bytes), |bytes|) == bytes
  {
    if bytes != [] {
      LeBytesOfValue(bytes[1..]);
      var v := LeValue(bytes);
      assert v % 256 == bytes[0] && v / 256 == LeValue(bytes[1..]);
      assert bytes == [bytes[0]] + bytes[1..];
    }
  }

  lemma Spans()
    ensures Span(4) == 0x1_0000_0000 && Span(8) == 0x1_0000_0000_0000_0000
  {
    assert Span(2) == 65536;
    assert Span(6) == 65536 * Span(4);
  }

  // ----- records -----

  function EncodeRecord(r: DocumentRecord): (bytes: seq<Byte>)
    ensures |bytes| == RECORD_BYTES
  {
    r.cid + r.metadataHash + LeBytes(r.anchorTimestamp, 8)
  }

  function DecodeRecord(bytes: seq<Byte>): DocumentRecord
    requires |bytes| == RECORD_BYTES
  {
    Spans();
    LeBytesOfValue(bytes[78..]);
    DocumentRecord(bytes[..46], bytes[46..78], LeValue(bytes[78..]))
  }

  function EncodeRecords(rs: seq<DocumentRecord>): (bytes: seq<Byte>)
    ensures |bytes| == RECORD_BYTES * |rs|
  {
    if rs == [] then [] else EncodeRecord(rs[0]) + EncodeRecords(rs[1..])
  }

  /** Reads `n` records off the front; `None` when the bytes run out. */
  function ReadRecords(n: nat, bytes: seq<Byte>): Option<(seq<DocumentRecord>, seq<Byte>)> {
    if n == 0 then Some(([], bytes))
    else if |bytes| < RECORD_BYTES then None
    else
      match ReadRecords(n - 1, bytes[RECORD_BYTES..])
      case None => None
      case Some((rs, rest)) => Some(([DecodeRecord(bytes[..RECORD_BYTES])] + rs, rest))
  }

  // ----- the account -----

  /** Serialisation; fails only when the record count does not fit 32 bits. */
  function ToBytes(st: RegistryState): Option<seq<Byte>> {
    if |st.records| < 0x1_0000_0000 then Some(LeBytes(|st.records|, 4) + EncodeRecords(st.records)) else None
  }

  /** Deserialisation of a whole slice: short input and trailing bytes are errors. */
  function FromBytes(data: seq<Byte>): Option<RegistryState> {
    if |data| < 4 then None
    else
      match ReadRecords(LeValue(data[..4]), data[4..])
      case None => None
      case Some((rs, rest)) => if rest == [] then Some(RegistryState(rs)) else None
  }

  lemma RecordRoundTrip(r: DocumentRecord)
    ensures DecodeRecord(EncodeRecord(r)) == r
  {
    Spans();
    LeRoundTrip(r.anchorTimestamp, 8);
    var bytes := EncodeRecord(r);
    assert bytes[..46] == r.cid && bytes[46..78] == r.metadataHash;
    assert bytes[78..] == LeBytes(r.anchorTimestamp, 8);
  }

  lemma RecordOfBytes(bytes: seq<Byte>)
    requires |bytes| == RECORD_BYTES
    ensures EncodeRecord(DecodeRecord(bytes)) == bytes
  {
    LeBytesOfValue(bytes[78..]);
    assert bytes == bytes[..46] + bytes[46..78] + bytes[78..];
  }

  lemma {:induction false} ReadEncoded(rs: seq<DocumentRecord>, rest: seq<Byte>)
    ensures ReadRecords(|rs|, EncodeRecords(rs) + rest) == Some((rs, rest))
  {
    if rs != [] {
      ReadEncoded(rs[1..], rest);
      RecordRoundTrip(rs[0]);
      var bytes := EncodeRecords(rs) + rest;
      assert bytes[..RECORD_BYTES] == EncodeRecord(rs[0]);
      assert bytes[RECORD_BYTES..] == EncodeRecords(rs[1..]) + rest;
      assert rs == [rs[0]] + rs[1..];
    } else {
      assert EncodeRecords(rs) + rest == rest;
    }
  }

  lemma {:induction false} EncodeRead(n: nat, bytes: seq<Byte>)
    requires ReadRecords(n, bytes).Some?
    ensures var (rs, rest) := ReadRecords(n, bytes).value; |rs| == n && EncodeRecords(rs) + rest == bytes
  {
    if n != 0 {
      EncodeRead(n - 1, bytes[RECORD_BYTES..]);
      RecordOfBytes(bytes[..RECORD_BYTES]);
      var (rs, rest) := ReadRecords(n, bytes).value;
      assert rs[1..] == ReadRecords(n - 1, bytes[RECORD_BYTES..]).value.0;
      assert EncodeRecords(rs) + rest == EncodeRecord(rs[0]) + (EncodeRecords(rs[1..]) + rest);
      assert bytes == bytes[..RECORD_BYTES] + bytes[RECORD_BYTES..];
    }
  }

  /** The codec is a bijection between states that serialise and data that deserialises. */
  lemma AccountCodec(st: RegistryState, data: seq<Byte>)
    ensures FromBytes(data) == Some(st) <==> ToBytes(st) == Some(data)
  {
    Spans();
    if ToBytes(st) == Some(data) {
      LeRoundTrip(|st.records|, 4);
      ReadEncoded(st.records, []);
      assert data[..4] == LeBytes(|st.records|, 4);
      assert data[4..] == EncodeRecords(st.records) == EncodeRecords(st.records) + [];
    }
    if FromBytes(data) == Some(st) {
      LeBytesOfValue(data[..4]);
      EncodeRead(LeValue(data[..4]), data[4..]);
      assert data == data[..4] + data[4..];
      assert EncodeRecords(st.records) + [] == EncodeRecords(st.records);
    }
  }

  /** A state serialises exactly when its record count fits 32 bits, to 4 bytes plus 86 per record. */
  lemma SerialisesExactly(st: RegistryState)
    ensures ToBytes(st).Some? <==> |st.records| < 0x1_0000_0000
    ensures ToBytes(st).Some? ==> |ToBytes(st).value| == 4 + 86 * |st.records|
  {
  }

  lemma {:induction false} ReadsExactly(n: nat, bytes: seq<Byte>)
    ensures ReadRecords(n, bytes).Some? <==> RECORD_BYTES * n <= |bytes|
    ensures ReadRecords(n, bytes).Some? ==> |ReadRecords(n, bytes).value.1| == |bytes| - RECORD_BYTES * n
  {
    if n != 0 && RECORD_BYTES <= |bytes| {
      ReadsExactly(n - 1, bytes[RECORD_BYTES..]);
    }
  }

  /** Data decodes exactly when its length is what its first four bytes announce. */
  lemma DecodesExactly(data: seq<Byte>)
    ensures FromBytes(data).Some? <==>
      4 <= |data| && |data| == 4 + 86 * LittleEndian(data[0], data[1], data[2], data[3])
  {
    if 4 <= |data| {
      hide ReadRecords;
      LeBytesOfValue(data[..4]);
      Spans();
      CountBytes(LeValue(data[..4]), data[..4]);
      ReadsExactly(LeValue(data[..4]), data[4..]);
    }
  }

  /** Any account that decodes is 4 bytes plus 86 per record; the default account does not decode. */
  lemma AccountLength(data: seq<Byte>)
    ensures FromBytes(data).Some? ==> |data| == 4 + RECORD_BYTES * |FromBytes(data).value.records|
    ensures FromBytes([]).None?
  {
    if FromBytes(data).Some? {
      AccountCodec(FromBytes(data).value, data);
    }
  }

  /** Nothing may follow the last record. */
  lemma TrailingBytesRejected(data: seq<Byte>, extra: seq<Byte>)
    requires FromBytes(data).Some? && extra != []
    ensures FromBytes(data + extra).None?
  {
    AccountCodec(FromBytes(data).value, data);
    var both := data + extra;
    if FromBytes(both).Some? {
      AccountCodec(FromBytes(both).value, both);
      assert both[..4] == data[..4];
      LeBytesOfValue(data[..4]);
      Spans();
      LeRoundTrip(|FromBytes(data).value.records|, 4);
      LeRoundTrip(|FromBytes(both).value.records|, 4);
    }
  }

  lemma {:induction false} RecordAt(rs: seq<DocumentRecord>, i: nat)
    requires i < |rs|
    ensures EncodeRecords(rs)[RECORD_BYTES * i..RECORD_BYTES * i + RECORD_BYTES] == EncodeRecord(rs[i])
  {
    if i != 0 {
      RecordAt(rs[1..], i - 1);
      var at := RECORD_BYTES * (i - 1);
      assert EncodeRecords(rs)[RECORD_BYTES..] == EncodeRecords(rs[1..]);
      assert EncodeRecords(rs)[RECORD_BYTES + at..RECORD_BYTES + at + RECORD_BYTES]
          == EncodeRecords(rs[1..])[at..at + RECORD_BYTES];
    }
  }

  function LittleEndian(b0: int, b1: int, b2: int, b3: int): int {
    b0 + 0x100 * b1 + 0x1_0000 * b2 + 0x100_0000 * b3
  }

  /** Where everything lies: a little-endian count, then per record key, digest and little-endian timestamp. */
  lemma AccountLayout(data: seq<Byte>, i: nat)
    requires FromBytes(data).Some? && i < |FromBytes(data).value.records|
    ensures
      var rs, at := FromBytes(data).value.records, 4 + RECORD_BYTES * i;
      && |data| == 4 + RECORD_BYTES * |rs|
      && LittleEndian(data[0], data[1], data[2], data[3]) == |rs|
      && data[at..at + 46] == rs[i].cid
      && data[at + 46..at + 78] == rs[i].metadataHash
      && LittleEndian(data[at + 78], data[at + 79], data[at + 80], data[at + 81])
         + 0x1_0000_0000 * LittleEndian(data[at + 82], data[at + 83], data[at + 84], data[at + 85])
         == rs[i].anchorTimestamp
  {
    var rs := FromBytes(data).value.records;
    AccountCodec(FromBytes(data).value, data);
    AccountLength(data);
    hide FromBytes, ToBytes, LeBytes, EncodeRecords, EncodeRecord, LeValue, LittleEndian;
    AccountBytes(data, rs);
    assert data[..4] == LeBytes(|rs|, 4) && data[4..] == EncodeRecords(rs);
    CountBytes(|rs|, data[..4]);
    RecordAt(rs, i);
    RecordBytes(rs[i]);
    var at, bytes := 4 + RECORD_BYTES * i, EncodeRecord(rs[i]);
    SliceOfBody(data, at, bytes);
    assert data[at + 78] == bytes[78] && data[at + 79] == bytes[79] && data[at + 80] == bytes[80];
    assert data[at + 81] == bytes[81] && data[at + 82] == bytes[82] && data[at + 83] == bytes[83];
    assert data[at + 84] == bytes[84] && data[at + 85] == bytes[85];
  }

  lemma AccountBytes(data: seq<Byte>, rs: seq<DocumentRecord>)
    requires ToBytes(RegistryState(rs)) == Some(data)
    ensures |rs| < 0x1_0000_0000 && 4 <= |data|
    ensures data[..4] == LeBytes(|rs|, 4) && data[4..] == EncodeRecords(rs)
  {
    hide LeBytes, EncodeRecords;
    assert |rs| < 0x1_0000_0000 && data == LeBytes(|rs|, 4) + EncodeRecords(rs);
  }

  lemma SliceOfBody(data: seq<Byte>, at: nat, record: seq<Byte>)
    requires |record| == RECORD_BYTES && 4 <= at && at + RECORD_BYTES <= |data|
    requires data[4..][at - 4..at - 4 + RECORD_BYTES] == record
    ensures data[at..at + 46] == record[..46] && data[at + 46..at + 78] == record[46..78]
    ensures forall k :: 0 <= k < 86 ==> data[at + k] == record[k]
  {
    assert data[at..at + 86] == record;
    assert record[..46] == data[at..at + 46] && record[46..78] == data[at + 46..at + 78];
  }

  lemma CountBytes(n: nat, count: seq<Byte>)
    requires count == LeBytes(n, 4) && n < 0x1_0000_0000
    ensures LittleEndian(count[0], count[1], count[2], count[3]) == n
  {
    var rest := LeBytes(n / 256, 3);
    var last := LeBytes(n / 256 / 256, 2);
    assert count[1] == rest[0] && count[2] == rest[1] && count[3] == rest[2];
    assert rest[1] == last[0] && rest[2] == last[1];
    assert last[1] == LeBytes(n / 256 / 256 / 256, 1)[0];
  }

  lemma RecordBytes(r: DocumentRecord)
    ensures
      var bytes := EncodeRecord(r);
      && bytes[..46] == r.cid && bytes[46..78] == r.metadataHash
      && LittleEndian(bytes[78], bytes[79], bytes[80], bytes[81])
         + 0x1_0000_0000 * LittleEndian(bytes[82], bytes[83], bytes[84], bytes[85]) == r.anchorTimestamp
  {
    var bytes, t := EncodeRecord(r), r.anchorTimestamp;
    assert bytes[78..] == LeBytes(t, 8);
    hide EncodeRecord;
    TimeBytes(t, bytes[78..]);
  }

  lemma TimeBytes(t: U64, bytes: seq<Byte>)
    requires bytes == LeBytes(t, 8)
    ensures LittleEndian(bytes[0], bytes[1], bytes[2], bytes[3])
            + 0x1_0000_0000 * LittleEndian(bytes[4], bytes[5], bytes[6], bytes[7]) == t
  {
    hide LeBytes, LittleEndian;
    var high := FourBytes(t, 8, bytes);
    var none := FourBytes(high, 4, bytes[4..]);
  }

  /** The first four bytes of a number, and the bytes of what is left of it. */
  lemma FourBytes(n: nat, width: nat, bytes: seq<Byte>) returns (high: nat)
    requires 4 <= width && bytes == LeBytes(n, width)
    ensures
      var low := LittleEndian(bytes[0], bytes[1], bytes[2], bytes[3]);
      0 <= low && low + 0x1_0000_0000 * high == n
    ensures bytes[4..] == LeBytes(high, width - 4)
  {
    var n1 := n / 256;
    var n2 := n1 / 256;
    var n3 := n2 / 256;
    high := n3 / 256;
    assert bytes[1..] == LeBytes(n1, width - 1);
    assert bytes[1..][1..] == LeBytes(n2, width - 2);
    assert bytes[1..][1..][1..] == LeBytes(n3, width - 3);
    assert bytes[1..][1..][1..][1..] == LeBytes(high, width - 4);
    assert bytes[4..] == bytes[1..][1..][1..][1..];
  }
}
