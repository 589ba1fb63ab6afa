/** The C-facing result: fixed NUL-terminated character buffers. */
module Ffi {
  import opened Types
  import Base58
  import CidText

  const CID_SLOTS := 64
  const ERROR_SLOTS := 256

  /** A signed C `char`. */
  type CChar = x: int | -128 <= x < 128

  function ToCChar(b: Byte): CChar {
    if b < 128 then b else b - 256
  }

  function FromCChar(c: CChar): Byte {
    if c < 0 then c + 256 else c
  }

  /** A zeroed buffer whose first `size - 1` slots take as much of `bytes` as fits. */
  function CBuffer(bytes: seq<Byte>, size: nat): (buffer: seq<CChar>)
    requires 0 < size
    ensures |buffer| == size && buffer[size - 1] == 0
  {
    var len := Min(|bytes|, size - 1);
    seq(size, i requires 0 <= i < size => if i < len then ToCChar(bytes[i]) else 0)
  }

  /** What a C caller reads: everything before the first NUL. */
  function ReadC(buffer: seq<CChar>): seq<Byte> {
    if buffer == [] || buffer[0] == 0 then [] else [FromCChar(buffer[0])] + ReadC(buffer[1..])
  }

  class IndexResult {
    const cid: array<CChar>
    const metadataHash: Hash
    const success: int
    const errorMsg: array<CChar>

    constructor Ok(text: seq<Byte>, hash: Hash)
      ensures fresh(cid) && fresh(errorMsg)
      ensures cid[..] == CBuffer(text, 64)
      ensures metadataHash == hash && success == 1
      ensures errorMsg[..] == CBuffer([], 256)
    {
      metadataHash := hash;
      success := 1;
      cid := new CChar[CID_SLOTS](_ => 0);
      errorMsg := new CChar[ERROR_SLOTS](_ => 0);
      new;
      Fill(cid, text);
    }

    constructor Err(message: seq<Byte>)
      ensures fresh(cid) && fresh(errorMsg)
      ensures errorMsg[..] == CBuffer(message, 256)
      ensures metadataHash == seq(32, _ => 0) && success == 0
      ensures cid[..] == CBuffer([], 64)
    {
      metadataHash := seq(HASH_BYTES, _ => 0);
      success := 0;
      cid := new CChar[CID_SLOTS](_ => 0);
      errorMsg := new CChar[ERROR_SLOTS](_ => 0);
      new;
      Fill(errorMsg, message);
    }
  }

  /** The copy loop both constructors share. */
  method Fill(slots: array<CChar>, bytes: seq<Byte>)
    requires 0 < slots.Length
    requires forall k :: 0 <= k < slots.Length ==> slots[k] == 0
    modifies slots
    ensures slots[..] == CBuffer(bytes, slots.Length)
  {
    var len := Min(|bytes|, slots.Length - 1);
    for i := 0 to len
      invariant forall k :: 0 <= k < i ==> slots[k] == ToCChar(bytes[k])
      invariant forall k :: i <= k < slots.Length ==> slots[k] == 0
    {
      slots[i] := ToCChar(bytes[i]);
    }
  }

  /** Slot by slot: the byte itself modulo 256, as far as it leaves the last slot free, and NUL from there on. */
  lemma BufferExact(bytes: seq<Byte>, size: nat, i: nat)
    requires i < size
    ensures (CBuffer(bytes, size)[i] as int) % 256 == if i < |bytes| && i + 1 < size then bytes[i] else 0
    ensures -128 <= CBuffer(bytes, size)[i] < 128
  {
  }

  /** The caller reads up to the first NUL of the text, or to the cut. */
  lemma {:induction false} ReadExact(bytes: seq<Byte>, size: nat)
    requires 0 < size
    ensures
      var n := |ReadC(CBuffer(bytes, size))|;
      && n <= |bytes| && n < size
      && ReadC(CBuffer(bytes, size)) == bytes[..n] && 0 !in bytes[..n]
      && (n + 1 == size || n == |bytes| || bytes[n] == 0)
  {
    if bytes != [] && 1 < size && bytes[0] != 0 {
      assert CBuffer(bytes, size)[1..] == CBuffer(bytes[1..], size - 1);
      ReadExact(bytes[1..], size - 1);
    }
  }

  /** The caller reads back a prefix, and the whole text exactly when it fits and has no NUL. */
  lemma ReadBackExact(bytes: seq<Byte>, size: nat)
    requires 0 < size
    ensures ReadC(CBuffer(bytes, size)) <= bytes
    ensures ReadC(CBuffer(bytes, size)) == bytes <==> |bytes| < size && 0 !in bytes
  {
    ReadPrefix(bytes, size);
  }

  lemma {:induction false} ReadPrefix(bytes: seq<Byte>, size: nat)
    requires 0 < size
    ensures ReadC(CBuffer(bytes, size)) <= bytes
    ensures |ReadC(CBuffer(bytes, size))| < size
    ensures 0 !in ReadC(CBuffer(bytes, size))
    ensures |bytes| < size && 0 !in bytes ==> ReadC(CBuffer(bytes, size)) == bytes
  {
    if bytes != [] && 1 < size && bytes[0] != 0 {
      assert CBuffer(bytes, size)[1..] == CBuffer(bytes[1..], size - 1);
      ReadPrefix(bytes[1..], size - 1);
    }
  }

  function Ascii(s: string): (bytes: seq<Byte>)
    requires Base58.IsBase58(s)
    ensures |bytes| == |s| && 0 !in bytes
  {
    seq(|s|, i requires 0 <= i < |s| => s[i] as int)
  }

  /** A CID the decoder accepts always reaches the C caller whole. */
  lemma AcceptedCidIsNeverCut(s: string)
    requires CidText.DecodeCid(s).Some?
    ensures Base58.IsBase58(s)
    ensures ReadC(CBuffer(Ascii(s), 64)) == Ascii(s)
  {
    CidText.AcceptedLength(s);
    ReadBackExact(Ascii(s), 64);
  }
}
