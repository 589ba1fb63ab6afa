/** Value types shared by every module: results, machine integers, keys and digests. */
module Types {

  datatype Option<+T> = None | Some(value: T)

  datatype Result<+T, +E> = Ok(value: T) | Err(error: E)

  const CID_BYTES := 46
  const HASH_BYTES := 32
  const MAX_BATCH_SIZE := 50

  type Byte = x: int | 0 <= x < 256

  type U64 = x: int | 0 <= x < 0x1_0000_0000_0000_0000

  /** A registry key: exactly 46 bytes. */
  type Cid = s: seq<Byte> | |s| == CID_BYTES ghost witness seq(CID_BYTES, _ => 0)

  /** A SHA-256 digest; the hash function itself stays outside the model. */
  type Hash = s: seq<Byte> | |s| == HASH_BYTES ghost witness seq(HASH_BYTES, _ => 0)

  /** One anchored document, as stored on chain. */
  datatype DocumentRecord = DocumentRecord(cid: Cid, metadataHash: Hash, anchorTimestamp: U64)

  function Min(a: nat, b: nat): nat {
    if a <= b then a else b
  }

  lemma {:induction false} UnusedId(ids: set<nat>) returns (n: nat)
    ensures n !in ids && forall id :: id in ids ==> id < n
  {
    if ids == {} {
      n := 0;
    } else {
      var id :| id in ids;
      var m := UnusedId(ids - {id});
      n := if m <= id then id + 1 else m;
      assert forall other :: other in ids ==> other == id || other in ids - {id};
    }
  }
}
