/**
  The indexer's on-chain membership test: it asks spel for the registry's records
  and compares hexadecimal text.
 */
module Inspect {
  import opened Types
  import opened Text
  import opened Borsh
  import opened Records
  import opened Registry
  import CidText

  datatype Membership = BadText | Known(found: bool)

  /** The printed keys of the account's records; an account that does not decode has none. */
  function PrintedKeys(data: seq<Byte>): seq<string> {
    match FromBytes(data)
    case None => []
    case Some(st) => seq(|st.records|, i requires 0 <= i < |st.records| => HexEncode(st.records[i].cid))
  }

  function IsAnchored(data: seq<Byte>, text: string): Membership {
    match CidText.DecodeCid(text)
    case None => BadText
    case Some(key) => Known(HexEncode(key) in PrintedKeys(data))
  }

  lemma SamePrint(a: Cid, b: Cid)
    ensures HexEncode(a) == HexEncode(b) <==> a == b
  {
    hide HexEncode, HexDecode;
    HexRoundTrip(a);
    HexRoundTrip(b);
  }

  /** On any account, comparing printed keys finds exactly what a query finds; what is no CID is an error. */
  lemma IsAnchoredExact(data: seq<Byte>, text: string)
    ensures IsAnchored(data, text).BadText? <==> CidText.DecodeCid(text).None?
    ensures IsAnchored(data, text).Known? ==>
      var answer := QueryByCid(data, CidText.DecodeCid(text).value);
      IsAnchored(data, text).found <==> answer.Answer? && answer.record.Some?
  {
    hide HexEncode, FromBytes, Find, CidText.DecodeCid;
    if CidText.DecodeCid(text).Some? && FromBytes(data).Some? {
      var key, records := CidText.DecodeCid(text).value, FromBytes(data).value.records;
      FindAppend(records, [], key);
      assert HexEncode(key) in PrintedKeys(data) <==> key in Keys(records) by {
        forall i | 0 <= i < |records| ensures PrintedKeys(data)[i] == HexEncode(key) <==> records[i].cid == key {
          SamePrint(records[i].cid, key);
        }
      }
    }
  }
}
