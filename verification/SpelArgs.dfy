/**
  The command line between the anchoring tools and spel: what is printed, and
  what the parser on the other side makes of it.
 */
module SpelArgs {
  import opened Types
  import opened Text
  import CidText

  /** A CID about to be submitted: its key, its envelope digest and its text. */
  datatype AnchorEntry = AnchorEntry(cid: Cid, hash: Hash, text: string)

  datatype Args = Args(cids: string, metas: string, times: string)

  /** The instruction arguments the guest program receives. */
  datatype SpelCall = SpelCall(cids: seq<seq<Byte>>, hashes: seq<Hash>, times: seq<U64>)

  // ----- printing -----

  function HexList(vectors: seq<seq<Byte>>): string {
    Join(HexParts(vectors), ',')
  }

  function HexParts(vectors: seq<seq<Byte>>): (parts: seq<string>)
    ensures |parts| == |vectors|
  {
    seq(|vectors|, i requires 0 <= i < |vectors| => HexEncode(vectors[i]))
  }

  function Cids(entries: seq<AnchorEntry>): (cids: seq<seq<Byte>>)
    ensures |cids| == |entries|
  {
    seq(|entries|, i requires 0 <= i < |entries| => entries[i].cid)
  }

  function Hashes(entries: seq<AnchorEntry>): (hashes: seq<Hash>)
    ensures |hashes| == |entries|
  {
    seq(|entries|, i requires 0 <= i < |entries| => entries[i].hash)
  }

  function PrintArgs(entries: seq<AnchorEntry>, timestamp: U64): Args {
    Args(HexList(Cids(entries)), HexList(Hashes(entries)),
         Join(seq(|entries|, _ => ToDecimal(timestamp)), ','))
  }

  // ----- parsing -----

  function StripHexPrefix(s: string): string {
    if 2 <= |s| && s[0] == '0' && (s[1] == 'x' || s[1] == 'X') then s[2..] else s
  }

  function ParsePart(part: string): Option<seq<Byte>> {
    HexDecode(StripHexPrefix(Trim(part)))
  }

  function Prepend(front: seq<seq<Byte>>, r: Result<seq<seq<Byte>>, nat>): Result<seq<seq<Byte>>, nat> {
    match r
    case Ok(rest) => Ok(front + rest)
    case Err(i) => Err(i)
  }

  lemma PrependNested(front: seq<seq<Byte>>, v: seq<Byte>, r: Result<seq<seq<Byte>>, nat>)
    ensures Prepend([], r) == r
    ensures Prepend(front, Ok([])) == Ok(front)
    ensures Prepend(front, Prepend([v], r)) == Prepend(front + [v], r)
  {
    assert front + [] == front;
    if r.Ok? {
      assert [] + r.value == r.value;
      assert front + ([v] + r.value) == front + [v] + r.value;
    }
  }

  /** All parts decoded, or the index of the first part that does not decode. */
  function ParseParts(parts: seq<string>, from: nat): Result<seq<seq<Byte>>, nat>
    requires from <= |parts|
    decreases |parts| - from
  {
    if from == |parts| then Ok([])
    else if ParsePart(parts[from]).None? then Err(from)
    else Prepend([ParsePart(parts[from]).value], ParseParts(parts, from + 1))
  }

  function ParsedVec(raw: string): Result<seq<seq<Byte>>, nat> {
    if raw == "" then Ok([]) else ParseParts(Split(raw, ','), 0)
  }

  /** The comma-separated parts; the empty text has none. */
  function Parts(raw: string): seq<string> {
    if raw == "" then [] else Split(raw, ',')
  }

  /** The printed bytes, in either case, after an optional `0x` or `0X`. */
  ghost predicate SpellsBytes(text: string, bytes: seq<Byte>, prefix: string) {
    && prefix in {"", "0x", "0X"} && prefix <= text
    && Lower(text[|prefix|..]) == HexEncode(bytes)
  }

  /** A part decodes to some bytes exactly when its trimmed text spells them with or without a prefix. */
  lemma PartExact(part: string, text: string, bytes: seq<Byte>)
    requires text == Trim(part)
    ensures ParsePart(part) == Some(bytes) <==> exists prefix :: SpellsBytes(text, bytes, prefix)
  {
    TrimmedExact(text, bytes);
  }

  lemma TrimmedExact(text: string, bytes: seq<Byte>)
    ensures HexDecode(StripHexPrefix(text)) == Some(bytes) <==> exists prefix :: SpellsBytes(text, bytes, prefix)
  {
    hide HexDecode, HexEncode, Lower;
    var stripped := StripHexPrefix(text);
    var taken := text[..|text| - |stripped|];
    StripExact(text);
    HexReadsExactly(stripped, bytes);
    if HexDecode(stripped) == Some(bytes) {
      assert SpellsBytes(text, bytes, taken);
    }
    if taken != "" {
      NoPrefixInHex(text, bytes);
    }
    assert text[0..] == text;
    if prefix :| SpellsBytes(text, bytes, prefix) {
      assert prefix == text[..|prefix|] && prefix == taken;
      assert text[|prefix|..] == stripped;
    }
  }

  lemma StripExact(text: string)
    ensures
      var stripped := StripHexPrefix(text);
      && |stripped| <= |text| && stripped == text[|text| - |stripped|..]
      && var taken := text[..|text| - |stripped|];
         taken in {"", "0x", "0X"} && (taken == "" <==> !("0x" <= text) && !("0X" <= text))
  {
    var stripped := StripHexPrefix(text);
    if stripped == text {
      assert text[..0] == "";
    } else {
      assert text[..2] == [text[0], text[1]];
      assert text[..2] == "0x" || text[..2] == "0X";
    }
  }

  /** What is printed never starts with a prefix. */
  lemma NoPrefixInHex(text: string, bytes: seq<Byte>)
    requires "0x" <= text || "0X" <= text
    ensures Lower(text) != HexEncode(bytes)
  {
    HexRoundTrip(bytes);
    assert Lower(text)[1] == 'x' || Lower(text)[1] == 'X';
  }

  predicate FirstBad(parts: seq<string>, from: nat, i: nat) {
    from <= i < |parts| && ParsePart(parts[i]).None? && forall k :: from <= k < i ==> ParsePart(parts[k]).Some?
  }

  predicate AllDecoded(parts: seq<string>, vs: seq<seq<Byte>>) {
    |vs| == |parts| && forall k :: 0 <= k < |vs| ==> ParsePart(parts[k]) == Some(vs[k])
  }

  lemma {:induction false} PartsOutcome(parts: seq<string>, from: nat)
    requires from <= |parts|
    ensures
      match ParseParts(parts, from)
      case Ok(vs) => AllDecoded(parts[from..], vs)
      case Err(i) => FirstBad(parts, from, i)
    decreases |parts| - from
  {
    if from < |parts| && ParsePart(parts[from]).Some? {
      PartsOutcome(parts, from + 1);
      assert parts[from..] == [parts[from]] + parts[from + 1..];
    }
  }

  /** A text parses to the list of its decoded parts, or fails with the index of the first part that does not decode. */
  lemma ParsedVecExact(raw: string, vs: seq<seq<Byte>>, i: nat)
    ensures ParsedVec(raw) == Ok(vs) <==> AllDecoded(Parts(raw), vs)
    ensures ParsedVec(raw) == Err(i) <==> FirstBad(Parts(raw), 0, i)
  {
    hide ParsePart, ParseParts, Split;
    var parts := Parts(raw);
    assert ParsedVec(raw) == ParseParts(parts, 0) by {
      NoParts([]);
    }
    PartsOutcome(parts, 0);
    assert parts[0..] == parts;
    match ParsedVec(raw)
    case Ok(ws) =>
      if AllDecoded(parts, vs) {
        assert forall k :: 0 <= k < |vs| ==> Some(vs[k]) == Some(ws[k]);
        assert vs == ws;
      }
    case Err(j) =>
  }

  lemma NoParts(parts: seq<string>)
    requires parts == []
    ensures ParseParts(parts, 0) == Ok([])
  {
  }

  /** The parser arm for a list of byte vectors. */
  method ParseVec(raw: string) returns (r: Result<seq<seq<Byte>>, nat>)
    ensures r == ParsedVec(raw)
  {
    if raw == "" {
      return Ok([]);
    }
    var parts := Split(raw, ',');
    var result := [];
    PrependNested([], [], ParseParts(parts, 0));
    for i := 0 to |parts|
      invariant ParsedVec(raw) == Prepend(result, ParseParts(parts, i))
    {
      var bytes := HexDecode(StripHexPrefix(Trim(parts[i])));
      if bytes.None? {
        return Err(i);
      }
      PrependNested(result, bytes.value, ParseParts(parts, i + 1));
      result := result + [bytes.value];
    }
    PrependNested(result, [], Ok([]));
    return Ok(result);
  }

  function ParseHashes(raw: string): Option<seq<Hash>> {
    match ParsedVec(raw)
    case Ok(vs) => if forall i :: 0 <= i < |vs| ==> |vs[i]| == HASH_BYTES then Some(vs) else None
    case Err(_) => None
  }

  function ParseTimes(parts: seq<string>): Option<seq<U64>> {
    if parts == [] then Some([])
    else
      var first, rest := ParseU64(Trim(parts[0])), ParseTimes(parts[1..]);
      if first.Some? && rest.Some? then Some([first.value] + rest.value) else None
  }

  /** Timestamps are read part by part, each as a trimmed decimal number. */
  lemma {:induction false} TimesExact(parts: seq<string>, times: seq<U64>)
    ensures ParseTimes(parts) == Some(times) <==>
      |times| == |parts| && forall i :: 0 <= i < |parts| ==> ParseU64(Trim(parts[i])) == Some(times[i])
  {
    hide ParseU64, Trim;
    if parts != [] && times != [] {
      TimesExact(parts[1..], times[1..]);
      assert times == [times[0]] + times[1..];
      assert forall i :: 1 <= i < |parts| ==> parts[i] == parts[1..][i - 1];
      assert forall i :: 1 <= i < |times| ==> times[i] == times[1..][i - 1];
      if ParseTimes(parts) == Some(times) {
        assert ParseTimes(parts).value[1..] == ParseTimes(parts[1..]).value;
      }
    }
  }

  function ReadArgs(args: Args): Option<SpelCall> {
    var cids, hashes, times := ParsedVec(args.cids), ParseHashes(args.metas), ParseTimes(Split(args.times, ','));
    if cids.Ok? && hashes.Some? && times.Some? then Some(SpelCall(cids.value, hashes.value, times.value))
    else None
  }

  // ----- round trips -----

  lemma NothingToTrim(s: string)
    requires forall i :: 0 <= i < |s| ==> !IsWhiteSpace(s[i])
    ensures Trim(s) == s
  {
  }

  lemma HexPartReads(v: seq<Byte>)
    ensures ParsePart(HexEncode(v)) == Some(v)
    ensures ',' !in HexEncode(v)
    ensures HexEncode(v) == "" <==> v == []
  {
    hide HexEncode, HexDecode;
    HexRoundTrip(v);
    NothingToTrim(HexEncode(v));
  }

  lemma {:induction false} PartsRead(vectors: seq<seq<Byte>>, from: nat)
    requires from <= |vectors|
    ensures ParseParts(HexParts(vectors), from) == Ok(vectors[from..])
    decreases |vectors| - from
  {
    if from < |vectors| {
      PartsRead(vectors, from + 1);
      HexPartReads(vectors[from]);
      assert vectors[from..] == [vectors[from]] + vectors[from + 1..];
    } else {
      assert vectors[from..] == [];
    }
  }

  /** Reading back a printed list of byte vectors fails for one list only: a single empty vector. */
  lemma HexListRoundTrip(vectors: seq<seq<Byte>>)
    ensures ParsedVec(HexList(vectors)) == Ok(vectors) <==> vectors != [[]]
  {
    var parts := HexParts(vectors);
    if vectors == [] || vectors == [[]] {
      HexPartReads([]);
    } else {
      forall i | 0 <= i < |parts| ensures ',' !in parts[i] {
        HexPartReads(vectors[i]);
      }
      HexPartReads(vectors[0]);
      SplitOfJoin(parts, ',');
      PartsRead(vectors, 0);
    }
  }

  lemma {:induction false} TimesRead(n: nat, t: U64)
    ensures ParseTimes(seq(n, _ => ToDecimal(t))) == Some(seq(n, _ => t))
  {
    if n != 0 {
      TimesRead(n - 1, t);
      DecimalRoundTrip(t);
      NothingToTrim(ToDecimal(t));
      var parts := seq(n, _ => ToDecimal(t));
      assert parts[1..] == seq(n - 1, _ => ToDecimal(t));
      assert ParseTimes(parts) == Some([t] + seq(n - 1, _ => t));
      assert [t] + seq(n - 1, _ => t) == seq(n, _ => t);
    } else {
      assert seq(n, _ => t) == [];
    }
  }

  /** The guest receives the entries the tool printed: same keys, same digests, aligned. */
  lemma ArgsRoundTrip(entries: seq<AnchorEntry>, timestamp: U64)
    requires entries != []
    ensures ReadArgs(PrintArgs(entries, timestamp))
         == Some(SpelCall(Cids(entries), Hashes(entries), seq(|entries|, _ => timestamp)))
  {
    hide ParsedVec, HexList, Split, Join, ToDecimal, ParseTimes;
    HexListRoundTrip(Cids(entries));
    assert Cids(entries)[0] != [];
    HexListRoundTrip(Hashes(entries));
    assert Hashes(entries)[0] != [];
    TimesRoundTrip(|entries|, timestamp);
  }

  lemma TimesRoundTrip(n: nat, t: U64)
    requires n != 0
    ensures ParseTimes(Split(Join(seq(n, _ => ToDecimal(t)), ','), ',')) == Some(seq(n, _ => t))
  {
    DecimalRoundTrip(t);
    SplitOfJoin(seq(n, _ => ToDecimal(t)), ',');
    TimesRead(n, t);
  }

  // ----- the indexer's own submission -----

  datatype IndexerCall = NoOp | TooLarge | BadCid | Submit(args: Args)

  /** The keys of a list of CID texts, unless one of them does not decode. */
  function DecodeAll(texts: seq<string>): Option<seq<Cid>> {
    if texts == [] then Some([])
    else
      var first, rest := CidText.DecodeCid(texts[0]), DecodeAll(texts[1..]);
      if first.Some? && rest.Some? then Some([first.value] + rest.value) else None
  }

  function IndexerAnchorBatch(texts: seq<string>, hashes: seq<Hash>, timestamp: U64): IndexerCall
    requires |texts| == |hashes|
  {
    if texts == [] then NoOp
    else if MAX_BATCH_SIZE < |texts| then TooLarge
    else
      match DecodeAll(texts)
      case None => BadCid
      case Some(keys) => Submit(Args(HexList(keys), HexList(hashes),
                                     Join(seq(|texts|, _ => ToDecimal(timestamp)), ',')))
  }

  /** The answers without a submission: nothing to do, too large, or a CID that does not decode. */
  lemma IndexerRefusesExactly(texts: seq<string>, hashes: seq<Hash>, timestamp: U64)
    requires |texts| == |hashes|
    ensures
      var call := IndexerAnchorBatch(texts, hashes, timestamp);
      && (call.NoOp? <==> texts == [])
      && (call.TooLarge? <==> 50 < |texts|)
      && (call.BadCid? <==> 0 < |texts| <= 50 && exists i :: 0 <= i < |texts| && CidText.DecodeCid(texts[i]).None?)
  {
    DecodeAllExact(texts);
  }

  /** The indexer submits exactly the batches that are non-empty, small enough and all decodable. */
  lemma IndexerSubmitsExactly(texts: seq<string>, hashes: seq<Hash>, timestamp: U64)
    requires |texts| == |hashes|
    ensures IndexerAnchorBatch(texts, hashes, timestamp).Submit?
       <==> 0 < |texts| <= MAX_BATCH_SIZE && forall i :: 0 <= i < |texts| ==> CidText.DecodeCid(texts[i]).Some?
    ensures IndexerAnchorBatch(texts, hashes, timestamp).Submit? ==>
      var call := ReadArgs(IndexerAnchorBatch(texts, hashes, timestamp).args);
      && call.Some? && call.value.hashes == hashes && |call.value.cids| == |texts|
      && call.value.times == seq(|texts|, _ => timestamp)
      && forall i :: 0 <= i < |texts| ==> CidText.DecodeCid(texts[i]) == Some(call.value.cids[i])
  {
    DecodeAllExact(texts);
    if IndexerAnchorBatch(texts, hashes, timestamp).Submit? {
      var keys := DecodeAll(texts).value;
      var entries := seq(|texts|, i requires 0 <= i < |texts| => AnchorEntry(keys[i], hashes[i], texts[i]));
      assert Cids(entries) == keys && Hashes(entries) == hashes;
      assert seq(|entries|, _ => ToDecimal(timestamp)) == seq(|texts|, _ => ToDecimal(timestamp));
      ArgsRoundTrip(entries, timestamp);
    }
  }

  lemma {:induction false} DecodeAllExact(texts: seq<string>)
    ensures DecodeAll(texts).Some? <==> forall i :: 0 <= i < |texts| ==> CidText.DecodeCid(texts[i]).Some?
    ensures DecodeAll(texts).Some? ==>
      && |DecodeAll(texts).value| == |texts|
      && forall i :: 0 <= i < |texts| ==> CidText.DecodeCid(texts[i]) == Some(DecodeAll(texts).value[i])
  {
    if texts != [] {
      DecodeAllExact(texts[1..]);
      assert forall i :: 1 <= i < |texts| ==> texts[i] == texts[1..][i - 1];
    }
  }
}
