/** The reference registry: the pure batch transition and the account calls of the library crate. */
module Registry {
  import opened Types
  import opened Borsh
  import opened Records

  const ERR_BATCH_TOO_LARGE := 4001
  const ERR_INVALID_CID := 4002

  datatype Entry = Entry(cid: seq<Byte>, metadataHash: Hash, timestamp: U64)

  predicate AllKeyed(es: seq<Entry>) {
    forall i :: 0 <= i < |es| ==> |es[i].cid| == CID_BYTES
  }

  function ToRecords(es: seq<Entry>): (rs: seq<DocumentRecord>)
    requires AllKeyed(es)
    ensures |rs| == |es|
  {
    seq(|es|, i requires 0 <= i < |es| => DocumentRecord(es[i].cid, es[i].metadataHash, es[i].timestamp))
  }

  function Applied(st: RegistryState, es: seq<Entry>): Result<RegistryState, nat> {
    if MAX_BATCH_SIZE < |es| then Err(ERR_BATCH_TOO_LARGE)
    else if !AllKeyed(es) then Err(ERR_INVALID_CID)
    else Ok(RegistryState(Extend(st.records, ToRecords(es))))
  }

  /** The transition as the crate runs it, with a set of seen keys kept beside the list. */
  method ApplyAnchor(st: RegistryState, es: seq<Entry>) returns (r: Result<RegistryState, nat>)
    ensures r == Applied(st, es)
  {
    if MAX_BATCH_SIZE < |es| {
      return Err(ERR_BATCH_TOO_LARGE);
    }
    var records := st.records;
    var seen := Keys(records);
    for i := 0 to |es|
      invariant seen == Keys(records)
      invariant AllKeyed(es[..i])
      invariant records == Extend(st.records, ToRecords(es[..i]))
    {
      if |es[i].cid| != CID_BYTES {
        return Err(ERR_INVALID_CID);
      }
      var record := DocumentRecord(es[i].cid, es[i].metadataHash, es[i].timestamp);
      assert es[..i + 1] == es[..i] + [es[i]];
      assert ToRecords(es[..i + 1]) == ToRecords(es[..i]) + [record];
      ExtendLast(st.records, ToRecords(es[..i]), record);
      if record.cid !in seen {
        KeysAppend(records, [record]);
        KeysOne(record);
        seen := seen + {record.cid};
        records := records + [record];
      }
    }
    assert es[..|es|] == es;
    return Ok(RegistryState(records));
  }

  /** Which batches are refused, and with which code. */
  lemma AppliedExact(st: RegistryState, es: seq<Entry>)
    ensures Applied(st, es) == Err(4001) <==> 50 < |es|
    ensures Applied(st, es) == Err(4002) <==> |es| <= 50 && exists i :: 0 <= i < |es| && |es[i].cid| != 46
    ensures Applied(st, es).Err? ==> Applied(st, es).error == 4001 || Applied(st, es).error == 4002
  {
  }

  /** What a successful batch does, without reference to the order it is processed in. */
  lemma AppliedFacts(st: RegistryState, es: seq<Entry>)
    requires Applied(st, es).Ok?
    ensures var records := Applied(st, es).value.records;
      && st.records <= records
      && Keys(records) == Keys(st.records) + Keys(ToRecords(es))
      && |records| == |st.records| + |Keys(ToRecords(es)) - Keys(st.records)|
      && (Distinct(st.records) ==> Distinct(records) && records == KeepFirst(st.records + ToRecords(es)))
  {
    ExtendFacts(st.records, ToRecords(es));
    ExtendCount(st.records, ToRecords(es));
    KeepFirstDistinct(st.records);
    KeepFirstAppend(st.records, ToRecords(es));
  }

  // ----- histories of batches -----

  function Flatten(batches: seq<seq<Entry>>): seq<Entry> {
    if batches == [] then [] else batches[0] + Flatten(batches[1..])
  }

  /** Applies batches in turn and stops at the first one that is refused. */
  function Fold(st: RegistryState, batches: seq<seq<Entry>>): Result<RegistryState, nat>
    decreases |batches|
  {
    if batches == [] then Ok(st)
    else
      match Applied(st, batches[0])
      case Err(e) => Err(e)
      case Ok(next) => Fold(next, batches[1..])
  }

  /** Applies batches in turn; a refused one leaves the state as it was. */
  function History(st: RegistryState, batches: seq<seq<Entry>>): RegistryState
    decreases |batches|
  {
    if batches == [] then st
    else History(match Applied(st, batches[0]) case Ok(next) => next case Err(_) => st, batches[1..])
  }

  lemma {:induction false} FoldIsExtend(st: RegistryState, batches: seq<seq<Entry>>)
    requires AllKeyed(Flatten(batches))
    requires forall k :: 0 <= k < |batches| ==> |batches[k]| <= MAX_BATCH_SIZE
    ensures Fold(st, batches) == Ok(RegistryState(Extend(st.records, ToRecords(Flatten(batches)))))
    decreases |batches|
  {
    if batches != [] {
      var head, tail := batches[0], Flatten(batches[1..]);
      var all := Flatten(batches);
      assert all[..|head|] == head && all[|head|..] == tail;
      assert AllKeyed(head) by {
        assert forall i :: 0 <= i < |head| ==> head[i] == all[i];
      }
      assert AllKeyed(tail) by {
        assert forall i :: 0 <= i < |tail| ==> tail[i] == all[|head| + i];
      }
      assert ToRecords(all) == ToRecords(head) + ToRecords(tail);
      ExtendSplit(st.records, ToRecords(head), ToRecords(tail));
      FoldIsExtend(Applied(st, head).value, batches[1..]);
    }
  }

  /** A series of batches goes through exactly when none of them is oversized or has a wrong CID length. */
  lemma {:induction false} FoldExact(st: RegistryState, batches: seq<seq<Entry>>)
    ensures Fold(st, batches).Ok?
       <==> forall k :: 0 <= k < |batches| ==> |batches[k]| <= 50 && AllKeyed(batches[k])
    decreases |batches|
  {
    if batches != [] {
      AppliedExact(st, batches[0]);
      if Applied(st, batches[0]).Ok? {
        FoldExact(Applied(st, batches[0]).value, batches[1..]);
        assert forall k :: 1 <= k < |batches| ==> batches[k] == batches[1..][k - 1];
      }
    }
  }

  /** How a stream is cut into batches does not matter: the first entry of every key survives. */
  lemma BatchingDoesNotMatter(batches: seq<seq<Entry>>)
    requires AllKeyed(Flatten(batches))
    requires forall k :: 0 <= k < |batches| ==> |batches[k]| <= MAX_BATCH_SIZE
    ensures Fold(RegistryState([]), batches) == Ok(RegistryState(KeepFirst(ToRecords(Flatten(batches)))))
  {
    FoldIsExtend(RegistryState([]), batches);
    KeepFirstAppend([], ToRecords(Flatten(batches)));
    assert [] + ToRecords(Flatten(batches)) == ToRecords(Flatten(batches));
  }

  lemma FindStable(rs: seq<DocumentRecord>, more: seq<DocumentRecord>, cid: Cid)
    requires rs <= more
    ensures Find(rs, cid).Some? ==> Find(more, cid) == Find(rs, cid)
  {
    FindAppend(rs, more[|rs|..], cid);
    assert more == rs + more[|rs|..];
  }

  /** The first writer wins forever, whatever batches follow and whether or not they are refused. */
  lemma {:induction false} HistoryPermanent(st: RegistryState, batches: seq<seq<Entry>>, cid: Cid)
    ensures st.records <= History(st, batches).records
    ensures Find(st.records, cid).Some? ==> Find(History(st, batches).records, cid) == Find(st.records, cid)
    decreases |batches|
  {
    if batches != [] {
      var next := match Applied(st, batches[0]) case Ok(next) => next case Err(_) => st;
      if Applied(st, batches[0]).Ok? {
        ExtendFacts(st.records, ToRecords(batches[0]));
      }
      FindStable(st.records, next.records, cid);
      HistoryPermanent(next, batches[1..], cid);
    }
  }

  // ----- the account calls -----

  datatype QueryResult = Undecodable | Answer(record: Option<DocumentRecord>)

  function QueryByCid(data: seq<Byte>, cid: Cid): QueryResult {
    match FromBytes(data)
    case None => Undecodable
    case Some(st) => Answer(Find(st.records, cid))
  }

  /** A query answers with the first record of the key, and fails only on data that does not decode. */
  lemma QueryExact(data: seq<Byte>, cid: Cid, r: DocumentRecord)
    ensures QueryByCid(data, cid).Undecodable? <==> FromBytes(data).None?
    ensures QueryByCid(data, cid) == Answer(Some(r)) <==>
      FromBytes(data).Some? && r.cid == cid && IsFirst(FromBytes(data).value.records, r)
    ensures QueryByCid(data, cid) == Answer(None) <==>
      FromBytes(data).Some? && cid !in Keys(FromBytes(data).value.records)
  {
    if FromBytes(data).Some? {
      FindFirst(FromBytes(data).value.records, cid, r);
      FindAppend(FromBytes(data).value.records, [], cid);
    }
  }

  datatype LibOutcome = Posted(data: seq<Byte>) | Refused(code: nat) | TooBig | Aborted

  function LibAnchorBatch(data: seq<Byte>, es: seq<Entry>, dataLimit: nat): LibOutcome {
    match FromBytes(data)
    case None => Aborted
    case Some(st) =>
      match Applied(st, es)
      case Err(code) => Refused(code)
      case Ok(next) =>
        match ToBytes(next)
        case None => TooBig
        case Some(bytes) => if |bytes| <= dataLimit then Posted(bytes) else TooBig
  }

  /** When the library call aborts, refuses, finds the result too big, or posts. */
  lemma LibOutcomeExact(data: seq<Byte>, es: seq<Entry>, dataLimit: nat)
    ensures
      var r := LibAnchorBatch(data, es, dataLimit);
      && (r.Aborted? <==> FromBytes(data).None?)
      && (r.Refused? ==> r.code == 4001 || r.code == 4002)
      && (r == Refused(4001) <==> FromBytes(data).Some? && 50 < |es|)
      && (r == Refused(4002) <==>
            FromBytes(data).Some? && |es| <= 50 && exists i :: 0 <= i < |es| && |es[i].cid| != 46)
    ensures FromBytes(data).Some? && |es| <= 50 && AllKeyed(es) ==>
      var rs := FromBytes(data).value.records;
      var size := |rs| + |Keys(ToRecords(es)) - Keys(rs)|;
      (LibAnchorBatch(data, es, dataLimit).Posted? <==> size < 0x1_0000_0000 && 4 + 86 * size <= dataLimit)
  {
    if FromBytes(data).Some? {
      var st := FromBytes(data).value;
      AppliedExact(st, es);
      if Applied(st, es).Ok? {
        hide Applied, FromBytes, ToBytes;
        AppliedFacts(st, es);
        SerialisesExactly(Applied(st, es).value);
      }
    }
  }

  /** After a posted batch earlier answers are unchanged, and every other key is answered with its first entry. */
  lemma PostedAnswers(data: seq<Byte>, es: seq<Entry>, dataLimit: nat, cid: Cid)
    requires LibAnchorBatch(data, es, dataLimit).Posted?
    ensures AllKeyed(es)
    ensures
      var before, after := QueryByCid(data, cid), QueryByCid(LibAnchorBatch(data, es, dataLimit).data, cid);
      && before.Answer?
      && after == (if before.record.Some? then before else Answer(Find(ToRecords(es), cid)))
      && (after.record.Some? <==> before.record.Some? || exists i :: 0 <= i < |es| && es[i].cid == cid)
  {
    var st := FromBytes(data).value;
    var next, rs := Applied(st, es).value, ToRecords(es);
    AccountCodec(next, LibAnchorBatch(data, es, dataLimit).data);
    ExtendFind(st.records, rs, cid);
    FindAppend(st.records, [], cid);
    FindAppend(rs, [], cid);
    if cid in Keys(rs) {
      var i :| 0 <= i < |rs| && rs[i].cid == cid;
      assert es[i].cid == cid;
    }
    if i :| 0 <= i < |es| && es[i].cid == cid {
      assert rs[i].cid in Keys(rs);
    }
  }
}
