/**
  The deployed guest program: the second implementation of the transition, over
  parallel argument lists and the serialised account.
 */
module Guest {
  import opened Types
  import opened Borsh
  import opened Records
  import opened Registry
  import opened SpelArgs

  datatype TxOutcome =
    | Committed(data: seq<Byte>)
    | Rejected(code: nat)
    | SerializationFailed
    | Panicked

  datatype Collected = Fresh(records: seq<DocumentRecord>) | WrongLength | OutOfRange

  function Push(record: DocumentRecord, c: Collected): Collected {
    if c.Fresh? then Fresh([record] + c.records) else c
  }

  /** The records positions `i` and up append, against a key set fixed before the loop. */
  function Collect(known: set<Cid>, call: SpelCall, i: nat): Collected
    requires i <= |call.cids|
    decreases |call.cids| - i
  {
    if i == |call.cids| then Fresh([])
    else if |call.cids[i]| != CID_BYTES then WrongLength
    else if call.cids[i] in known then Collect(known, call, i + 1)
    else if |call.hashes| <= i || |call.times| <= i then OutOfRange
    else Push(DocumentRecord(call.cids[i], call.hashes[i], call.times[i]), Collect(known, call, i + 1))
  }

  function Store(st: RegistryState, dataLimit: nat): TxOutcome {
    match ToBytes(st)
    case None => SerializationFailed
    case Some(bytes) => if |bytes| <= dataLimit then Committed(bytes) else SerializationFailed
  }

  function Transact(data: seq<Byte>, call: SpelCall, dataLimit: nat): TxOutcome {
    if MAX_BATCH_SIZE < |call.cids| then Rejected(ERR_BATCH_TOO_LARGE)
    else
      match FromBytes(data)
      case None => Rejected(ERR_BATCH_TOO_LARGE)
      case Some(st) =>
        match Collect(Keys(st.records), call, 0)
        case WrongLength => Rejected(ERR_INVALID_CID)
        case OutOfRange => Panicked
        case Fresh(records) => Store(RegistryState(st.records + records), dataLimit)
  }

  class RegistryAccount {
    var data: seq<Byte>

    constructor ()
      ensures data == []
    {
      data := [];
    }

    /** Writes the empty registry. */
    method Initialize(dataLimit: nat) returns (r: TxOutcome)
      modifies this
      ensures r == Store(RegistryState([]), dataLimit)
      ensures data == if r.Committed? then r.data else old(data)
    {
      var bytes := ToBytes(RegistryState([]));
      if bytes.None? || dataLimit < |bytes.value| {
        return SerializationFailed;
      }
      data := bytes.value;
      return Committed(data);
    }

    method AnchorBatch(call: SpelCall, dataLimit: nat) returns (r: TxOutcome)
      modifies this
      ensures r == Transact(old(data), call, dataLimit)
      ensures data == if r.Committed? then r.data else old(data)
    {
      if MAX_BATCH_SIZE < |call.cids| {
        return Rejected(ERR_BATCH_TOO_LARGE);
      }
      var decoded := FromBytes(data);
      if decoded.None? {
        return Rejected(ERR_BATCH_TOO_LARGE);
      }
      var records := decoded.value.records;
      var existing := Keys(records);
      ghost var added := [];
      for i := 0 to |call.cids|
        invariant data == old(data)
        invariant records == decoded.value.records + added
        invariant Collect(existing, call, 0) == PushAll(added, Collect(existing, call, i))
      {
        if |call.cids[i]| != CID_BYTES {
          return Rejected(ERR_INVALID_CID);
        }
        if call.cids[i] !in existing {
          if |call.hashes| <= i || |call.times| <= i {
            return Panicked;
          }
          var record := DocumentRecord(call.cids[i], call.hashes[i], call.times[i]);
          PushAllLast(added, record, Collect(existing, call, i + 1));
          records := records + [record];
          added := added + [record];
        }
      }
      assert added + [] == added;
      var bytes := ToBytes(RegistryState(records));
      if bytes.None? || dataLimit < |bytes.value| {
        return SerializationFailed;
      }
      data := bytes.value;
      return Committed(data);
    }
  }

  ghost function PushAll(front: seq<DocumentRecord>, c: Collected): Collected {
    if c.Fresh? then Fresh(front + c.records) else c
  }

  lemma PushAllLast(front: seq<DocumentRecord>, record: DocumentRecord, c: Collected)
    ensures PushAll(front, Push(record, c)) == PushAll(front + [record], c)
  {
    if c.Fresh? {
      assert front + ([record] + c.records) == front + [record] + c.records;
    }
  }

  // ----- exact outcome -----

  /** Position `i` holds a key and, unless that key is already registered, has its hash and timestamp. */
  predicate Good(known: set<Cid>, call: SpelCall, i: nat)
    requires i < |call.cids|
  {
    |call.cids[i]| == CID_BYTES && (call.cids[i] in known || (i < |call.hashes| && i < |call.times|))
  }

  /** The positions, from `at` on, whose key is not registered. */
  function NewPositions(known: set<Cid>, cids: seq<seq<Byte>>, at: nat): set<nat> {
    set i: nat | at <= i < |cids| && cids[i] !in known
  }

  lemma {:induction false} CollectFreshExact(known: set<Cid>, call: SpelCall, i: nat)
    requires i <= |call.cids|
    ensures Collect(known, call, i).Fresh? <==> forall j :: i <= j < |call.cids| ==> Good(known, call, j)
    decreases |call.cids| - i
  {
    if i < |call.cids| {
      CollectFreshExact(known, call, i + 1);
      assert Collect(known, call, i).Fresh? <==> Good(known, call, i) && Collect(known, call, i + 1).Fresh?;
    }
  }

  /** A position of the wrong length with only good positions before it. */
  predicate FirstShort(known: set<Cid>, call: SpelCall, from: nat, j: nat) {
    from <= j < |call.cids| && |call.cids[j]| != CID_BYTES && forall k :: from <= k < j ==> Good(known, call, k)
  }

  lemma {:induction false} CollectWrongLengthExact(known: set<Cid>, call: SpelCall, i: nat)
    requires i <= |call.cids|
    ensures Collect(known, call, i).WrongLength? <==> exists j: nat :: FirstShort(known, call, i, j)
    decreases |call.cids| - i
  {
    if i < |call.cids| {
      CollectWrongLengthExact(known, call, i + 1);
      if |call.cids[i]| != CID_BYTES {
        assert FirstShort(known, call, i, i);
      } else if Good(known, call, i) {
        FirstShortLater(known, call, i, i + 1);
        assert Collect(known, call, i).WrongLength? <==> Collect(known, call, i + 1).WrongLength?;
      } else {
        NoFirstShort(known, call, i);
      }
    }
  }

  lemma FirstShortLater(known: set<Cid>, call: SpelCall, i: nat, next: nat)
    requires i < |call.cids| && Good(known, call, i) && next == i + 1
    ensures (exists j: nat :: FirstShort(known, call, i, j)) <==> (exists j: nat :: FirstShort(known, call, next, j))
  {
    if j: nat :| FirstShort(known, call, i, j) {
      assert FirstShort(known, call, next, j);
    }
    if j: nat :| FirstShort(known, call, next, j) {
      assert FirstShort(known, call, i, j);
    }
  }

  lemma NoFirstShort(known: set<Cid>, call: SpelCall, i: nat)
    requires i < |call.cids| && !Good(known, call, i) && |call.cids[i]| == CID_BYTES
    ensures !exists j: nat :: FirstShort(known, call, i, j)
  {
  }

  lemma {:induction false} CollectCount(known: set<Cid>, call: SpelCall, i: nat)
    requires i <= |call.cids| && Collect(known, call, i).Fresh?
    ensures |Collect(known, call, i).records| == |NewPositions(known, call.cids, i)|
    decreases |call.cids| - i
  {
    if i < |call.cids| {
      CollectCount(known, call, i + 1);
      var later := NewPositions(known, call.cids, i + 1);
      assert NewPositions(known, call.cids, i) == if call.cids[i] in known then later else later + {i};
    } else {
      assert NewPositions(known, call.cids, i) == {};
    }
  }

  /** What the loop does from position `i` on, position by position. */
  lemma CollectExact(known: set<Cid>, call: SpelCall, i: nat)
    requires i <= |call.cids|
    ensures Collect(known, call, i).Fresh? <==> forall j :: i <= j < |call.cids| ==> Good(known, call, j)
    ensures Collect(known, call, i).WrongLength? <==> exists j: nat :: FirstShort(known, call, i, j)
    ensures Collect(known, call, i).Fresh? ==>
      |Collect(known, call, i).records| == |NewPositions(known, call.cids, i)|
  {
    hide Collect, Good, FirstShort;
    CollectFreshExact(known, call, i);
    CollectWrongLengthExact(known, call, i);
    if Collect(known, call, i).Fresh? {
      CollectCount(known, call, i);
    }
  }

  /**
    A batch on a readable account commits exactly when it is small enough, every
    position is good, and the grown list fits the counter and the data limit; what
    it commits decodes to the old records followed by one record per new position.
   */
  lemma CommitExact(data: seq<Byte>, call: SpelCall, dataLimit: nat)
    requires FromBytes(data).Some?
    ensures
      var known := Keys(FromBytes(data).value.records);
      var size := |FromBytes(data).value.records| + |NewPositions(known, call.cids, 0)|;
      Transact(data, call, dataLimit).Committed? <==>
        && |call.cids| <= 50
        && (forall i :: 0 <= i < |call.cids| ==> Good(known, call, i))
        && size < 0x1_0000_0000
        && 4 + 86 * size <= dataLimit
    ensures Transact(data, call, dataLimit).Committed? ==>
      var st := FromBytes(data).value;
      var added := Collect(Keys(st.records), call, 0);
      && added.Fresh?
      && FromBytes(Transact(data, call, dataLimit).data) == Some(RegistryState(st.records + added.records))
  {
    var st := FromBytes(data).value;
    CollectExact(Keys(st.records), call, 0);
    var added := Collect(Keys(st.records), call, 0);
    if added.Fresh? {
      var next := RegistryState(st.records + added.records);
      if ToBytes(next).Some? {
        AccountCodec(next, ToBytes(next).value);
      }
    }
  }

  /** The first position that is not good, if any, decides how the call fails. */
  ghost predicate FirstBad(known: set<Cid>, call: SpelCall, j: nat) {
    j < |call.cids| && !Good(known, call, j) && forall k :: 0 <= k < j ==> Good(known, call, k)
  }

  lemma {:induction false} FirstBadExists(known: set<Cid>, call: SpelCall, i: nat) returns (j: nat)
    requires i < |call.cids| && !Good(known, call, i)
    ensures j <= i && FirstBad(known, call, j)
  {
    if k: nat :| k < i && !Good(known, call, k) {
      j := FirstBadExists(known, call, k);
    } else {
      j := i;
    }
  }

  lemma BadOutcome(known: set<Cid>, call: SpelCall, j: nat)
    requires FirstBad(known, call, j)
    ensures Collect(known, call, 0) == if |call.cids[j]| == 46 then OutOfRange else WrongLength
  {
    hide Collect;
    CollectExact(known, call, 0);
    if |call.cids[j]| != CID_BYTES {
      assert FirstShort(known, call, 0, j);
    } else {
      forall i: nat ensures !FirstShort(known, call, 0, i) {
        assert i < j ==> Good(known, call, i);
      }
    }
  }

  /**
    Every way a call can end.  An account that does not decode is answered like an
    oversized batch; on a readable one the first position that is not good decides
    between the CID error and a panic; otherwise only space can keep the call from
    committing.
   */
  lemma OutcomeExact(data: seq<Byte>, call: SpelCall, dataLimit: nat)
    ensures
      var r := Transact(data, call, dataLimit);
      && (r.Rejected? ==> r.code == 4001 || r.code == 4002)
      && (r == Rejected(4001) <==> 50 < |call.cids| || FromBytes(data).None?)
    ensures FromBytes(data).Some? && |call.cids| <= 50 ==>
      var r, known := Transact(data, call, dataLimit), Keys(FromBytes(data).value.records);
      && (r == Rejected(4002) <==> exists j: nat :: FirstBad(known, call, j) && |call.cids[j]| != 46)
      && (r.Panicked? <==> exists j: nat :: FirstBad(known, call, j) && |call.cids[j]| == 46)
      && (r.Committed? || r.SerializationFailed? <==> forall i :: 0 <= i < |call.cids| ==> Good(known, call, i))
  {
    if FromBytes(data).Some? && |call.cids| <= 50 {
      var known := Keys(FromBytes(data).value.records);
      CollectExact(known, call, 0);
      if i: nat :| i < |call.cids| && !Good(known, call, i) {
        var j := FirstBadExists(known, call, i);
        BadOutcome(known, call, j);
        assert forall k: nat :: FirstBad(known, call, k) ==> k == j;
      }
    }
  }

  /** A good position, spelled out. */
  lemma GoodExact(known: set<Cid>, call: SpelCall, i: nat)
    requires i < |call.cids|
    ensures Good(known, call, i)
       <==> |call.cids[i]| == 46 && (call.cids[i] in known || (i < |call.hashes| && i < |call.times|))
  {
  }

  /** Deploying writes four zero bytes, unless not even they fit. */
  lemma InitializeExact(dataLimit: nat)
    ensures Store(RegistryState([]), dataLimit)
         == if 4 <= dataLimit then Committed([0, 0, 0, 0]) else SerializationFailed
  {
    assert LeBytes(0, 4) == [0] + ([0] + ([0] + ([0] + [])));
  }

  ghost predicate IsPosition(call: SpelCall, r: DocumentRecord, i: nat) {
    && i < |call.cids| && i < |call.hashes| && i < |call.times|
    && r.cid == call.cids[i] && r.metadataHash == call.hashes[i] && r.anchorTimestamp == call.times[i]
  }

  /** The record is what one position of the call asks for. */
  ghost predicate Submitted(call: SpelCall, r: DocumentRecord) {
    exists i: nat :: IsPosition(call, r, i)
  }

  lemma {:induction false} CollectKeys(known: set<Cid>, call: SpelCall, i: nat)
    requires i <= |call.cids| && Collect(known, call, i).Fresh?
    ensures forall j :: i <= j < |call.cids| ==> call.cids[j] in known + Keys(Collect(known, call, i).records)
    ensures forall r :: r in Collect(known, call, i).records ==> r.cid !in known && Submitted(call, r)
    decreases |call.cids| - i
  {
    if i < |call.cids| {
      CollectKeys(known, call, i + 1);
      var records, rest := Collect(known, call, i).records, Collect(known, call, i + 1).records;
      if call.cids[i] !in known {
        assert records == [records[0]] + rest && records[1..] == rest;
        FirstKey(call, records, i);
      }
    }
  }

  lemma FirstKey(call: SpelCall, records: seq<DocumentRecord>, i: nat)
    requires records != [] && IsPosition(call, records[0], i)
    ensures call.cids[i] in Keys(records) && Keys(records[1..]) <= Keys(records)
    ensures Submitted(call, records[0])
  {
    KeysSplit(records);
  }

  /**
    A committed batch keeps the old records as a prefix and puts the submitted keys on
    chain.  Each record it adds has key, digest and timestamp from one position of the call.
   */
  lemma CommitGrows(data: seq<Byte>, call: SpelCall, dataLimit: nat)
    requires Transact(data, call, dataLimit).Committed?
    ensures
      var before, after := FromBytes(data), FromBytes(Transact(data, call, dataLimit).data);
      && before.Some? && after.Some?
      && before.value.records <= after.value.records
      && Keys(before.value.records) <= Keys(after.value.records)
      && (forall j :: 0 <= j < |call.cids| ==> call.cids[j] in Keys(after.value.records))
      && (forall cid :: cid in Keys(after.value.records) ==> cid in Keys(before.value.records) || cid in call.cids)
      && (forall r :: r in after.value.records ==> r in before.value.records || Submitted(call, r))
      && |Transact(data, call, dataLimit).data| <= dataLimit
  {
    hide Transact, Collect, Submitted;
    CommitFits(data, call, dataLimit);
    CommitExact(data, call, dataLimit);
    var st := FromBytes(data).value;
    CollectKeys(Keys(st.records), call, 0);
    var added := Collect(Keys(st.records), call, 0).records;
    KeysAppend(st.records, added);
    forall r | r in added ensures r.cid in call.cids {
      SubmittedKey(call, r);
    }
  }

  lemma SubmittedKey(call: SpelCall, r: DocumentRecord)
    requires Submitted(call, r)
    ensures r.cid in call.cids
  {
    var i: nat :| IsPosition(call, r, i);
  }

  lemma CommitFits(data: seq<Byte>, call: SpelCall, dataLimit: nat)
    requires Transact(data, call, dataLimit).Committed?
    ensures FromBytes(data).Some? && |Transact(data, call, dataLimit).data| <= dataLimit
  {
  }

  /** Replaying a batch whose keys are all on chain rewrites the same bytes. */
  lemma ReplayUnchanged(data: seq<Byte>, call: SpelCall, dataLimit: nat)
    requires FromBytes(data).Some? && |data| <= dataLimit && |call.cids| <= MAX_BATCH_SIZE
    requires forall j :: 0 <= j < |call.cids| ==> call.cids[j] in Keys(FromBytes(data).value.records)
    ensures Transact(data, call, dataLimit) == Committed(data)
  {
    var st := FromBytes(data).value;
    NothingNew(Keys(st.records), call, 0);
    AccountCodec(st, data);
    assert st.records + [] == st.records;
  }

  lemma {:induction false} NothingNew(known: set<Cid>, call: SpelCall, i: nat)
    requires i <= |call.cids|
    requires forall j :: 0 <= j < |call.cids| ==> call.cids[j] in known
    ensures Collect(known, call, i) == Fresh([])
    decreases |call.cids| - i
  {
    if i < |call.cids| {
      NothingNew(known, call, i + 1);
    }
  }

  // ----- the two implementations side by side -----

  predicate Aligned(call: SpelCall) {
    |call.cids| == |call.hashes| == |call.times|
  }

  function Entries(call: SpelCall): (es: seq<Entry>)
    requires Aligned(call)
    ensures |es| == |call.cids|
  {
    seq(|call.cids|, i requires 0 <= i < |call.cids| => Entry(call.cids[i], call.hashes[i], call.times[i]))
  }

  lemma {:induction false} CollectIsUnregistered(known: set<Cid>, call: SpelCall, i: nat)
    requires Aligned(call) && i <= |call.cids|
    requires AllKeyed(Entries(call))
    ensures Collect(known, call, i) == Fresh(Unregistered(known, ToRecords(Entries(call))[i..]))
    decreases |call.cids| - i
  {
    var rs := ToRecords(Entries(call));
    if i < |call.cids| {
      CollectIsUnregistered(known, call, i + 1);
      assert |Entries(call)[i].cid| == CID_BYTES;
      assert rs[i..][0] == rs[i] && rs[i..][1..] == rs[i + 1..];
    } else {
      assert rs[i..] == [];
    }
  }

  lemma CollectRefusal(known: set<Cid>, call: SpelCall)
    requires Aligned(call)
    ensures AllKeyed(Entries(call)) ==> Collect(known, call, 0).Fresh?
    ensures !AllKeyed(Entries(call)) ==> Collect(known, call, 0).WrongLength?
  {
    if AllKeyed(Entries(call)) {
      CollectIsUnregistered(known, call, 0);
    } else {
      CollectExact(known, call, 0);
      var j :| 0 <= j < |call.cids| && |Entries(call)[j].cid| != CID_BYTES;
      assert !Good(known, call, j);
      FirstWrongLength(known, call, 0);
    }
  }

  lemma {:induction false} FirstWrongLength(known: set<Cid>, call: SpelCall, i: nat)
    requires Aligned(call) && i <= |call.cids|
    ensures !Collect(known, call, i).OutOfRange?
    decreases |call.cids| - i
  {
    if i < |call.cids| {
      FirstWrongLength(known, call, i + 1);
    }
  }

  /** What a committed batch appends, in the reference's terms. */
  lemma CommitAppends(data: seq<Byte>, call: SpelCall, dataLimit: nat)
    requires Aligned(call) && Transact(data, call, dataLimit).Committed?
    ensures AllKeyed(Entries(call)) && FromBytes(data).Some?
    ensures
      var before := FromBytes(data).value.records;
      FromBytes(Transact(data, call, dataLimit).data)
      == Some(RegistryState(before + Unregistered(Keys(before), ToRecords(Entries(call)))))
  {
    var before := FromBytes(data).value.records;
    CollectRefusal(Keys(before), call);
    CollectIsUnregistered(Keys(before), call, 0);
    assert ToRecords(Entries(call))[0..] == ToRecords(Entries(call));
    CommitExact(data, call, dataLimit);
  }

  /**
    One step of the simulation: as long as deduplicating the guest's list gives the
    reference list, both refuse the same batches with the same code, and when the
    guest commits, the relation still holds.
   */
  lemma GuestSimulatesReference(data: seq<Byte>, ref: RegistryState, call: SpelCall, dataLimit: nat)
    requires Aligned(call) && FromBytes(data).Some?
    requires KeepFirst(FromBytes(data).value.records) == ref.records
    ensures
      var guest := Transact(data, call, dataLimit);
      match Applied(ref, Entries(call))
      case Err(code) => guest == Rejected(code)
      case Ok(next) =>
        guest.SerializationFailed?
        || (guest.Committed? && FromBytes(guest.data).Some?
            && KeepFirst(FromBytes(guest.data).value.records) == next.records)
  {
    var before := FromBytes(data).value.records;
    if |call.cids| <= MAX_BATCH_SIZE {
      CollectRefusal(Keys(before), call);
      if Transact(data, call, dataLimit).Committed? {
        CommitAppends(data, call, dataLimit);
        var es := ToRecords(Entries(call));
        KeepFirstKeys(before);
        KeepFirstAppend(before, Unregistered(Keys(before), es));
        UnregisteredExtend(Keys(before), es, KeepFirst(before));
      }
    }
  }

  /** The same keys with hash and timestamp lists cut or filled up to their number. */
  function Padded(call: SpelCall): (padded: SpelCall)
    ensures Aligned(padded) && padded.cids == call.cids
  {
    var none: Hash := seq(HASH_BYTES, _ => 0);
    SpelCall(call.cids,
             seq(|call.cids|, i requires 0 <= i < |call.cids| => if i < |call.hashes| then call.hashes[i] else none),
             seq(|call.cids|, i requires 0 <= i < |call.cids| => if i < |call.times| then call.times[i] else 0))
  }

  lemma {:induction false} PaddedCollect(known: set<Cid>, call: SpelCall, i: nat)
    requires i <= |call.cids| && Collect(known, call, i).Fresh?
    ensures Collect(known, Padded(call), i) == Collect(known, call, i)
    decreases |call.cids| - i
  {
    if i < |call.cids| {
      PaddedCollect(known, call, i + 1);
    }
  }

  lemma PaddedCommits(data: seq<Byte>, call: SpelCall, dataLimit: nat)
    requires Transact(data, call, dataLimit).Committed?
    ensures Transact(data, Padded(call), dataLimit) == Transact(data, call, dataLimit)
  {
    PaddedCollect(Keys(FromBytes(data).value.records), call, 0);
  }

  /** After a commit earlier answers are unchanged, and every other key is answered with its first position. */
  lemma CommitAnswers(data: seq<Byte>, call: SpelCall, dataLimit: nat, cid: Cid)
    requires Transact(data, call, dataLimit).Committed?
    ensures AllKeyed(Entries(Padded(call)))
    ensures
      var before, after := QueryByCid(data, cid), QueryByCid(Transact(data, call, dataLimit).data, cid);
      && before.Answer?
      && after == if before.record.Some? then before else Answer(Find(ToRecords(Entries(Padded(call))), cid))
  {
    hide Transact, Padded;
    PaddedCommits(data, call, dataLimit);
    CommitAppends(data, Padded(call), dataLimit);
    var records, es := FromBytes(data).value.records, ToRecords(Entries(Padded(call)));
    FindAppend(records, Unregistered(Keys(records), es), cid);
    UnregisteredFind(Keys(records), es, cid);
  }

  /** Any committed call keeps keys unique exactly when no key new to the chain is repeated inside the batch. */
  lemma GuestDistinctExact(data: seq<Byte>, call: SpelCall, dataLimit: nat)
    requires Transact(data, call, dataLimit).Committed?
    ensures
      var before, after := FromBytes(data), FromBytes(Transact(data, call, dataLimit).data);
      && before.Some? && after.Some?
      && (Distinct(after.value.records) <==>
          && Distinct(before.value.records)
          && forall i, j :: 0 <= i < j < |call.cids| && call.cids[i] == call.cids[j]
                            ==> call.cids[i] in Keys(before.value.records))
  {
    hide Transact, Padded;
    PaddedCommits(data, call, dataLimit);
    AlignedDistinctExact(data, Padded(call), dataLimit);
  }

  lemma AlignedDistinctExact(data: seq<Byte>, call: SpelCall, dataLimit: nat)
    requires Aligned(call) && Transact(data, call, dataLimit).Committed?
    ensures
      var before, after := FromBytes(data), FromBytes(Transact(data, call, dataLimit).data);
      && before.Some? && after.Some?
      && (Distinct(after.value.records) <==>
          && Distinct(before.value.records)
          && forall i, j :: 0 <= i < j < |call.cids| && call.cids[i] == call.cids[j]
                            ==> call.cids[i] in Keys(before.value.records))
  {
    CommitAppends(data, call, dataLimit);
    var before := FromBytes(data).value.records;
    var es := ToRecords(Entries(call));
    UnregisteredKeys(Keys(before), es);
    UnregisteredDistinct(Keys(before), es);
    DistinctSplit(before, Unregistered(Keys(before), es));
    assert forall i :: 0 <= i < |es| ==> es[i].cid == call.cids[i];
    assert forall i, j :: 0 <= i < j < |call.cids| && call.cids[i] == call.cids[j] ==> es[i].cid == es[j].cid;
  }

  // ----- whole histories -----

  function NextData(data: seq<Byte>, call: SpelCall, dataLimit: nat): seq<Byte> {
    var r := Transact(data, call, dataLimit);
    if r.Committed? then r.data else data
  }

  /** The account after a series of transactions; one that does not commit leaves it alone. */
  function GuestHistory(data: seq<Byte>, calls: seq<SpelCall>, dataLimit: nat): seq<Byte>
    decreases |calls|
  {
    if calls == [] then data else GuestHistory(NextData(data, calls[0], dataLimit), calls[1..], dataLimit)
  }

  /** No transaction of the series runs into the size limit of the account. */
  predicate NeverFull(data: seq<Byte>, calls: seq<SpelCall>, dataLimit: nat)
    decreases |calls|
  {
    calls == [] ||
    (!Transact(data, calls[0], dataLimit).SerializationFailed?
     && NeverFull(NextData(data, calls[0], dataLimit), calls[1..], dataLimit))
  }

  /** The calls as the reference takes them, one entry per CID. */
  ghost function Batches(calls: seq<SpelCall>): (batches: seq<seq<Entry>>)
    ensures |batches| == |calls|
  {
    seq(|calls|, k requires 0 <= k < |calls| => Entries(Padded(calls[k])))
  }

  /** The transactions of the series that commit. */
  function CommittedCalls(data: seq<Byte>, calls: seq<SpelCall>, dataLimit: nat): (committed: seq<SpelCall>)
    ensures forall c :: c in committed ==> c in calls
    decreases |calls|
  {
    if calls == [] then []
    else
      var rest := CommittedCalls(NextData(data, calls[0], dataLimit), calls[1..], dataLimit);
      if Transact(data, calls[0], dataLimit).Committed? then [calls[0]] + rest else rest
  }

  ghost predicate AllAligned(calls: seq<SpelCall>) {
    forall call :: call in calls ==> Aligned(call)
  }

  lemma PaddedAligned(call: SpelCall)
    requires Aligned(call)
    ensures Padded(call) == call
  {
  }

  lemma StepsAgree(data: seq<Byte>, ref: RegistryState, call: SpelCall, dataLimit: nat)
    requires FromBytes(data).Some?
    requires KeepFirst(FromBytes(data).value.records) == ref.records
    ensures
      var guest, r := Transact(data, call, dataLimit), Applied(ref, Entries(Padded(call)));
      && (guest.Committed? ==> r.Ok? && FromBytes(guest.data).Some?
                               && KeepFirst(FromBytes(guest.data).value.records) == r.value.records)
      && (Aligned(call) && !guest.Committed? && !guest.SerializationFailed? ==> r.Err?)
  {
    hide Transact, Applied, Padded, KeepFirst;
    if Transact(data, call, dataLimit).Committed? {
      PaddedCommits(data, call, dataLimit);
      GuestSimulatesReference(data, ref, Padded(call), dataLimit);
    } else if Aligned(call) {
      PaddedAligned(call);
      GuestSimulatesReference(data, ref, call, dataLimit);
    }
  }

  lemma {:induction false} HistoriesAgree(data: seq<Byte>, ref: RegistryState, calls: seq<SpelCall>, dataLimit: nat)
    requires FromBytes(data).Some? && KeepFirst(FromBytes(data).value.records) == ref.records
    ensures
      var committed := CommittedCalls(data, calls, dataLimit);
      && FromBytes(GuestHistory(data, calls, dataLimit)).Some?
      && KeepFirst(FromBytes(GuestHistory(data, calls, dataLimit)).value.records)
         == History(ref, Batches(committed)).records
      && (AllAligned(calls) && NeverFull(data, calls, dataLimit) ==>
            History(ref, Batches(committed)) == History(ref, Batches(calls)))
    decreases |calls|
  {
    hide Transact, Applied, Entries, Padded;
    if calls != [] {
      StepsAgree(data, ref, calls[0], dataLimit);
      var next := NextData(data, calls[0], dataLimit);
      var rest := CommittedCalls(next, calls[1..], dataLimit);
      var committed := Transact(data, calls[0], dataLimit).Committed?;
      var ref' := if committed then Applied(ref, Entries(Padded(calls[0]))).value else ref;
      HistoriesAgree(next, ref', calls[1..], dataLimit);
      assert Batches(calls)[1..] == Batches(calls[1..]);
      if committed {
        assert Batches([calls[0]] + rest)[1..] == Batches(rest);
      }
    }
  }

  ghost predicate NoRepeats(calls: seq<SpelCall>) {
    forall call :: call in calls ==> forall i, j :: 0 <= i < j < |call.cids| ==> call.cids[i] != call.cids[j]
  }

  lemma {:induction false} GuestHistoryDistinct(data: seq<Byte>, calls: seq<SpelCall>, dataLimit: nat)
    requires NoRepeats(calls)
    requires FromBytes(data).Some? && Distinct(FromBytes(data).value.records)
    ensures FromBytes(GuestHistory(data, calls, dataLimit)).Some?
    ensures Distinct(FromBytes(GuestHistory(data, calls, dataLimit)).value.records)
    decreases |calls|
  {
    if calls != [] {
      if Transact(data, calls[0], dataLimit).Committed? {
        GuestDistinctExact(data, calls[0], dataLimit);
      }
      GuestHistoryDistinct(NextData(data, calls[0], dataLimit), calls[1..], dataLimit);
    }
  }

  function EmptyAccount(): (data: seq<Byte>)
    ensures FromBytes(data) == Some(RegistryState([]))
  {
    AccountCodec(RegistryState([]), ToBytes(RegistryState([])).value);
    ToBytes(RegistryState([])).value
  }

  /**
    Over every series of transactions on a fresh registry, including batches with
    internal repeats and argument lists of any lengths: the guest's list deduplicates
    to the list the reference builds from the same committed batches, no query can tell
    the two apart, and the lists are the same when no batch repeats a CID.  Aligned
    batches refused for any reason but space are refused by the reference too, so
    unless the account fills up the reference may as well be given all of them.
   */
  lemma GuestMatchesReference(calls: seq<SpelCall>, dataLimit: nat)
    ensures
      var guest := GuestHistory(EmptyAccount(), calls, dataLimit);
      var ref := History(RegistryState([]), Batches(CommittedCalls(EmptyAccount(), calls, dataLimit)));
      && FromBytes(guest).Some?
      && KeepFirst(FromBytes(guest).value.records) == ref.records
      && (forall cid :: QueryByCid(guest, cid) == Answer(Find(ref.records, cid)))
      && (NoRepeats(calls) ==> FromBytes(guest).value == ref)
      && (AllAligned(calls) && NeverFull(EmptyAccount(), calls, dataLimit) ==>
            ref == History(RegistryState([]), Batches(calls)))
  {
    var guest := GuestHistory(EmptyAccount(), calls, dataLimit);
    HistoriesAgree(EmptyAccount(), RegistryState([]), calls, dataLimit);
    var records := FromBytes(guest).value.records;
    forall cid: Cid ensures QueryByCid(guest, cid) == Answer(Find(KeepFirst(records), cid)) {
      KeepFirstFind(records, cid);
    }
    if NoRepeats(calls) {
      GuestHistoryDistinct(EmptyAccount(), calls, dataLimit);
      KeepFirstDistinct(records);
    }
  }

  /** The two lists do differ: a CID repeated in one batch is stored twice by the guest, once by the reference. */
  lemma RepeatInBatchStoredTwice(cid: Cid, hash: Hash, dataLimit: nat)
    requires 4 + 2 * RECORD_BYTES <= dataLimit
    ensures
      var call := SpelCall([cid, cid], [hash, hash], [0, 0]);
      var once := DocumentRecord(cid, hash, 0);
      var guest := Transact(EmptyAccount(), call, dataLimit);
      && guest.Committed? && FromBytes(guest.data) == Some(RegistryState([once, once]))
      && Applied(RegistryState([]), Entries(call)) == Ok(RegistryState([once]))
  {
    hide EmptyAccount, KeepFirst, Find;
    var call := SpelCall([cid, cid], [hash, hash], [0, 0]);
    var once := DocumentRecord(cid, hash, 0);
    var es := Entries(call);
    assert Keys([]) == {};
    CollectTwice(call, once);
    assert [] + [once, once] == [once, once];
    AccountCodec(RegistryState([once, once]), ToBytes(RegistryState([once, once])).value);
    assert ToRecords(es) == [once] + [once];
    ExtendTwice(once);
  }

  lemma CollectTwice(call: SpelCall, once: DocumentRecord)
    requires Aligned(call) && |call.cids| == 2
    requires forall i :: 0 <= i < 2 ==> DocumentRecord(once.cid, call.hashes[i], call.times[i]) == once
    requires forall i :: 0 <= i < 2 ==> call.cids[i] == once.cid
    ensures Collect({}, call, 0) == Fresh([once, once])
  {
    assert Collect({}, call, 2) == Fresh([]);
    assert Collect({}, call, 1) == Fresh([once]);
  }

  lemma ExtendTwice(once: DocumentRecord)
    ensures Extend([], [once] + [once]) == [once]
  {
    KeysOne(once);
    ExtendLast([], [once], once);
    ExtendLast([], [], once);
    assert [] + [once] == [once];
    assert Keys([]) == {};
  }
}
