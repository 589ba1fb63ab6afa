/** The local state of one batch-anchor tool and the steps of its loop body. */
module AnchorTool {
  import opened Types
  import opened Text
  import opened Delivery
  import opened SpelArgs
  import opened Guest
  import CidText

  // ----- the SQLite state -----

  /** The `anchored` table and the key-value `state` table, as a value. */
  datatype Db = Db(anchored: set<string>, state: map<string, string>)

  const EMPTY_DB := Db({}, map[])

  function LoadedCursor(db: Db): U64 {
    if "cursor" in db.state then
      var c := ParseU64(db.state["cursor"]);
      if c.Some? then c.value else 0
    else 0
  }

  function WithCursor(db: Db, c: U64): Db {
    db.(state := db.state["cursor" := ToDecimal(c)])
  }

  function WithAnchored(db: Db, cid: string): Db {
    db.(anchored := db.anchored + {cid})
  }

  /** A saved cursor is read back as saved, through its decimal text. */
  lemma CursorPersists(db: Db, c: U64, cid: string)
    ensures LoadedCursor(WithCursor(db, c)) == c
    ensures LoadedCursor(WithAnchored(db, cid)) == LoadedCursor(db)
  {
    DecimalRoundTrip(c);
  }

  /** Each statement touches its own row only, and the cursor row reads as its number, or as 0. */
  lemma StatementsExact(db: Db, c: U64, cid: string)
    ensures
      var saved := WithCursor(db, c);
      && saved.anchored == db.anchored && saved.state.Keys == db.state.Keys + {"cursor"}
      && saved.state["cursor"] == ToDecimal(c)
      && forall k :: k in db.state && k != "cursor" ==> saved.state[k] == db.state[k]
    ensures WithAnchored(db, cid) == Db(db.anchored + {cid}, db.state)
    ensures LoadedCursor(db) == c
       <==> if "cursor" in db.state && ParseU64(db.state["cursor"]).Some? then ParseU64(db.state["cursor"]) == Some(c)
            else c == 0
  {
  }

  class StateDb {
    var anchored: set<string>
    var state: map<string, string>

    ghost function View(): Db
      reads this
    {
      Db(anchored, state)
    }

    constructor ()
      ensures View() == EMPTY_DB
    {
      anchored := {};
      state := map[];
    }

    method IsAnchored(cid: string) returns (known: bool)
      ensures known <==> cid in View().anchored
    {
      known := cid in anchored;
    }

    method MarkAnchored(cid: string)
      modifies this
      ensures View() == WithAnchored(old(View()), cid)
    {
      anchored := anchored + {cid};
    }

    method LoadCursor() returns (c: U64)
      ensures c == LoadedCursor(View())
    {
      if "cursor" !in state {
        return 0;
      }
      var parsed := ParseU64(state["cursor"]);
      c := if parsed.Some? then parsed.value else 0;
    }

    method SaveCursor(c: U64)
      modifies this
      ensures View() == WithCursor(old(View()), c)
    {
      state := state["cursor" := ToDecimal(c)];
    }
  }

  // ----- gathering entries -----

  /** The messages still to anchor: not known locally, and with a CID that decodes. */
  function Gather(anchored: set<string>, ms: seq<DeliveryMsg>): seq<AnchorEntry> {
    if ms == [] then []
    else
      var m := ms[|ms| - 1].payload;
      var front := Gather(anchored, ms[..|ms| - 1]);
      if m.cid in anchored || CidText.DecodeCid(m.cid).None? then front
      else front + [AnchorEntry(CidText.DecodeCid(m.cid).value, m.metaHash, m.cid)]
  }

  method GatherEntries(db: StateDb, ms: seq<DeliveryMsg>, cursor: U64)
    returns (entries: seq<AnchorEntry>, newCursor: U64)
    ensures entries == Gather(db.View().anchored, ms)
    ensures newCursor == MaxNumber(ms, cursor)
  {
    hide CidText.DecodeCid, LoadedCursor;
    entries := [];
    newCursor := cursor;
    for i := 0 to |ms|
      invariant entries == Gather(db.View().anchored, ms[..i])
      invariant newCursor == MaxNumber(ms[..i], cursor)
    {
      var m := ms[i];
      assert ms[..i + 1][..i] == ms[..i];
      newCursor := if newCursor < m.number then m.number else newCursor;
      var known := db.IsAnchored(m.payload.cid);
      if known {
        continue;
      }
      var cid := CidText.DecodeCid(m.payload.cid);
      if cid.None? {
        continue;
      }
      entries := entries + [AnchorEntry(cid.value, m.payload.metaHash, m.payload.cid)];
    }
    assert ms[..|ms|] == ms;
  }

  /** Gathering loses nothing and invents nothing. */
  lemma {:induction false} GatherExact(anchored: set<string>, ms: seq<DeliveryMsg>)
    ensures forall e :: e in Gather(anchored, ms) <==>
      exists m :: m in ms && m.payload.cid !in anchored
                  && e == AnchorEntry(e.cid, m.payload.metaHash, m.payload.cid)
                  && CidText.DecodeCid(e.text) == Some(e.cid)
    ensures |Gather(anchored, ms)| <= |ms|
  {
    if ms != [] {
      var front, last := ms[..|ms| - 1], ms[|ms| - 1];
      GatherExact(anchored, front);
      assert ms == front + [last];
    }
  }

  /** Gathering goes message by message, in order. */
  lemma {:induction false} GatherSplit(anchored: set<string>, a: seq<DeliveryMsg>, b: seq<DeliveryMsg>)
    ensures Gather(anchored, a + b) == Gather(anchored, a) + Gather(anchored, b)
    decreases |b|
  {
    if b == [] {
      assert a + b == a;
    } else {
      var front, last := b[..|b| - 1], b[|b| - 1];
      GatherSplit(anchored, a, front);
      assert (a + b)[..|a + b| - 1] == a + front && (a + b)[|a + b| - 1] == last;
    }
  }

  predicate Wanted(anchored: set<string>, m: DeliveryMsg) {
    m.payload.cid !in anchored && CidText.DecodeCid(m.payload.cid).Some?
  }

  /** Some message of the window is to be anchored. */
  ghost predicate WantsAny(anchored: set<string>, ms: seq<DeliveryMsg>) {
    exists m :: m in ms && Wanted(anchored, m)
  }

  /** The CIDs to be anchored. */
  ghost function WantedTexts(anchored: set<string>, ms: seq<DeliveryMsg>): set<string> {
    set m | m in ms && Wanted(anchored, m) :: m.payload.cid
  }

  function EntryTexts(es: seq<AnchorEntry>): set<string> {
    set i | 0 <= i < |es| :: es[i].text
  }

  lemma GatheredTexts(anchored: set<string>, ms: seq<DeliveryMsg>)
    ensures EntryTexts(Gather(anchored, ms)) == WantedTexts(anchored, ms)
    ensures Gather(anchored, ms) == [] <==> !WantsAny(anchored, ms)
  {
    hide CidText.DecodeCid;
    var es := Gather(anchored, ms);
    GatherExact(anchored, ms);
    forall m | m in ms && Wanted(anchored, m) ensures m.payload.cid in EntryTexts(es) {
      var e := AnchorEntry(CidText.DecodeCid(m.payload.cid).value, m.payload.metaHash, m.payload.cid);
      assert e in es;
      var i :| 0 <= i < |es| && es[i] == e;
    }
    forall i | 0 <= i < |es| ensures es[i].text in WantedTexts(anchored, ms) {
      assert es[i] in es;
      var m :| m in ms && m.payload.cid == es[i].text && m.payload.cid !in anchored;
      assert Wanted(anchored, m);
    }
  }

  ghost predicate KeysRepeat(es: seq<AnchorEntry>) {
    exists i, j :: 0 <= i < j < |es| && es[i].cid == es[j].cid
  }

  ghost predicate WindowRepeats(anchored: set<string>, ms: seq<DeliveryMsg>) {
    exists i, j :: 0 <= i < j < |ms| && Wanted(anchored, ms[i]) && ms[i].payload.cid == ms[j].payload.cid
  }

  /** The gathered keys repeat exactly when two messages to anchor carry the same CID text. */
  lemma {:induction false} GatherRepeatsExactly(anchored: set<string>, ms: seq<DeliveryMsg>)
    ensures KeysRepeat(Gather(anchored, ms)) <==> WindowRepeats(anchored, ms)
  {
    if ms != [] {
      GatherRepeatsExactly(anchored, ms[..|ms| - 1]);
      RepeatsStep(anchored, ms[..|ms| - 1], ms[|ms| - 1]);
      assert ms == ms[..|ms| - 1] + [ms[|ms| - 1]];
    }
  }

  lemma RepeatsStep(anchored: set<string>, front: seq<DeliveryMsg>, last: DeliveryMsg)
    requires KeysRepeat(Gather(anchored, front)) <==> WindowRepeats(anchored, front)
    ensures KeysRepeat(Gather(anchored, front + [last])) <==> WindowRepeats(anchored, front + [last])
  {
    hide CidText.DecodeCid, KeysRepeat, WindowRepeats;
    LastRepeats(anchored, front, last);
    WindowGrows(anchored, front, last);
    assert (front + [last])[..|front|] == front;
    if Wanted(anchored, last) {
      var e := AnchorEntry(CidText.DecodeCid(last.payload.cid).value, last.payload.metaHash, last.payload.cid);
      KeysGrowBy(Gather(anchored, front), e);
    }
  }

  lemma KeysGrowBy(es: seq<AnchorEntry>, e: AnchorEntry)
    ensures KeysRepeat(es + [e]) <==> KeysRepeat(es) || exists k :: 0 <= k < |es| && es[k].cid == e.cid
  {
    var all := es + [e];
    assert forall k :: 0 <= k < |es| ==> all[k] == es[k];
    if KeysRepeat(all) {
      var i, j :| 0 <= i < j < |all| && all[i].cid == all[j].cid;
      assert j == |es| ==> es[i].cid == e.cid;
    }
    if KeysRepeat(es) {
      var i, j :| 0 <= i < j < |es| && es[i].cid == es[j].cid;
      assert all[i].cid == all[j].cid;
    }
    if k :| 0 <= k < |es| && es[k].cid == e.cid {
      assert all[k].cid == all[|es|].cid;
    }
  }

  lemma WindowGrows(anchored: set<string>, ms: seq<DeliveryMsg>, m: DeliveryMsg)
    ensures WindowRepeats(anchored, ms + [m])
       <==> WindowRepeats(anchored, ms)
            || exists k :: 0 <= k < |ms| && Wanted(anchored, ms[k]) && ms[k].payload.cid == m.payload.cid
  {
    var all := ms + [m];
    assert forall k :: 0 <= k < |ms| ==> all[k] == ms[k];
    if WindowRepeats(anchored, all) {
      var i, j :| 0 <= i < j < |all| && Wanted(anchored, all[i]) && all[i].payload.cid == all[j].payload.cid;
      assert j == |ms| ==> ms[i].payload.cid == m.payload.cid;
    }
    if WindowRepeats(anchored, ms) {
      var i, j :| 0 <= i < j < |ms| && Wanted(anchored, ms[i]) && ms[i].payload.cid == ms[j].payload.cid;
      assert Wanted(anchored, all[i]) && all[i].payload.cid == all[j].payload.cid;
    }
    if k :| 0 <= k < |ms| && Wanted(anchored, ms[k]) && ms[k].payload.cid == m.payload.cid {
      assert Wanted(anchored, all[k]) && all[k].payload.cid == all[|ms|].payload.cid;
    }
  }

  lemma LastRepeats(anchored: set<string>, ms: seq<DeliveryMsg>, m: DeliveryMsg)
    ensures
      var key := CidText.DecodeCid(m.payload.cid);
      (exists k :: 0 <= k < |ms| && Wanted(anchored, ms[k]) && ms[k].payload.cid == m.payload.cid)
      <==> Wanted(anchored, m)
           && exists k :: 0 <= k < |Gather(anchored, ms)| && Some(Gather(anchored, ms)[k].cid) == key
  {
    hide CidText.DecodeCid;
    var es, key := Gather(anchored, ms), CidText.DecodeCid(m.payload.cid);
    GatherExact(anchored, ms);
    if k :| 0 <= k < |ms| && Wanted(anchored, ms[k]) && ms[k].payload.cid == m.payload.cid {
      var e := AnchorEntry(key.value, ms[k].payload.metaHash, m.payload.cid);
      assert ms[k] in ms && e in es;
    }
    if Wanted(anchored, m) {
      if k :| 0 <= k < |es| && Some(es[k].cid) == key {
        assert es[k] in es;
        CidText.DedupKeysAgree(es[k].text, m.payload.cid);
      }
    }
  }

  // ----- submitting -----

  /** What the chain does with a printed submission; arguments that do not parse never reach it. */
  function AnchorViaSpel(data: seq<Byte>, entries: seq<AnchorEntry>, now: U64, dataLimit: nat): TxOutcome {
    match ReadArgs(PrintArgs(entries, now))
    case None => Rejected(0)
    case Some(call) => Transact(data, call, dataLimit)
  }

  /** Only the empty list prints as something that cannot be read back, and then nothing reaches the chain. */
  lemma EmptyNeverSent(data: seq<Byte>, entries: seq<AnchorEntry>, now: U64, dataLimit: nat)
    ensures ReadArgs(PrintArgs(entries, now)).None? <==> entries == []
    ensures entries == [] ==> AnchorViaSpel(data, entries, now, dataLimit) == Rejected(0)
  {
    if entries == [] {
      assert seq(0, _ => ToDecimal(now)) == [];
      assert PrintArgs(entries, now).times == "" && SplitFrom("", ',', 0) == [""];
      assert Trim("") == "" && ParseU64("").None?;
    } else {
      ArgsRoundTrip(entries, now);
    }
  }

  /** The instruction a submission stands for. */
  function Call(entries: seq<AnchorEntry>, now: U64): (call: SpelCall)
    ensures Aligned(call)
  {
    SpelCall(Cids(entries), Hashes(entries), seq(|entries|, _ => now))
  }

  lemma ViaSpelIsTransact(data: seq<Byte>, entries: seq<AnchorEntry>, now: U64, dataLimit: nat)
    requires entries != []
    ensures AnchorViaSpel(data, entries, now, dataLimit) == Transact(data, Call(entries, now), dataLimit)
  {
    ArgsRoundTrip(entries, now);
  }
}
