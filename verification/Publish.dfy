/** The demo publisher, and its documents' way from script to chain. */
module Publish {
  import opened Types
  import opened Borsh
  import opened Guest
  import opened Delivery
  import opened AnchorTool
  import opened Protocol
  import opened RunLoop
  import opened Progress
  import Base58
  import CidText

  /** The `k`-th published line; lines are numbered from 1. */
  function PublishedLine(keys: seq<Cid>, metas: seq<Hash>, k: nat): Line
    requires k < |keys| == |metas| && |keys| < U64_MAX
  {
    Json(Some(k + 1), Some(Payload(Base58.Encode(keys[k]), metas[k])))
  }

  function Published(keys: seq<Cid>, metas: seq<Hash>): (queue: seq<Line>)
    requires |keys| == |metas| && |keys| < U64_MAX
    ensures |queue| == |keys|
  {
    seq(|keys|, k requires 0 <= k < |keys| => PublishedLine(keys, metas, k))
  }

  /** Truncates the queue file and appends one envelope per document. */
  method PublishDocs(keys: seq<Cid>, metas: seq<Hash>) returns (queue: seq<Line>)
    requires |keys| == |metas| && |keys| < U64_MAX
    ensures queue == Published(keys, metas)
  {
    queue := [];
    for i := 0 to |keys|
      invariant queue == Published(keys, metas)[..i]
    {
      var cid := Base58.B58(keys[i]);
      queue := queue + [Json(Some(i + 1), Some(Payload(cid, metas[i])))];
    }
  }

  /** Everything the protocol asks of a queue holds of a published one, and every CID on it decodes. */
  lemma PublishedWellFormed(keys: seq<Cid>, metas: seq<Hash>)
    requires |keys| == |metas| && |keys| < U64_MAX
    ensures
      var queue := Published(keys, metas);
      && Increasing(queue) && Readable(queue, 0)
      && forall k :: 0 <= k < |queue| ==> DueKey(queue[k], U64_MAX) == Some(keys[k])
  {
    forall k | 0 <= k < |keys| ensures DueKey(Published(keys, metas)[k], U64_MAX) == Some(keys[k]) {
      CidText.DecodeCidExact(Base58.Encode(keys[k]), keys[k]);
    }
  }

  /**
    Publishing again starts the numbers at 1 again.  A tool with an old cursor finds
    pending exactly the documents from number `cursor + 1` on, so nothing at all once
    its cursor has reached the new count, and the ones it passes over are not lost
    exactly when they are on chain already.
   */
  lemma RepublishedExactly(keys: seq<Cid>, metas: seq<Hash>, cursor: U64, chain: set<Cid>)
    requires |keys| == |metas| && |keys| < U64_MAX
    ensures
      var queue := Published(keys, metas);
      && (forall k :: 0 <= k < |keys| ==> (Message(queue[k]) in Pending(queue, cursor) <==> cursor <= k))
      && (Pending(queue, cursor) == [] <==> |keys| <= cursor)
      && (Covered(queue, cursor, chain) <==> forall k :: 0 <= k < |keys| && k < cursor ==> keys[k] in chain)
  {
    hide Published, DueKey, IsPending, Pending, Base58.Encode;
    var queue := Published(keys, metas);
    forall k | 0 <= k < |keys|
      ensures queue[k].Json? && queue[k].payload.Some? && Number(queue[k]) == k + 1
      ensures IsPending(queue[k], cursor) <==> cursor <= k
      ensures Message(queue[k]) in Pending(queue, cursor) <==> cursor <= k
      ensures DueKey(queue[k], cursor) == if k < cursor then Some(keys[k]) else None
    {
      LineStanding(keys, metas, k, cursor);
    }
    PendingEmpty(queue, cursor);
    assert forall k :: 0 <= k < |keys| && cursor <= k ==> IsPending(queue[k], cursor);
    if cursor < |keys| {
      assert IsPending(queue[cursor], cursor);
    }
  }

  /** What a tool with a given cursor makes of one published line. */
  lemma LineStanding(keys: seq<Cid>, metas: seq<Hash>, k: nat, cursor: U64)
    requires k < |keys| == |metas| && |keys| < U64_MAX
    ensures
      var queue := Published(keys, metas);
      && queue[k].Json? && queue[k].payload.Some? && Number(queue[k]) == k + 1
      && (IsPending(queue[k], cursor) <==> cursor <= k)
      && (Message(queue[k]) in Pending(queue, cursor) <==> cursor <= k)
      && DueKey(queue[k], cursor) == if k < cursor then Some(keys[k]) else None
  {
    hide Pending, Base58.Encode, CidText.DecodeCid;
    var queue := Published(keys, metas);
    CidText.DecodeCidExact(Base58.Encode(keys[k]), keys[k]);
    PendingSource(queue, cursor);
    if Message(queue[k]) in Pending(queue, cursor) {
      var i :| 0 <= i < |queue| && IsPending(queue[i], cursor) && queue[i].payload.Some?
               && Message(queue[i]) == Message(queue[k]);
      assert Number(queue[i]) == Number(queue[k]);
    }
  }

  lemma {:induction false} PendingBound(lines: seq<Line>, after: U64)
    ensures |Pending(lines, after)| <= |lines|
  {
    if lines != [] {
      PendingBound(lines[1..], after);
    }
  }

  /** A tool's first run against a freshly deployed registry. */
  function FreshStart(cfg: Config): Run {
    Run(EMPTY_DB, EmptyAccount(), Polling(Process(cfg, LoadedCursor(EMPTY_DB), 0)))
  }

  /** A process that makes enough passes over a published queue. */
  ghost predicate EnoughPasses(keys: seq<Cid>, metas: seq<Hash>, cfg: Config, ticks: seq<Tick>, dataLimit: nat) {
    && |keys| == |metas| && |keys| < 0x1_0000_0000 && 4 + RECORD_BYTES * |keys| <= dataLimit
    && Drains(cfg) && (cfg.maxBatches == 0 || |ticks| <= cfg.maxBatches)
    && SameQueue(Published(keys, metas), ticks)
    && |keys| <= |ticks| * cfg.batchSize
  }

  lemma FreshStartDrains(keys: seq<Cid>, metas: seq<Hash>, cfg: Config, ticks: seq<Tick>, dataLimit: nat)
    requires EnoughPasses(keys, metas, cfg, ticks, dataLimit)
    ensures
      var queue := Published(keys, metas);
      && Draining(queue, FreshStart(cfg), |ticks|, dataLimit) && Sound(queue, 0, {}, FreshStart(cfg), dataLimit)
      && |Pending(queue, 0)| <= |ticks| * cfg.batchSize
      && LoadedCursor(EMPTY_DB) == 0 && ChainKeys(EmptyAccount()) == {}
  {
    hide Published, EmptyAccount;
    PublishedWellFormed(keys, metas);
    PendingBound(Published(keys, metas), 0);
    AccountLength(EmptyAccount());
  }

  /**
    From the script to the registry: once a fresh tool has made `n / batchSize`
    passes, rounded up, on a freshly deployed registry with space for `n` records,
    the chain holds exactly the keys of the `n` published documents.
   */
  lemma PublishedDocumentsReachChain(keys: seq<Cid>, metas: seq<Hash>, cfg: Config, ticks: seq<Tick>,
                                     dataLimit: nat, key: Cid)
    requires EnoughPasses(keys, metas, cfg, ticks, dataLimit)
    ensures key in ChainKeys(Passes(FreshStart(cfg), ticks, dataLimit).data) <==> key in keys
  {
    hide Pass, Passes, Published, Base58.Encode, CidText.DecodeCid, EmptyAccount, Draining, Sound;
    var queue := Published(keys, metas);
    FreshStartDrains(keys, metas, cfg, ticks, dataLimit);
    DrainedMeansAnchored(queue, {}, FreshStart(cfg), ticks, dataLimit, key);
    PublishedWellFormed(keys, metas);
    assert key in keys <==> IsDueBeyond(queue, 0, key) by {
      if key in keys {
        var k :| 0 <= k < |keys| && keys[k] == key;
        assert DueKey(queue[k], U64_MAX) == Some(key);
      }
    }
  }

  /** And every record has the key and the digest of one of them. */
  lemma PublishedDigestsReachChain(keys: seq<Cid>, metas: seq<Hash>, cfg: Config, ticks: seq<Tick>,
                                   dataLimit: nat, r: DocumentRecord)
    requires EnoughPasses(keys, metas, cfg, ticks, dataLimit)
    requires r in ChainRecords(Passes(FreshStart(cfg), ticks, dataLimit).data)
    ensures exists k :: 0 <= k < |keys| && keys[k] == r.cid && metas[k] == r.metadataHash
  {
    hide Passes, Base58.Encode, EmptyAccount, Draining, Sound, Covered;
    var queue := Published(keys, metas);
    FreshStartDrains(keys, metas, cfg, ticks, dataLimit);
    PublishedWellFormed(keys, metas);
    assert OnlyAdds(queue, 0, iset{}, EmptyAccount()) by {
      AccountLength(EmptyAccount());
    }
    PassesKeep(queue, 0, {}, iset{}, FreshStart(cfg), ticks, dataLimit);
    assert Enveloped(queue, 0, r.cid, r.metadataHash);
    var k :| 0 <= k < |queue| && DueKey(queue[k], U64_MAX) == Some(r.cid)
             && queue[k].payload.value.metaHash == r.metadataHash;
    assert keys[k] == r.cid && metas[k] == r.metadataHash;
  }

  /** By then the tool's cursor is the number of documents. */
  lemma CursorAfterDrain(keys: seq<Cid>, metas: seq<Hash>, cfg: Config, ticks: seq<Tick>, dataLimit: nat)
    requires EnoughPasses(keys, metas, cfg, ticks, dataLimit)
    ensures
      var end := Passes(FreshStart(cfg), ticks, dataLimit);
      end.phase.Polling? && end.phase.p.cursor == |keys| == LoadedCursor(end.db)
  {
    hide Pass, Passes, Published, Base58.Encode, EmptyAccount, DueKey, Sound, OnlyAdds;
    var queue := Published(keys, metas);
    var end := Passes(FreshStart(cfg), ticks, dataLimit);
    FreshStartDrains(keys, metas, cfg, ticks, dataLimit);
    DrainsExactly(queue, FreshStart(cfg), ticks, dataLimit);
    OnlyAddsOwn(queue, 0, EmptyAccount());
    PassesKeep(queue, 0, {}, ChainSet(EmptyAccount()), FreshStart(cfg), ticks, dataLimit);
    SoundCursor(queue, 0, {}, end, dataLimit);
    CursorWithinPublished(keys, metas, end.phase.p.cursor);
  }

  lemma CursorWithinPublished(keys: seq<Cid>, metas: seq<Hash>, cursor: U64)
    requires |keys| == |metas| && |keys| < U64_MAX
    requires WithinQueue(Published(keys, metas), cursor) && Pending(Published(keys, metas), cursor) == []
    ensures cursor == |keys|
  {
    RepublishedExactly(keys, metas, cursor, {});
  }

  /**
    Rewriting the queue after a tool has drained it: no document of the new queue is
    lost exactly when those that reuse an old number were documents of the old queue.
   */
  lemma RewriteLosesExactly(keys: seq<Cid>, metas: seq<Hash>, cfg: Config, ticks: seq<Tick>, dataLimit: nat,
                            newKeys: seq<Cid>, newMetas: seq<Hash>)
    requires EnoughPasses(keys, metas, cfg, ticks, dataLimit)
    requires |newKeys| == |newMetas| && |newKeys| < U64_MAX
    ensures
      var end := Passes(FreshStart(cfg), ticks, dataLimit);
      Covered(Published(newKeys, newMetas), LoadedCursor(end.db), ChainKeys(end.data))
      <==> forall k :: 0 <= k < |newKeys| && k < |keys| ==> newKeys[k] in keys
  {
    hide Passes, Published, EnoughPasses, Covered;
    var end := Passes(FreshStart(cfg), ticks, dataLimit);
    CursorAfterDrain(keys, metas, cfg, ticks, dataLimit);
    RepublishedExactly(newKeys, newMetas, |keys|, ChainKeys(end.data));
    forall k | 0 <= k < |newKeys| ensures newKeys[k] in ChainKeys(end.data) <==> newKeys[k] in keys {
      PublishedDocumentsReachChain(keys, metas, cfg, ticks, dataLimit, newKeys[k]);
    }
  }

  /** The smallest loss: one document anchored, the queue rewritten with another one. */
  lemma RewriteLosesDocument(first: Cid, replacement: Cid, meta: Hash, now: U64, dataLimit: nat)
    requires first != replacement && 4 + RECORD_BYTES <= dataLimit
    ensures
      var end := Passes(FreshStart(Config(50, 0, false, false)), [Tick(Published([first], [meta]), now)], dataLimit);
      && Pending(Published([replacement], [meta]), LoadedCursor(end.db)) == []
      && replacement !in ChainKeys(end.data)
  {
    hide Passes, Published;
    var cfg, ticks := Config(50, 0, false, false), [Tick(Published([first], [meta]), now)];
    var end := Passes(FreshStart(cfg), ticks, dataLimit);
    assert EnoughPasses([first], [meta], cfg, ticks, dataLimit);
    CursorAfterDrain([first], [meta], cfg, ticks, dataLimit);
    RepublishedExactly([replacement], [meta], 1, {});
    PublishedDocumentsReachChain([first], [meta], cfg, ticks, dataLimit, replacement);
  }
}
