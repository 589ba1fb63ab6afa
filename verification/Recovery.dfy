/** What a restart completes after any crash, and why no reachable state is a dead end. */
module Recovery {
  import opened Types
  import opened Borsh
  import opened Guest
  import opened Delivery
  import opened AnchorTool
  import opened Protocol
  import opened Safety
  import opened RunLoop
  import opened Progress
  import opened Life

  // ----- recovery -----

  /** A queue a restarted tool can read to its end, on an account with space for what it will find. */
  ghost predicate Recoverable(w: World, id: nat, dataLimit: nat) {
    && id in w.tools
    && Readable(w.queue, LoadedCursor(w.tools[id].db))
    && Room(w.data, |Pending(w.queue, LoadedCursor(w.tools[id].db))|, dataLimit)
  }

  lemma RestartedSound(w: World, id: nat, cfg: Config, dataLimit: nat)
    requires Inv(w, dataLimit) && id in w.tools && !cfg.dryRun
    ensures
      var t := w.tools[id];
      var cursor := LoadedCursor(t.db);
      Sound(w.queue, cursor, t.listed, Run(t.db, w.data, Polling(Process(cfg, cursor, 0))), dataLimit)
  {
    assert ToolInv(w.queue, ChainKeys(w.data), w.tools[id]);
    StartKeeps(w.queue, ChainKeys(w.data), w.tools[id], cfg);
  }

  lemma RecoveryExact(w: World, id: nat, cfg: Config, ticks: seq<Tick>, dataLimit: nat, key: Cid)
    requires Inv(w, dataLimit) && Recoverable(w, id, dataLimit)
    requires Drains(cfg) && (cfg.maxBatches == 0 || |ticks| <= cfg.maxBatches) && SameQueue(w.queue, ticks)
    requires |Pending(w.queue, LoadedCursor(w.tools[id].db))| <= |ticks| * cfg.batchSize
    ensures key in ChainKeys(Outcome(w, id, cfg, ticks, dataLimit).data)
       <==> key in ChainKeys(w.data) || IsDueBeyond(w.queue, LoadedCursor(w.tools[id].db), key)
  {
    hide Passes, ToolInv, Room, Readable, Sound, IsDueBeyond;
    var t := w.tools[id];
    var cursor := LoadedCursor(t.db);
    RestartedSound(w, id, cfg, dataLimit);
    DrainedMeansAnchored(w.queue, t.listed, Run(t.db, w.data, Polling(Process(cfg, cursor, 0))), ticks, dataLimit, key);
  }

  lemma DueSplit(queue: seq<Line>, cursor: U64, key: Cid)
    ensures IsDue(queue, U64_MAX, key) <==> IsDue(queue, cursor, key) || IsDueBeyond(queue, cursor, key)
  {
    if i :| 0 <= i < |queue| && DueKey(queue[i], U64_MAX) == Some(key) {
      if Number(queue[i]) <= cursor {
        assert DueKey(queue[i], cursor) == Some(key);
      }
    }
    if i :| 0 <= i < |queue| && DueKey(queue[i], cursor) == Some(key) {
      assert DueKey(queue[i], U64_MAX) == Some(key);
    }
  }

  /** Every key a dry run has listed, and the cursor has passed, is on chain or queued again. */
  ghost predicate ListedRecoverable(w: World, id: nat)
    requires id in w.tools
  {
    var cursor := LoadedCursor(w.tools[id].db);
    forall key :: key in w.tools[id].listed && IsDue(w.queue, cursor, key) ==>
      key in ChainKeys(w.data) || IsDueBeyond(w.queue, cursor, key)
  }

  /** Every queued document whose CID decodes is among the keys. */
  ghost predicate AllOnChain(queue: seq<Line>, keys: set<Cid>) {
    forall key :: IsDue(queue, U64_MAX, key) ==> key in keys
  }

  /**
    A restart finishes the job.  Whatever crashes, dry runs, foreign transactions and
    other tools came before, enough passes leave a chain with what was there already
    and every document queued beyond the tool's cursor, and nothing else.  Every queued
    document is then on chain exactly when each one a dry run of this tool has passed
    over was there or is queued again.
   */
  lemma RecoveryCompletes(steps: seq<Step>, id: nat, cfg: Config, ticks: seq<Tick>, dataLimit: nat)
    requires Exec(INITIAL, steps, dataLimit).Some?
    requires Recoverable(Exec(INITIAL, steps, dataLimit).value, id, dataLimit)
    requires Drains(cfg) && (cfg.maxBatches == 0 || |ticks| <= cfg.maxBatches)
    requires
      var w := Exec(INITIAL, steps, dataLimit).value;
      SameQueue(w.queue, ticks) && |Pending(w.queue, LoadedCursor(w.tools[id].db))| <= |ticks| * cfg.batchSize
    ensures
      var w := Exec(INITIAL, steps, dataLimit).value;
      var after := ChainKeys(Outcome(w, id, cfg, ticks, dataLimit).data);
      && (forall key :: key in after
                        <==> key in ChainKeys(w.data) || IsDueBeyond(w.queue, LoadedCursor(w.tools[id].db), key))
      && (AllOnChain(w.queue, after) <==> ListedRecoverable(w, id))
      && (NoDryRun(steps, id) ==> AllOnChain(w.queue, after))
  {
    hide Outcome, Readable, Room, IsDue, IsDueBeyond, Covered, NoDryRun;
    var w := Exec(INITIAL, steps, dataLimit).value;
    var cursor := LoadedCursor(w.tools[id].db);
    InitialInv(dataLimit);
    ExecKeeps(INITIAL, steps, dataLimit);
    var keys, after := ChainKeys(w.data), ChainKeys(Outcome(w, id, cfg, ticks, dataLimit).data);
    forall key: Cid ensures key in after <==> key in keys || IsDueBeyond(w.queue, cursor, key) {
      RecoveryExact(w, id, cfg, ticks, dataLimit, key);
    }
    CompletesExactly(w, id, dataLimit, after);
    if NoDryRun(steps, id) {
      NoDryRunNoList(INITIAL, steps, id, dataLimit);
    }
  }

  lemma CompletesExactly(w: World, id: nat, dataLimit: nat, after: set<Cid>)
    requires Inv(w, dataLimit) && id in w.tools
    requires forall key :: key in after
                           <==> key in ChainKeys(w.data) || IsDueBeyond(w.queue, LoadedCursor(w.tools[id].db), key)
    ensures AllOnChain(w.queue, after) <==> ListedRecoverable(w, id)
  {
    hide IsDue, IsDueBeyond, PhaseInv;
    var t, keys := w.tools[id], ChainKeys(w.data);
    var cursor := LoadedCursor(t.db);
    assert ToolInv(w.queue, keys, t);
    forall key: Cid
      ensures IsDue(w.queue, U64_MAX, key) <==> IsDue(w.queue, cursor, key) || IsDueBeyond(w.queue, cursor, key)
      ensures IsDue(w.queue, cursor, key) ==> key in keys || key in t.listed
    {
      DueSplit(w.queue, cursor, key);
      CoveredKey(w.queue, cursor, keys + t.listed, key);
    }
  }

  lemma CoveredKey(queue: seq<Line>, c: U64, keys: set<Cid>, key: Cid)
    requires Covered(queue, c, keys)
    ensures IsDue(queue, c, key) ==> key in keys
  {
  }

  // ----- no dead ends -----

  /** The registry is deployed unless it is there already. */
  function Deployment(data: seq<Byte>): seq<Step> {
    if data == [] then [Deploy] else []
  }

  lemma DeployReaches(w: World, dataLimit: nat) returns (w': World)
    requires Inv(w, dataLimit) && 4 <= dataLimit
    ensures Exec(w, Deployment(w.data), dataLimit) == Some(w')
    ensures w' == w.(data := w'.data) && FromBytes(w'.data).Some? && ChainRecords(w'.data) == ChainRecords(w.data)
    ensures Inv(w', dataLimit)
  {
    if w.data == [] {
      var bytes := EmptyAccount();
      AccountLength([]);
      AccountCodec(RegistryState([]), bytes);
      AccountLength(bytes);
      w' := w.(data := bytes);
      OneStep(w, Deploy, dataLimit);
      NextKeeps(w, Deploy, dataLimit);
    } else {
      w' := w;
    }
  }

  lemma JoinReaches(w: World, id: nat, dataLimit: nat)
    requires Inv(w, dataLimit) && id !in w.tools
    ensures Exec(w, [Join(id)], dataLimit) == Some(w.(tools := w.tools[id := NEW_TOOL]))
    ensures Inv(w.(tools := w.tools[id := NEW_TOOL]), dataLimit)
  {
    OneStep(w, Join(id), dataLimit);
    NextKeeps(w, Join(id), dataLimit);
  }

  /**
    No reachable state is a dead end.  As long as the queue can be read and there is
    space, one more tool that joins and works alone, after a deployment if there was
    none, puts every queued document whose CID decodes on chain, and nothing else.
   */
  lemma NoDeadEnd(steps: seq<Step>, dataLimit: nat) returns (id: nat, later: seq<Step>)
    requires Exec(INITIAL, steps, dataLimit).Some?
    requires
      var w := Exec(INITIAL, steps, dataLimit).value;
      Readable(w.queue, 0) && Fits(w.data, |Pending(w.queue, 0)|, dataLimit)
    ensures
      var w := Exec(INITIAL, steps, dataLimit).value;
      var end := Exec(w, later, dataLimit);
      && id !in w.tools
      && (forall s :: s in later ==> s == Join(id) || IsOwn(s, id) || (s == Deploy && w.data == []))
      && end.Some? && end.value.queue == w.queue
      && forall key :: key in ChainKeys(end.value.data) <==> key in ChainKeys(w.data) || IsDue(w.queue, U64_MAX, key)
  {
    hide Outcome, IsDue, IsDueBeyond, ToolInv;
    var w := Exec(INITIAL, steps, dataLimit).value;
    InitialInv(dataLimit);
    ExecKeeps(INITIAL, steps, dataLimit);
    id := UnusedId(w.tools.Keys);
    var deployed := DeployReaches(w, dataLimit);
    JoinReaches(deployed, id, dataLimit);
    var joined := deployed.(tools := deployed.tools[id := NEW_TOOL]);
    var work := TheWork(joined, id, dataLimit);
    ExecSplit(w, Deployment(w.data), [Join(id)], dataLimit);
    ExecSplit(w, Deployment(w.data) + [Join(id)], work, dataLimit);
    later := Deployment(w.data) + [Join(id)] + work;
    forall key: Cid
      ensures IsDueBeyond(w.queue, 0, key) <==> IsDue(w.queue, U64_MAX, key)
    {
      DueSplit(w.queue, 0, key);
      NothingDueYet(w.queue, key);
    }
  }

  lemma NothingDueYet(queue: seq<Line>, key: Cid)
    ensures !IsDue(queue, 0, key)
  {
  }

  /** A new tool's passes over the whole queue. */
  lemma TheWork(w: World, id: nat, dataLimit: nat) returns (work: seq<Step>)
    requires Inv(w, dataLimit) && id in w.tools && w.tools[id] == NEW_TOOL
    requires Readable(w.queue, 0) && Room(w.data, |Pending(w.queue, 0)|, dataLimit)
    ensures
      var end := Exec(w, work, dataLimit);
      && (forall s :: s in work ==> IsOwn(s, id))
      && end.Some? && end.value.queue == w.queue
      && forall key :: key in ChainKeys(end.value.data) <==> key in ChainKeys(w.data) || IsDueBeyond(w.queue, 0, key)
  {
    hide Outcome, IsDueBeyond, ToolInv, Room, Readable, Exec;
    var cfg, n := Config(1, 0, false, false), |Pending(w.queue, 0)|;
    var ticks := seq(n, _ => Tick(w.queue, 0));
    SameQueueGrows(w.queue, ticks);
    work := RunToolIsReachable(w, id, cfg, ticks, dataLimit);
    forall key: Cid
      ensures key in ChainKeys(Outcome(w, id, cfg, ticks, dataLimit).data)
         <==> key in ChainKeys(w.data) || IsDueBeyond(w.queue, 0, key)
    {
      RecoveryExact(w, id, cfg, ticks, dataLimit, key);
    }
  }

  lemma {:induction false} SameQueueGrows(queue: seq<Line>, ticks: seq<Tick>)
    requires Increasing(queue) && SameQueue(queue, ticks)
    ensures Grows(queue, ticks) && LastQueue(queue, ticks) == queue
    decreases |ticks|
  {
    if ticks != [] {
      assert forall k :: 0 <= k < |ticks[1..]| ==> ticks[1..][k] == ticks[k + 1];
      SameQueueGrows(queue, ticks[1..]);
    }
  }
}
