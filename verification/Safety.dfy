/** What holds in every state any interleaving can reach. */
module Safety {
  import opened Types
  import opened Borsh
  import opened Records
  import opened Registry
  import opened Guest
  import opened SpelArgs
  import opened Delivery
  import opened AnchorTool
  import opened Protocol
  import CidText

  lemma NextKeeps(w: World, s: Step, dataLimit: nat)
    requires Inv(w, dataLimit) && Next(w, s, dataLimit).Some?
    ensures
      var w' := Next(w, s, dataLimit).value;
      && Inv(w', dataLimit)
      && ChainRecords(w.data) <= ChainRecords(w'.data)
      && (FromBytes(w.data).Some? ==> FromBytes(w'.data).Some?)
  {
    hide Act, PhaseInv, Transact;
    var w' := Next(w, s, dataLimit).value;
    var keys := ChainKeys(w.data);
    match s
    case Append(line) =>
      forall id | id in w'.tools ensures ToolInv(w'.queue, keys, w'.tools[id]) {
        QueueGrows(w.queue, line, keys, w.tools[id]);
      }
    case Deploy =>
      AccountCodec(RegistryState([]), w'.data);
      AccountLength([]);
      forall id | id in w'.tools ensures ToolInv(w'.queue, ChainKeys(w'.data), w'.tools[id]) {
        assert keys == {} == ChainKeys(w'.data);
      }
    case Foreign(call) =>
      if Transact(w.data, call, dataLimit).Committed? {
        CommitGrows(w.data, call, dataLimit);
      }
      forall id | id in w'.tools ensures ToolInv(w'.queue, ChainKeys(w'.data), w'.tools[id]) {
        KeysGrow(w.queue, keys, ChainKeys(w'.data), w.tools[id]);
      }
    case Join(_) => NewToolInv(w.queue, keys);
    case ToolStep(id, a) =>
      ActKeeps(w.queue, w.data, w.tools[id], a, dataLimit);
      if FromBytes(w.data).Some? {
        ActDecodes(w.queue, w.data, w.tools[id], a, dataLimit);
      }
      forall other | other in w'.tools ensures ToolInv(w'.queue, ChainKeys(w'.data), w'.tools[other]) {
        if other != id {
          KeysGrow(w.queue, keys, ChainKeys(w'.data), w.tools[other]);
        }
      }
  }

  lemma NewToolInv(queue: seq<Line>, keys: set<Cid>)
    ensures ToolInv(queue, keys, NEW_TOOL)
  {
  }

  lemma ActDecodes(queue: seq<Line>, data: seq<Byte>, t: Tool, a: Action, dataLimit: nat)
    requires FromBytes(data).Some? && Act(queue, data, t, a, dataLimit).Some?
    requires ToolInv(queue, ChainKeys(data), t)
    ensures FromBytes(Act(queue, data, t, a, dataLimit).value.1).Some?
  {
    assert t.phase.Ready? ==> t.phase.entries != [];
    match a
    case SubmitReported(now) => SubmitKeeps(data, t.phase.entries, now, dataLimit);
    case SubmitUnreported(now) => SubmitKeeps(data, t.phase.entries, now, dataLimit);
    case _ =>
  }

  /** Along any run the invariant holds, and the old record list stays a prefix of the new one. */
  lemma {:induction false} ExecKeeps(w: World, steps: seq<Step>, dataLimit: nat)
    requires Inv(w, dataLimit) && Exec(w, steps, dataLimit).Some?
    ensures
      var w' := Exec(w, steps, dataLimit).value;
      && Inv(w', dataLimit)
      && ChainRecords(w.data) <= ChainRecords(w'.data)
      && (FromBytes(w.data).Some? ==> FromBytes(w'.data).Some?)
    decreases |steps|
  {
    if steps != [] {
      NextKeeps(w, steps[0], dataLimit);
      ExecKeeps(Next(w, steps[0], dataLimit).value, steps[1..], dataLimit);
    }
  }

  lemma {:induction false} ExecSplit(w: World, a: seq<Step>, b: seq<Step>, dataLimit: nat)
    requires Exec(w, a, dataLimit).Some?
    ensures Exec(w, a + b, dataLimit) == Exec(Exec(w, a, dataLimit).value, b, dataLimit)
    decreases |a|
  {
    if a == [] {
      assert a + b == b;
    } else {
      assert (a + b)[1..] == a[1..] + b;
      ExecSplit(Next(w, a[0], dataLimit).value, a[1..], b, dataLimit);
    }
  }

  lemma TwoSteps(w: World, a: Step, b: Step, dataLimit: nat)
    requires Next(w, a, dataLimit).Some?
    ensures Exec(w, [a, b], dataLimit) == Next(Next(w, a, dataLimit).value, b, dataLimit)
  {
    assert [a, b][1..] == [b];
    OneStep(Next(w, a, dataLimit).value, b, dataLimit);
  }

  lemma OneStep(w: World, a: Step, dataLimit: nat)
    ensures Exec(w, [a], dataLimit) == Next(w, a, dataLimit)
  {
    var next := Next(w, a, dataLimit);
    if next.Some? {
      assert Exec(next.value, [a][1..], dataLimit) == next;
    }
  }

  lemma InitialInv(dataLimit: nat)
    ensures Inv(INITIAL, dataLimit)
  {
  }

  // ----- dry runs -----

  ghost predicate NoDryRun(steps: seq<Step>, id: nat) {
    forall k :: 0 <= k < |steps| ==> steps[k] != ToolStep(id, DryRun)
  }

  lemma {:induction false} NoDryRunNoList(w: World, steps: seq<Step>, id: nat, dataLimit: nat)
    requires Exec(w, steps, dataLimit).Some? && NoDryRun(steps, id)
    requires id in w.tools ==> w.tools[id].listed == {}
    ensures
      var w' := Exec(w, steps, dataLimit).value;
      id in w'.tools ==> w'.tools[id].listed == {}
    decreases |steps|
  {
    if steps != [] {
      var w' := Next(w, steps[0], dataLimit).value;
      assert steps[0] != ToolStep(id, DryRun);
      assert NoDryRun(steps[1..], id) by {
        assert forall k :: 0 <= k < |steps[1..]| ==> steps[1..][k] == steps[k + 1];
      }
      NoDryRunNoList(w', steps[1..], id, dataLimit);
    }
  }

  /** The cursor a running process holds in memory. */
  function MemoryCursor(t: Tool): Option<U64> {
    if t.phase.Stopped? then None else Some(t.phase.p.cursor)
  }

  /**
    No document is lost.  However tools, chain, queue and crashes interleave, every
    queued document numbered at or below a tool's cursor, persisted or in memory,
    is on chain if its CID decodes, provided that tool never took a dry-run step.
   */
  lemma NoDocumentLost(steps: seq<Step>, dataLimit: nat, id: nat, i: nat)
    requires Exec(INITIAL, steps, dataLimit).Some? && NoDryRun(steps, id)
    requires
      var w := Exec(INITIAL, steps, dataLimit).value;
      id in w.tools && i < |w.queue| && w.queue[i].Json? && w.queue[i].payload.Some? && 1 <= Number(w.queue[i])
    ensures
      var w := Exec(INITIAL, steps, dataLimit).value;
      var key := CidText.DecodeCid(w.queue[i].payload.value.cid);
      var memory := MemoryCursor(w.tools[id]);
      && (key.Some? && Number(w.queue[i]) <= LoadedCursor(w.tools[id].db) ==> key.value in ChainKeys(w.data))
      && (key.Some? && memory.Some? && Number(w.queue[i]) <= memory.value ==> key.value in ChainKeys(w.data))
  {
    InitialInv(dataLimit);
    ExecKeeps(INITIAL, steps, dataLimit);
    NoDryRunNoList(INITIAL, steps, id, dataLimit);
    var w := Exec(INITIAL, steps, dataLimit).value;
    var t := w.tools[id];
    assert ToolInv(w.queue, ChainKeys(w.data), t);
    var key := CidText.DecodeCid(w.queue[i].payload.value.cid);
    if key.Some? && Number(w.queue[i]) <= LoadedCursor(t.db) {
      assert DueKey(w.queue[i], LoadedCursor(t.db)) == key;
    }
  }

  /** Local knowledge is sound: whatever a tool believes anchored is a readable CID that is on chain. */
  lemma LocalKnowledgeSound(steps: seq<Step>, dataLimit: nat, id: nat, cid: string)
    requires Exec(INITIAL, steps, dataLimit).Some?
    requires id in Exec(INITIAL, steps, dataLimit).value.tools
    requires cid in Exec(INITIAL, steps, dataLimit).value.tools[id].db.anchored
    ensures
      var w := Exec(INITIAL, steps, dataLimit).value;
      CidText.DecodeCid(cid).Some? && QueryByCid(w.data, CidText.DecodeCid(cid).value).Answer?
      && QueryByCid(w.data, CidText.DecodeCid(cid).value).record.Some?
  {
    InitialInv(dataLimit);
    ExecKeeps(INITIAL, steps, dataLimit);
    var w := Exec(INITIAL, steps, dataLimit).value;
    assert ToolInv(w.queue, ChainKeys(w.data), w.tools[id]);
    FindAppend(ChainRecords(w.data), [], CidText.DecodeCid(cid).value);
    assert Keys([]) == {};
  }

  /** An answer the registry has given once it gives forever: same digest, same timestamp. */
  lemma AnswersArePermanent(before: seq<Step>, later: seq<Step>, dataLimit: nat, cid: Cid)
    requires Exec(INITIAL, before, dataLimit).Some?
    requires Exec(Exec(INITIAL, before, dataLimit).value, later, dataLimit).Some?
    ensures
      var w := Exec(INITIAL, before, dataLimit).value;
      var w' := Exec(w, later, dataLimit).value;
      var answer := QueryByCid(w.data, cid);
      answer.Answer? && answer.record.Some? ==> QueryByCid(w'.data, cid) == answer
  {
    var w := Exec(INITIAL, before, dataLimit).value;
    InitialInv(dataLimit);
    ExecKeeps(INITIAL, before, dataLimit);
    ExecKeeps(w, later, dataLimit);
    FindStable(ChainRecords(w.data), ChainRecords(Exec(w, later, dataLimit).value.data), cid);
  }

  // ----- crashes around a submission -----

  /**
    Crash replay is harmless.  Once a tool's submission has reached the chain,
    whatever happens next (a crash, any number of marks, other tools), submitting
    the same entries again, or those not yet marked, leaves the bytes as they are.
   */
  lemma CrashReplayHarmless(before: seq<Step>, id: nat, submit: Action, now: U64, later: seq<Step>,
                            replay: seq<AnchorEntry>, again: U64, dataLimit: nat)
    requires Exec(INITIAL, before, dataLimit).Some?
    requires submit == SubmitReported(now) || submit == SubmitUnreported(now)
    requires 0 < |replay| <= MAX_BATCH_SIZE
    ensures
      var w := Exec(INITIAL, before, dataLimit).value;
      var end := Exec(w, [ToolStep(id, submit)] + later, dataLimit);
      end.Some? && id in w.tools && w.tools[id].phase.Ready?
      && EntryKeys(replay) <= EntryKeys(w.tools[id].phase.entries)
      ==> AnchorViaSpel(end.value.data, replay, again, dataLimit) == Committed(end.value.data)
  {
    var w := Exec(INITIAL, before, dataLimit).value;
    var steps := [ToolStep(id, submit)] + later;
    if Exec(w, steps, dataLimit).Some? && id in w.tools && w.tools[id].phase.Ready?
       && EntryKeys(replay) <= EntryKeys(w.tools[id].phase.entries) {
      InitialInv(dataLimit);
      ExecKeeps(INITIAL, before, dataLimit);
      ReplayAfter(w, id, submit, now, later, replay, again, dataLimit);
    }
  }

  lemma ReplayAfter(w: World, id: nat, submit: Action, now: U64, later: seq<Step>,
                    replay: seq<AnchorEntry>, again: U64, dataLimit: nat)
    requires Inv(w, dataLimit) && id in w.tools && w.tools[id].phase.Ready?
    requires submit == SubmitReported(now) || submit == SubmitUnreported(now)
    requires Exec(w, [ToolStep(id, submit)] + later, dataLimit).Some?
    requires 0 < |replay| <= MAX_BATCH_SIZE && EntryKeys(replay) <= EntryKeys(w.tools[id].phase.entries)
    ensures
      var w' := Exec(w, [ToolStep(id, submit)] + later, dataLimit).value;
      AnchorViaSpel(w'.data, replay, again, dataLimit) == Committed(w'.data)
  {
    hide Act, AnchorViaSpel;
    var steps := [ToolStep(id, submit)] + later;
    assert steps[1..] == later;
    var applied := Next(w, steps[0], dataLimit).value;
    NextKeeps(w, steps[0], dataLimit);
    assert w.tools[id].phase.entries != [] by {
      assert ToolInv(w.queue, ChainKeys(w.data), w.tools[id]);
    }
    SubmitLands(w, id, submit, now, dataLimit);
    ExecKeeps(applied, later, dataLimit);
    var w' := Exec(applied, later, dataLimit).value;
    PrefixKeys(ChainRecords(applied.data), ChainRecords(w'.data));
    ReplayOnChain(w'.data, replay, again, dataLimit);
  }

  lemma SubmitLands(w: World, id: nat, submit: Action, now: U64, dataLimit: nat)
    requires id in w.tools && w.tools[id].phase.Ready? && w.tools[id].phase.entries != []
    requires submit == SubmitReported(now) || submit == SubmitUnreported(now)
    requires Next(w, ToolStep(id, submit), dataLimit).Some?
    ensures
      var applied := Next(w, ToolStep(id, submit), dataLimit).value;
      FromBytes(applied.data).Some? && EntryKeys(w.tools[id].phase.entries) <= ChainKeys(applied.data)
  {
    ActLands(w.queue, w.data, w.tools[id], submit, now, dataLimit);
  }

  lemma ActLands(queue: seq<Line>, data: seq<Byte>, t: Tool, submit: Action, now: U64, dataLimit: nat)
    requires t.phase.Ready? && t.phase.entries != []
    requires submit == SubmitReported(now) || submit == SubmitUnreported(now)
    requires Act(queue, data, t, submit, dataLimit).Some?
    ensures
      var data' := Act(queue, data, t, submit, dataLimit).value.1;
      FromBytes(data').Some? && EntryKeys(t.phase.entries) <= ChainKeys(data')
  {
    SubmitKeeps(data, t.phase.entries, now, dataLimit);
  }

  lemma ReplayOnChain(data: seq<Byte>, replay: seq<AnchorEntry>, again: U64, dataLimit: nat)
    requires FromBytes(data).Some? && |data| <= dataLimit
    requires 0 < |replay| <= MAX_BATCH_SIZE && EntryKeys(replay) <= ChainKeys(data)
    ensures AnchorViaSpel(data, replay, again, dataLimit) == Committed(data)
  {
    var call := Call(replay, again);
    forall j | 0 <= j < |call.cids| ensures call.cids[j] in ChainKeys(data) {
      assert replay[j].cid in EntryKeys(replay);
    }
    ViaSpelIsTransact(data, replay, again, dataLimit);
    ReplayUnchanged(data, call, dataLimit);
  }

  lemma PrefixKeys(a: seq<DocumentRecord>, b: seq<DocumentRecord>)
    requires a <= b
    ensures Keys(a) <= Keys(b)
  {
    KeysAppend(a, b[|a|..]);
    assert b == a + b[|a|..];
  }

  /**
    On a deployed registry a tool's batch is refused exactly when it has more than 50
    entries, which a batch size of at most 50 rules out; otherwise only space can run out.
   */
  lemma RefusedExactly(steps: seq<Step>, id: nat, now: U64, dataLimit: nat)
    requires Exec(INITIAL, steps, dataLimit).Some?
    ensures
      var w := Exec(INITIAL, steps, dataLimit).value;
      w.data != [] && id in w.tools && w.tools[id].phase.Ready? ==>
        var p, es := w.tools[id].phase.p, w.tools[id].phase.entries;
        var r := AnchorViaSpel(w.data, es, now, dataLimit);
        && (r.Rejected? <==> MAX_BATCH_SIZE < |es|)
        && (p.cfg.batchSize <= MAX_BATCH_SIZE ==> r.Committed? || r.SerializationFailed?)
  {
    InitialInv(dataLimit);
    ExecKeeps(INITIAL, steps, dataLimit);
    var w := Exec(INITIAL, steps, dataLimit).value;
    if w.data != [] && id in w.tools && w.tools[id].phase.Ready? {
      var t := w.tools[id];
      var size := t.phase.p.cfg.batchSize;
      assert t.phase.entries != [] && |t.phase.entries| <= (if size == 0 then 1 else size) by {
        assert ToolInv(w.queue, ChainKeys(w.data), t);
      }
      RefusedByCount(w.data, t.phase.entries, now, dataLimit);
    }
  }

  lemma RefusedByCount(data: seq<Byte>, es: seq<AnchorEntry>, now: U64, dataLimit: nat)
    requires es != [] && FromBytes(data).Some?
    ensures
      var r := AnchorViaSpel(data, es, now, dataLimit);
      && (r.Rejected? <==> MAX_BATCH_SIZE < |es|)
      && (|es| <= MAX_BATCH_SIZE ==> r.Committed? || r.SerializationFailed?)
  {
    var known, call := Keys(FromBytes(data).value.records), Call(es, now);
    ViaSpelIsTransact(data, es, now, dataLimit);
    CollectExact(known, call, 0);
    assert forall j :: 0 <= j < |es| ==> Good(known, call, j);
  }

  // ----- cursors and caps -----

  lemma ActProgress(queue: seq<Line>, data: seq<Byte>, t: Tool, a: Action, dataLimit: nat)
    requires Act(queue, data, t, a, dataLimit).Some?
    requires t.phase.Saving? ==> LoadedCursor(t.db) <= t.phase.target
    ensures
      var t' := Act(queue, data, t, a, dataLimit).value.0;
      LoadedCursor(t.db) <= LoadedCursor(t'.db) && t.db.anchored <= t'.db.anchored
  {
    match a
    case Save => CursorPersists(t.db, t.phase.target, "");
    case Mark =>
      if t.phase.marked < |t.phase.entries| {
        CursorPersists(t.db, 0, t.phase.entries[t.phase.marked].text);
      }
    case _ =>
  }

  lemma NextProgress(w: World, s: Step, id: nat, dataLimit: nat)
    requires id in w.tools && ToolInv(w.queue, ChainKeys(w.data), w.tools[id]) && Next(w, s, dataLimit).Some?
    ensures
      var w' := Next(w, s, dataLimit).value;
      id in w'.tools && LoadedCursor(w.tools[id].db) <= LoadedCursor(w'.tools[id].db)
      && w.tools[id].db.anchored <= w'.tools[id].db.anchored
  {
    if s.ToolStep? && s.id == id {
      ActProgress(w.queue, w.data, w.tools[id], s.action, dataLimit);
    }
  }

  /** No crash or restart ever moves a tool back: its cursor and its anchored table only grow. */
  lemma {:induction false} ProgressIsPersistent(w: World, steps: seq<Step>, id: nat, dataLimit: nat)
    requires Inv(w, dataLimit) && Exec(w, steps, dataLimit).Some? && id in w.tools
    ensures
      var w' := Exec(w, steps, dataLimit).value;
      id in w'.tools && LoadedCursor(w.tools[id].db) <= LoadedCursor(w'.tools[id].db)
      && w.tools[id].db.anchored <= w'.tools[id].db.anchored
    decreases |steps|
  {
    if steps != [] {
      NextKeeps(w, steps[0], dataLimit);
      NextProgress(w, steps[0], id, dataLimit);
      ProgressIsPersistent(Next(w, steps[0], dataLimit).value, steps[1..], id, dataLimit);
    }
  }

  /** A positive batch cap is never exceeded. */
  lemma CapRespected(steps: seq<Step>, dataLimit: nat, id: nat)
    requires Exec(INITIAL, steps, dataLimit).Some? && id in Exec(INITIAL, steps, dataLimit).value.tools
    ensures
      var phase := Exec(INITIAL, steps, dataLimit).value.tools[id].phase;
      !phase.Stopped? && 0 < phase.p.cfg.maxBatches ==>
        && phase.p.submitted <= phase.p.cfg.maxBatches
        && (phase.Ready? || phase.Marking? ==> phase.p.submitted < phase.p.cfg.maxBatches)
  {
    InitialInv(dataLimit);
    ExecKeeps(INITIAL, steps, dataLimit);
    var w := Exec(INITIAL, steps, dataLimit).value;
    assert ToolInv(w.queue, ChainKeys(w.data), w.tools[id]);
  }

  /** What a running process may still submit under a positive cap. */
  function Budget(phase: Phase): int {
    if phase.Stopped? then 0
    else phase.p.cfg.maxBatches - phase.p.submitted - if phase.Marking? || (phase.Saving? && phase.counts) then 1 else 0
  }

  predicate IsSubmit(s: Step, id: nat) {
    s.ToolStep? && s.id == id && (s.action.SubmitReported? || s.action.SubmitUnreported? || s.action.SubmitFailed?)
  }

  function Submits(steps: seq<Step>, id: nat): nat {
    if steps == [] then 0 else (if IsSubmit(steps[0], id) then 1 else 0) + Submits(steps[1..], id)
  }

  predicate IsStart(s: Step, id: nat) {
    s.ToolStep? && s.id == id && s.action.Start?
  }

  ghost predicate NoStart(steps: seq<Step>, id: nat) {
    forall k :: 0 <= k < |steps| ==> !IsStart(steps[k], id)
  }

  ghost predicate Capped(phase: Phase) {
    !phase.Stopped? ==> 0 < phase.p.cfg.maxBatches
  }

  lemma ActBudget(queue: seq<Line>, data: seq<Byte>, t: Tool, a: Action, dataLimit: nat)
    requires ToolInv(queue, ChainKeys(data), t) && Capped(t.phase) && !a.Start?
    requires Act(queue, data, t, a, dataLimit).Some?
    ensures
      var t' := Act(queue, data, t, a, dataLimit).value.0;
      && Capped(t'.phase) && 0 <= Budget(t.phase)
      && Budget(t'.phase) + (if IsSubmit(ToolStep(0, a), 0) then 1 else 0) <= Budget(t.phase)
  {
    hide AnchorViaSpel;
  }

  lemma {:induction false} SubmitsWithinBudget(w: World, steps: seq<Step>, id: nat, dataLimit: nat)
    requires Inv(w, dataLimit) && Exec(w, steps, dataLimit).Some? && NoStart(steps, id)
    requires id in w.tools && Capped(w.tools[id].phase)
    ensures Submits(steps, id) <= Budget(w.tools[id].phase)
    decreases |steps|
  {
    hide Inv, Next, Capped, Budget;
    if steps == [] {
      assert 0 <= Budget(w.tools[id].phase) by {
        BudgetHeld(w, id, dataLimit);
      }
    } else {
      assert !IsStart(steps[0], id);
      assert forall k :: 0 <= k < |steps[1..]| ==> steps[1..][k] == steps[k + 1];
      NextKeeps(w, steps[0], dataLimit);
      NextBudget(w, steps[0], id, dataLimit);
      SubmitsWithinBudget(Next(w, steps[0], dataLimit).value, steps[1..], id, dataLimit);
    }
  }

  lemma BudgetHeld(w: World, id: nat, dataLimit: nat)
    requires Inv(w, dataLimit) && id in w.tools && Capped(w.tools[id].phase)
    ensures 0 <= Budget(w.tools[id].phase)
  {
    hide Capped, Budget, ToolInv;
    assert ToolInv(w.queue, ChainKeys(w.data), w.tools[id]);
    BudgetLeft(w.queue, ChainKeys(w.data), w.tools[id]);
  }

  lemma NextBudget(w: World, s: Step, id: nat, dataLimit: nat)
    requires Inv(w, dataLimit) && id in w.tools && Capped(w.tools[id].phase) && !IsStart(s, id)
    ensures Next(w, s, dataLimit).Some? ==>
      var w' := Next(w, s, dataLimit).value;
      && id in w'.tools && Capped(w'.tools[id].phase)
      && Budget(w'.tools[id].phase) + (if IsSubmit(s, id) then 1 else 0) <= Budget(w.tools[id].phase)
  {
    hide Act, Capped, Budget, ToolInv, Transact;
    assert ToolInv(w.queue, ChainKeys(w.data), w.tools[id]);
    if Next(w, s, dataLimit).Some? && s.ToolStep? && s.id == id {
      ActBudget(w.queue, w.data, w.tools[id], s.action, dataLimit);
    }
  }

  lemma BudgetLeft(queue: seq<Line>, keys: set<Cid>, t: Tool)
    requires ToolInv(queue, keys, t) && Capped(t.phase)
    ensures 0 <= Budget(t.phase)
  {
  }

  /** Between two starts of a tool with a positive cap there are at most that many submissions, failed ones included. */
  lemma SubmissionsCapped(before: seq<Step>, id: nat, cfg: Config, life: seq<Step>, dataLimit: nat)
    requires 0 < cfg.maxBatches && NoStart(life, id)
    requires Exec(INITIAL, before, dataLimit).Some?
    requires Exec(Exec(INITIAL, before, dataLimit).value, [ToolStep(id, Start(cfg))] + life, dataLimit).Some?
    ensures Submits(life, id) <= cfg.maxBatches
  {
    InitialInv(dataLimit);
    ExecKeeps(INITIAL, before, dataLimit);
    var w, start := Exec(INITIAL, before, dataLimit).value, ToolStep(id, Start(cfg));
    assert ([start] + life)[1..] == life;
    NextKeeps(w, start, dataLimit);
    SubmitsWithinBudget(Next(w, start, dataLimit).value, life, id, dataLimit);
  }

  /** Every reachable account is either untouched or decodes, 4 bytes and 86 per record long, within the limit. */
  lemma ReachableAccount(steps: seq<Step>, dataLimit: nat)
    requires Exec(INITIAL, steps, dataLimit).Some?
    ensures
      var data := Exec(INITIAL, steps, dataLimit).value.data;
      || data == []
      || (&& FromBytes(data).Some? && |data| == 4 + RECORD_BYTES * |FromBytes(data).value.records| <= dataLimit
          && ToBytes(FromBytes(data).value) == Some(data))
  {
    InitialInv(dataLimit);
    ExecKeeps(INITIAL, steps, dataLimit);
    var data := Exec(INITIAL, steps, dataLimit).value.data;
    AccountLength(data);
    if FromBytes(data).Some? {
      AccountCodec(FromBytes(data).value, data);
    }
  }

  // ----- nothing is invented -----

  /** Somebody other than the tools submitted this record. */
  ghost predicate IsForeign(steps: seq<Step>, r: DocumentRecord) {
    exists k :: 0 <= k < |steps| && steps[k].Foreign? && Submitted(steps[k].call, r)
  }

  lemma OnlyAddsAppend(queue: seq<Line>, line: Line, base: iset<DocumentRecord>, data: seq<Byte>)
    requires OnlyAdds(queue, 0, base, data)
    ensures OnlyAdds(queue + [line], 0, base, data)
  {
    forall r | r in ChainRecords(data) && r !in base ensures Enveloped(queue + [line], 0, r.cid, r.metadataHash) {
      var i :| 0 <= i < |queue| && DueKey(queue[i], U64_MAX) == Some(r.cid)
               && queue[i].payload.value.metaHash == r.metadataHash;
      assert (queue + [line])[i] == queue[i];
    }
  }

  lemma NextOnlyAdds(w: World, s: Step, base: iset<DocumentRecord>, dataLimit: nat)
    requires Inv(w, dataLimit) && OnlyAdds(w.queue, 0, base, w.data) && Next(w, s, dataLimit).Some?
    requires s.Foreign? ==> forall r :: Submitted(s.call, r) ==> r in base
    ensures OnlyAdds(Next(w, s, dataLimit).value.queue, 0, base, Next(w, s, dataLimit).value.data)
  {
    hide Act, PhaseInv, Transact, Submitted;
    match s
    case Append(line) => OnlyAddsAppend(w.queue, line, base, w.data);
    case Deploy => AccountCodec(RegistryState([]), Next(w, s, dataLimit).value.data);
    case Foreign(call) =>
      if Transact(w.data, call, dataLimit).Committed? {
        CommitGrows(w.data, call, dataLimit);
      }
    case Join(_) =>
    case ToolStep(id, a) => ActOnlyAdds(w.queue, 0, base, w.data, w.tools[id], a, dataLimit);
  }

  lemma {:induction false} ExecOnlyAdds(w: World, steps: seq<Step>, base: iset<DocumentRecord>, dataLimit: nat)
    requires Inv(w, dataLimit) && OnlyAdds(w.queue, 0, base, w.data) && Exec(w, steps, dataLimit).Some?
    requires forall r :: IsForeign(steps, r) ==> r in base
    ensures OnlyAdds(Exec(w, steps, dataLimit).value.queue, 0, base, Exec(w, steps, dataLimit).value.data)
    decreases |steps|
  {
    hide Inv, OnlyAdds, Submitted;
    if steps != [] {
      assert steps[0].Foreign? ==> forall r :: Submitted(steps[0].call, r) ==> IsForeign(steps, r);
      forall r | IsForeign(steps[1..], r) ensures IsForeign(steps, r) {
        var k :| 0 <= k < |steps[1..]| && steps[1..][k].Foreign? && Submitted(steps[1..][k].call, r);
        assert steps[k + 1] == steps[1..][k];
      }
      NextKeeps(w, steps[0], dataLimit);
      NextOnlyAdds(w, steps[0], base, dataLimit);
      ExecOnlyAdds(Next(w, steps[0], dataLimit).value, steps[1..], base, dataLimit);
    }
  }

  /**
    Nothing is invented or mixed up: every record on chain has the key and the digest of
    one queued envelope, or is what one position of somebody else's call asked for.
   */
  lemma NothingInvented(steps: seq<Step>, dataLimit: nat, r: DocumentRecord)
    requires Exec(INITIAL, steps, dataLimit).Some?
    requires r in ChainRecords(Exec(INITIAL, steps, dataLimit).value.data)
    ensures Enveloped(Exec(INITIAL, steps, dataLimit).value.queue, 0, r.cid, r.metadataHash) || IsForeign(steps, r)
  {
    InitialInv(dataLimit);
    assert ChainRecords([]) == [] by {
      AccountLength([]);
    }
    var others := iset r: DocumentRecord | IsForeign(steps, r) :: r;
    ExecOnlyAdds(INITIAL, steps, others, dataLimit);
  }

  // ----- unique keys -----

  /** The call a step sends to the registry. */
  ghost function Sends(w: World, s: Step): Option<SpelCall> {
    match s
    case Foreign(call) => Some(call)
    case ToolStep(id, a) =>
      if id in w.tools && w.tools[id].phase.Ready? && (a.SubmitReported? || a.SubmitUnreported?) then
        Some(Call(w.tools[id].phase.entries, a.now))
      else None
    case _ => None
  }

  /** Unless it is refused, the call repeats no key that is new to the chain. */
  ghost predicate IsTidy(data: seq<Byte>, call: SpelCall, dataLimit: nat) {
    Transact(data, call, dataLimit).Committed? ==>
      forall i, j :: 0 <= i < j < |call.cids| && call.cids[i] == call.cids[j] ==> call.cids[i] in ChainKeys(data)
  }

  ghost predicate TidyRun(w: World, steps: seq<Step>, dataLimit: nat)
    decreases |steps|
  {
    steps == [] ||
    (&& (Sends(w, steps[0]).Some? ==> IsTidy(w.data, Sends(w, steps[0]).value, dataLimit))
     && (Next(w, steps[0], dataLimit).Some? ==> TidyRun(Next(w, steps[0], dataLimit).value, steps[1..], dataLimit)))
  }

  lemma CallDistinct(data: seq<Byte>, call: SpelCall, dataLimit: nat)
    ensures Distinct(ChainRecords(NextData(data, call, dataLimit)))
       <==> Distinct(ChainRecords(data)) && IsTidy(data, call, dataLimit)
  {
    hide Transact;
    if Transact(data, call, dataLimit).Committed? {
      GuestDistinctExact(data, call, dataLimit);
    }
  }

  lemma NextDistinct(w: World, s: Step, dataLimit: nat)
    requires Inv(w, dataLimit) && Next(w, s, dataLimit).Some?
    ensures Distinct(ChainRecords(Next(w, s, dataLimit).value.data))
       <==> Distinct(ChainRecords(w.data)) && (Sends(w, s).Some? ==> IsTidy(w.data, Sends(w, s).value, dataLimit))
  {
    hide Transact, Distinct, IsTidy, PhaseInv, AnchorViaSpel;
    if Sends(w, s).Some? {
      CallDistinct(w.data, Sends(w, s).value, dataLimit);
      if s.ToolStep? {
        assert w.tools[s.id].phase.entries != [] by {
          ReadyEntries(w, s.id, dataLimit);
        }
        ViaSpelIsTransact(w.data, w.tools[s.id].phase.entries, s.action.now, dataLimit);
      }
    } else if s.Deploy? {
      AccountCodec(RegistryState([]), Next(w, s, dataLimit).value.data);
      AccountLength([]);
    } else if s.ToolStep? {
      QuietAct(w.queue, w.data, w.tools[s.id], s.action, dataLimit);
    }
  }

  lemma ReadyEntries(w: World, id: nat, dataLimit: nat)
    requires Inv(w, dataLimit) && id in w.tools && w.tools[id].phase.Ready?
    ensures w.tools[id].phase.entries != []
  {
    assert ToolInv(w.queue, ChainKeys(w.data), w.tools[id]);
  }

  lemma QuietAct(queue: seq<Line>, data: seq<Byte>, t: Tool, a: Action, dataLimit: nat)
    requires Act(queue, data, t, a, dataLimit).Some? && !a.SubmitReported? && !a.SubmitUnreported?
    ensures Act(queue, data, t, a, dataLimit).value.1 == data
  {
  }

  lemma {:induction false} ExecDistinct(w: World, steps: seq<Step>, dataLimit: nat)
    requires Inv(w, dataLimit) && Exec(w, steps, dataLimit).Some?
    ensures Distinct(ChainRecords(Exec(w, steps, dataLimit).value.data))
       <==> Distinct(ChainRecords(w.data)) && TidyRun(w, steps, dataLimit)
    decreases |steps|
  {
    hide Inv, IsTidy, Distinct, Sends;
    if steps != [] {
      NextKeeps(w, steps[0], dataLimit);
      NextDistinct(w, steps[0], dataLimit);
      ExecDistinct(Next(w, steps[0], dataLimit).value, steps[1..], dataLimit);
    }
  }

  /** The registry holds every key once exactly when no call of the run, the tools' or anyone's, repeats a new key. */
  lemma KeysUniqueExactly(steps: seq<Step>, dataLimit: nat)
    requires Exec(INITIAL, steps, dataLimit).Some?
    ensures Distinct(ChainRecords(Exec(INITIAL, steps, dataLimit).value.data)) <==> TidyRun(INITIAL, steps, dataLimit)
  {
    InitialInv(dataLimit);
    AccountLength([]);
    ExecDistinct(INITIAL, steps, dataLimit);
  }

  /** Tools see no window with two messages to anchor for one CID, and nobody else repeats a new key. */
  ghost predicate CleanRun(w: World, steps: seq<Step>, dataLimit: nat)
    decreases |steps|
  {
    steps == [] ||
    (&& (steps[0].Foreign? ==> IsTidy(w.data, steps[0].call, dataLimit))
     && (forall id :: steps[0] == ToolStep(id, Filter) && id in w.tools && w.tools[id].phase.HasMessages? ==>
           !WindowRepeats(w.tools[id].db.anchored, w.tools[id].phase.messages))
     && (Next(w, steps[0], dataLimit).Some? ==> CleanRun(Next(w, steps[0], dataLimit).value, steps[1..], dataLimit)))
  }

  ghost predicate NoReadyRepeats(w: World) {
    forall id :: id in w.tools && w.tools[id].phase.Ready? ==> !KeysRepeat(w.tools[id].phase.entries)
  }

  lemma {:induction false} CleanRunIsTidy(w: World, steps: seq<Step>, dataLimit: nat)
    requires NoReadyRepeats(w) && CleanRun(w, steps, dataLimit)
    ensures TidyRun(w, steps, dataLimit)
    decreases |steps|
  {
    hide IsTidy, KeysRepeat, WindowRepeats, AnchorViaSpel;
    if steps != [] {
      CleanCall(w, steps[0], dataLimit);
      if Next(w, steps[0], dataLimit).Some? {
        CleanNext(w, steps[0], dataLimit);
        CleanRunIsTidy(Next(w, steps[0], dataLimit).value, steps[1..], dataLimit);
      }
    }
  }

  lemma CleanCall(w: World, s: Step, dataLimit: nat)
    requires NoReadyRepeats(w) && (s.Foreign? ==> IsTidy(w.data, s.call, dataLimit))
    ensures Sends(w, s).Some? ==> IsTidy(w.data, Sends(w, s).value, dataLimit)
  {
    hide Transact;
    if Sends(w, s).Some? && s.ToolStep? {
      var es := w.tools[s.id].phase.entries;
      assert forall i :: 0 <= i < |es| ==> Sends(w, s).value.cids[i] == es[i].cid;
    }
  }

  lemma CleanNext(w: World, s: Step, dataLimit: nat)
    requires NoReadyRepeats(w) && Next(w, s, dataLimit).Some?
    requires forall id :: s == ToolStep(id, Filter) && id in w.tools && w.tools[id].phase.HasMessages? ==>
      !WindowRepeats(w.tools[id].db.anchored, w.tools[id].phase.messages)
    ensures NoReadyRepeats(Next(w, s, dataLimit).value)
  {
    hide KeysRepeat, WindowRepeats, AnchorViaSpel, Gather;
    if s.ToolStep? && s.action.Filter? {
      var t := w.tools[s.id];
      assert s == ToolStep(s.id, Filter);
      GatherRepeatsExactly(t.db.anchored, t.phase.messages);
    }
  }

  /** So keys are unique as long as no window holds two messages to anchor for one CID. */
  lemma CleanRunKeepsKeysUnique(steps: seq<Step>, dataLimit: nat)
    requires Exec(INITIAL, steps, dataLimit).Some? && CleanRun(INITIAL, steps, dataLimit)
    ensures Distinct(ChainRecords(Exec(INITIAL, steps, dataLimit).value.data))
  {
    CleanRunIsTidy(INITIAL, steps, dataLimit);
    KeysUniqueExactly(steps, dataLimit);
  }

  // ----- since a given cursor -----

  /** The tool is not running dry, and what it has passed since the cursor `from` is in `keys`. */
  ghost predicate Since(queue: seq<Line>, from: U64, keys: set<Cid>, t: Tool) {
    && from <= LoadedCursor(t.db) && Between(queue, from, LoadedCursor(t.db), keys)
    && (!t.phase.Stopped? ==> !t.phase.p.cfg.dryRun)
  }

  lemma ActSince(queue: seq<Line>, from: U64, data: seq<Byte>, t: Tool, a: Action, dataLimit: nat)
    requires Increasing(queue) && DataInv(data, dataLimit) && ToolInv(queue, ChainKeys(data), t)
    requires Act(queue, data, t, a, dataLimit).Some? && !a.Start? && Since(queue, from, ChainKeys(data), t)
    ensures
      var (t', data') := Act(queue, data, t, a, dataLimit).value;
      Since(queue, from, ChainKeys(data'), t')
  {
    hide AfterFilter, AnchorViaSpel, WithCursor, WithAnchored, LoadedCursor, Polled, CidText.DecodeCid;
    ActKeeps(queue, data, t, a, dataLimit);
    match a
    case Save => CursorPersists(t.db, t.phase.target, "");
    case Mark =>
      if t.phase.marked < |t.phase.entries| {
        CursorPersists(t.db, 0, t.phase.entries[t.phase.marked].text);
      }
    case Filter => FilteredProcess(t);
    case _ =>
  }

  lemma FilteredProcess(t: Tool)
    requires t.phase.HasMessages?
    ensures
      var phase := AfterFilter(t.db, t.phase.p, t.phase.messages);
      !phase.Stopped? && phase.p == t.phase.p
  {
  }

  lemma NextSince(w: World, s: Step, id: nat, from: U64, dataLimit: nat)
    requires Inv(w, dataLimit) && Next(w, s, dataLimit).Some? && !IsStart(s, id)
    requires id in w.tools && Since(w.queue, from, ChainKeys(w.data), w.tools[id])
    ensures
      var w' := Next(w, s, dataLimit).value;
      id in w'.tools && Since(w'.queue, from, ChainKeys(w'.data), w'.tools[id])
  {
    hide Act, Transact, LoadedCursor, Increasing, PhaseInv, WithinQueue;
    var t := w.tools[id];
    assert ToolInv(w.queue, ChainKeys(w.data), t);
    NextKeeps(w, s, dataLimit);
    var w' := Next(w, s, dataLimit).value;
    PrefixKeys(ChainRecords(w.data), ChainRecords(w'.data));
    if s.Append? {
      BetweenAppend(w.queue, s.line, from, LoadedCursor(t.db), ChainKeys(w.data));
    } else if s.ToolStep? && s.id == id {
      ActSince(w.queue, from, w.data, t, s.action, dataLimit);
    }
  }

  /** However others interleave, what a tool passes without running dry is on chain. */
  lemma {:induction false} ExecSince(w: World, steps: seq<Step>, id: nat, from: U64, dataLimit: nat)
    requires Inv(w, dataLimit) && Exec(w, steps, dataLimit).Some? && NoStart(steps, id)
    requires id in w.tools && Since(w.queue, from, ChainKeys(w.data), w.tools[id])
    ensures
      var w' := Exec(w, steps, dataLimit).value;
      id in w'.tools && Since(w'.queue, from, ChainKeys(w'.data), w'.tools[id])
    decreases |steps|
  {
    hide Inv, Since;
    if steps != [] {
      assert !IsStart(steps[0], id);
      assert forall k :: 0 <= k < |steps[1..]| ==> steps[1..][k] == steps[k + 1];
      NextKeeps(w, steps[0], dataLimit);
      NextSince(w, steps[0], id, from, dataLimit);
      ExecSince(Next(w, steps[0], dataLimit).value, steps[1..], id, from, dataLimit);
    }
  }
}
