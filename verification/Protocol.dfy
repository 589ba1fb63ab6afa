/**
  Any number of batch-anchor tools, each with its own database, on one queue and
  one chain.  A tool can stop between any two of its steps and be started again;
  anyone may append to the queue or send transactions at any time.
 */
module Protocol {
  import opened Types
  import opened Borsh
  import opened Records
  import opened Guest
  import opened SpelArgs
  import opened Delivery
  import opened AnchorTool
  import CidText

  datatype Config = Config(batchSize: nat, maxBatches: nat, dryRun: bool, once: bool)

  /** The variables of one running process. */
  datatype Process = Process(cfg: Config, cursor: U64, submitted: nat)

  datatype Phase =
    | Stopped
    | Polling(p: Process)
    | HasMessages(p: Process, messages: seq<DeliveryMsg>)
    | Ready(p: Process, entries: seq<AnchorEntry>, target: U64)
    | Marking(p: Process, entries: seq<AnchorEntry>, marked: nat, target: U64)
    | Saving(p: Process, target: U64, counts: bool)

  /** `listed` collects the keys of the entries a dry run of the tool has printed instead of anchoring. */
  datatype Tool = Tool(db: Db, phase: Phase, listed: set<Cid>)

  const NEW_TOOL := Tool(EMPTY_DB, Stopped, {})

  datatype World = World(queue: seq<Line>, data: seq<Byte>, tools: map<nat, Tool>)

  datatype Action =
    | Start(cfg: Config)
    | ReachCap
    | Poll
    | Filter
    | SubmitReported(now: U64)
    | SubmitUnreported(now: U64)
    | SubmitFailed
    | DryRun
    | Mark
    | Save
    | Crash

  datatype Step =
    | Append(line: Line)
    | Deploy
    | Foreign(call: SpelCall)
    | Join(id: nat)
    | ToolStep(id: nat, action: Action)

  // ----- one tool -----

  function EntryKeys(es: seq<AnchorEntry>): set<Cid> {
    set i | 0 <= i < |es| :: es[i].cid
  }

  predicate CapReached(p: Process) {
    0 < p.cfg.maxBatches <= p.submitted
  }

  /** One action of a tool, with the account data after it; `None` when it is not enabled. */
  function Act(queue: seq<Line>, data: seq<Byte>, t: Tool, a: Action, dataLimit: nat): Option<(Tool, seq<Byte>)> {
    match (a, t.phase)
    case (Crash, Stopped) => None
    case (Crash, _) => Some((t.(phase := Stopped), data))
    case (Start(cfg), Stopped) => Some((t.(phase := Polling(Process(cfg, LoadedCursor(t.db), 0))), data))
    case (ReachCap, Polling(p)) => if CapReached(p) then Some((t.(phase := Stopped), data)) else None
    case (Poll, Polling(p)) => if CapReached(p) then None else Some((t.(phase := AfterPoll(queue, p)), data))
    case (Filter, HasMessages(p, ms)) => Some((t.(phase := AfterFilter(t.db, p, ms)), data))
    case (SubmitReported(now), Ready(p, es, target)) =>
      var r := AnchorViaSpel(data, es, now, dataLimit);
      if !p.cfg.dryRun && r.Committed? then Some((t.(phase := Marking(p, es, 0, target)), r.data)) else None
    case (SubmitUnreported(now), Ready(p, es, _)) =>
      var r := AnchorViaSpel(data, es, now, dataLimit);
      if !p.cfg.dryRun && r.Committed? then Some((t.(phase := Stopped), r.data)) else None
    case (SubmitFailed, Ready(p, _, _)) => if p.cfg.dryRun then None else Some((t.(phase := Stopped), data))
    case (DryRun, Ready(p, es, target)) =>
      if p.cfg.dryRun then Some((t.(phase := Saving(p, target, true), listed := t.listed + EntryKeys(es)), data))
      else None
    case (Mark, Marking(p, es, k, target)) =>
      if k < |es| then
        Some((t.(db := WithAnchored(t.db, es[k].text), phase := Marking(p, es, k + 1, target)), data))
      else Some((t.(phase := Saving(p, target, true)), data))
    case (Save, Saving(p, target, counts)) =>
      Some((t.(db := WithCursor(t.db, target), phase := AfterSave(p, target, counts)), data))
    case _ => None
  }

  function AfterPoll(queue: seq<Line>, p: Process): Phase {
    match Polled(queue, p.cursor, p.cfg.batchSize)
    case None => Stopped
    case Some(ms) => if ms != [] then HasMessages(p, ms) else if p.cfg.once then Stopped else Polling(p)
  }

  function AfterFilter(db: Db, p: Process, ms: seq<DeliveryMsg>): Phase {
    var es, target := Gather(db.anchored, ms), MaxNumber(ms, p.cursor);
    if es == [] then Saving(p, target, false) else Ready(p, es, target)
  }

  function AfterSave(p: Process, target: U64, counts: bool): Phase {
    if p.cfg.once then Stopped
    else Polling(p.(cursor := target, submitted := p.submitted + if counts then 1 else 0))
  }

  // ----- the whole system -----

  /** The fresh system: no registry account yet, nothing queued, nobody running. */
  const INITIAL := World([], [], map[])

  ghost function Next(w: World, s: Step, dataLimit: nat): Option<World> {
    match s
    case Append(line) => if Increasing(w.queue + [line]) then Some(w.(queue := w.queue + [line])) else None
    case Deploy =>
      var r := Store(RegistryState([]), dataLimit);
      if w.data == [] && r.Committed? then Some(w.(data := r.data)) else None
    case Foreign(call) => Some(w.(data := NextData(w.data, call, dataLimit)))
    case Join(id) => if id in w.tools then None else Some(w.(tools := w.tools[id := NEW_TOOL]))
    case ToolStep(id, a) =>
      if id !in w.tools then None
      else
        match Act(w.queue, w.data, w.tools[id], a, dataLimit)
        case None => None
        case Some((t, data)) => Some(w.(data := data, tools := w.tools[id := t]))
  }

  ghost function Exec(w: World, steps: seq<Step>, dataLimit: nat): Option<World>
    decreases |steps|
  {
    if steps == [] then Some(w)
    else
      match Next(w, steps[0], dataLimit)
      case None => None
      case Some(w') => Exec(w', steps[1..], dataLimit)
  }

  // ----- the invariant -----

  function ChainRecords(data: seq<Byte>): seq<DocumentRecord> {
    match FromBytes(data)
    case None => []
    case Some(st) => st.records
  }

  function ChainKeys(data: seq<Byte>): set<Cid> {
    Keys(ChainRecords(data))
  }

  /** The key of a queue line numbered in `1..c` whose CID decodes. */
  function DueKey(line: Line, c: U64): Option<Cid> {
    if line.Json? && line.payload.Some? && 1 <= Number(line) <= c then CidText.DecodeCid(line.payload.value.cid)
    else None
  }

  /** Every document the queue numbers above `from` and up to `c` is in `keys`. */
  ghost predicate Between(queue: seq<Line>, from: U64, c: U64, keys: set<Cid>) {
    forall i :: 0 <= i < |queue| && DueKey(queue[i], c).Some? && from < Number(queue[i])
                ==> DueKey(queue[i], c).value in keys
  }

  /** Every document the queue numbers up to `c` is in `keys`. */
  ghost predicate Covered(queue: seq<Line>, c: U64, keys: set<Cid>) {
    Between(queue, 0, c, keys)
  }

  ghost predicate WithinQueue(queue: seq<Line>, c: U64) {
    c == 0 || exists i :: 0 <= i < |queue| && queue[i].Json? && c <= Number(queue[i])
  }

  const U64_MAX: U64 := 0xFFFF_FFFF_FFFF_FFFF

  ghost predicate IsDue(queue: seq<Line>, c: U64, key: Cid) {
    exists i :: 0 <= i < |queue| && DueKey(queue[i], c) == Some(key)
  }

  /** The key of a document queued with a number above `from`. */
  ghost predicate IsDueBeyond(queue: seq<Line>, from: U64, key: Cid) {
    exists i :: 0 <= i < |queue| && DueKey(queue[i], U64_MAX) == Some(key) && from < Number(queue[i])
  }

  /** The entry was read from a queue line numbered above `from` and up to `c`. */
  ghost predicate ReadFrom(queue: seq<Line>, e: AnchorEntry, from: U64, c: U64) {
    exists i :: 0 <= i < |queue| && DueKey(queue[i], c) == Some(e.cid) && from < Number(queue[i])
                && queue[i].payload.value == Payload(e.text, e.hash)
  }

  ghost predicate FromQueue(queue: seq<Line>, es: seq<AnchorEntry>, from: U64, c: U64) {
    forall e :: e in es ==> ReadFrom(queue, e, from, c)
  }

  ghost predicate UnderCap(p: Process) {
    0 < p.cfg.maxBatches ==> p.submitted < p.cfg.maxBatches
  }

  /** Some readable line numbered above `after` carries the message. */
  ghost predicate IsQueued(queue: seq<Line>, after: U64, m: DeliveryMsg) {
    exists i :: 0 <= i < |queue| && IsPending(queue[i], after) && queue[i].payload.Some? && Message(queue[i]) == m
  }

  ghost predicate Seen(queue: seq<Line>, p: Process, ms: seq<DeliveryMsg>) {
    var c := MaxNumber(ms, p.cursor);
    && ms != []
    && |ms| <= (if p.cfg.batchSize == 0 then 1 else p.cfg.batchSize)
    && WithinQueue(queue, c)
    && (forall m :: m in ms ==>
          IsQueued(queue, p.cursor, m))
    && (forall i :: 0 <= i < |queue| && IsPending(queue[i], p.cursor) && Number(queue[i]) <= c && queue[i].payload.Some?
          ==> Message(queue[i]) in ms)
  }

  ghost predicate PhaseInv(queue: seq<Line>, keys: set<Cid>, t: Tool) {
    match t.phase
    case Stopped => true
    case Polling(p) =>
      p.cursor == LoadedCursor(t.db) && (0 < p.cfg.maxBatches ==> p.submitted <= p.cfg.maxBatches)
    case HasMessages(p, ms) =>
      p.cursor == LoadedCursor(t.db) && UnderCap(p) && Seen(queue, p, ms)
    case Ready(p, es, target) =>
      && p.cursor == LoadedCursor(t.db) <= target && UnderCap(p) && WithinQueue(queue, target)
      && es != [] && |es| <= (if p.cfg.batchSize == 0 then 1 else p.cfg.batchSize)
      && FromQueue(queue, es, p.cursor, target)
      && Between(queue, p.cursor, target, keys + EntryKeys(es))
    case Marking(p, es, k, target) =>
      && p.cursor == LoadedCursor(t.db) <= target && UnderCap(p) && WithinQueue(queue, target)
      && FromQueue(queue, es, p.cursor, target) && EntryKeys(es) <= keys && k <= |es|
      && Between(queue, p.cursor, target, keys)
    case Saving(p, target, counts) =>
      && p.cursor == LoadedCursor(t.db) <= target && UnderCap(p) && WithinQueue(queue, target)
      && Between(queue, p.cursor, target, if p.cfg.dryRun then keys + t.listed else keys)
  }

  ghost predicate ToolInv(queue: seq<Line>, keys: set<Cid>, t: Tool) {
    && (forall cid :: cid in t.db.anchored ==>
          CidText.DecodeCid(cid).Some? && CidText.DecodeCid(cid).value in keys)
    && WithinQueue(queue, LoadedCursor(t.db))
    && Covered(queue, LoadedCursor(t.db), keys + t.listed)
    && PhaseInv(queue, keys, t)
  }

  ghost predicate Inv(w: World, dataLimit: nat) {
    && Increasing(w.queue)
    && (w.data == [] || FromBytes(w.data).Some?)
    && |w.data| <= dataLimit
    && forall id :: id in w.tools ==> ToolInv(w.queue, ChainKeys(w.data), w.tools[id])
  }

  // ----- stability: other parties cannot break a tool's invariant -----

  lemma KeysGrow(queue: seq<Line>, keys: set<Cid>, more: set<Cid>, t: Tool)
    requires ToolInv(queue, keys, t) && keys <= more
    ensures ToolInv(queue, more, t)
  {
  }

  lemma BetweenAppend(queue: seq<Line>, line: Line, from: U64, c: U64, keys: set<Cid>)
    requires Increasing(queue + [line]) && WithinQueue(queue, c) && Between(queue, from, c, keys)
    ensures Between(queue + [line], from, c, keys)
  {
    var longer := queue + [line];
    if c != 0 {
      var i :| 0 <= i < |queue| && queue[i].Json? && c <= Number(queue[i]);
      assert longer[i] == queue[i] && longer[|queue|] == line;
    }
  }

  lemma FromQueueAppend(queue: seq<Line>, line: Line, es: seq<AnchorEntry>, from: U64, c: U64)
    requires FromQueue(queue, es, from, c)
    ensures FromQueue(queue + [line], es, from, c)
  {
    forall e | e in es ensures ReadFrom(queue + [line], e, from, c) {
      var i :| 0 <= i < |queue| && DueKey(queue[i], c) == Some(e.cid) && from < Number(queue[i])
               && queue[i].payload.value == Payload(e.text, e.hash);
      assert (queue + [line])[i] == queue[i];
    }
  }

  lemma WithinAppend(queue: seq<Line>, line: Line, c: U64)
    requires WithinQueue(queue, c)
    ensures WithinQueue(queue + [line], c)
  {
    if c != 0 {
      var i :| 0 <= i < |queue| && queue[i].Json? && c <= Number(queue[i]);
      assert (queue + [line])[i] == queue[i];
    }
  }

  lemma SeenAppend(queue: seq<Line>, line: Line, p: Process, ms: seq<DeliveryMsg>)
    requires Increasing(queue + [line]) && Seen(queue, p, ms)
    ensures Seen(queue + [line], p, ms)
  {
    var longer := queue + [line];
    var c := MaxNumber(ms, p.cursor);
    WithinAppend(queue, line, c);
    assert longer[|queue|] == line;
    forall m | m in ms
      ensures IsQueued(longer, p.cursor, m)
    {
      var i :| 0 <= i < |queue| && IsPending(queue[i], p.cursor) && queue[i].payload.Some? && Message(queue[i]) == m;
      assert longer[i] == queue[i];
    }
    if IsPending(line, p.cursor) && c != 0 {
      var i :| 0 <= i < |queue| && queue[i].Json? && c <= Number(queue[i]);
      assert longer[i] == queue[i];
      assert c < Number(line);
    }
  }

  lemma QueueGrows(queue: seq<Line>, line: Line, keys: set<Cid>, t: Tool)
    requires Increasing(queue + [line]) && ToolInv(queue, keys, t)
    ensures ToolInv(queue + [line], keys, t)
  {
    hide Increasing, WithinQueue, Between, FromQueue, LoadedCursor;
    var keys' := keys + t.listed;
    WithinAppend(queue, line, LoadedCursor(t.db));
    BetweenAppend(queue, line, 0, LoadedCursor(t.db), keys');
    match t.phase
    case Stopped =>
    case Polling(_) =>
    case HasMessages(p, ms) => SeenAppend(queue, line, p, ms);
    case Ready(p, es, target) =>
      WithinAppend(queue, line, target);
      FromQueueAppend(queue, line, es, p.cursor, target);
      BetweenAppend(queue, line, p.cursor, target, keys + EntryKeys(es));
    case Marking(p, es, _, target) =>
      WithinAppend(queue, line, target);
      FromQueueAppend(queue, line, es, p.cursor, target);
      BetweenAppend(queue, line, p.cursor, target, keys);
    case Saving(p, target, _) =>
      WithinAppend(queue, line, target);
      BetweenAppend(queue, line, p.cursor, target, if p.cfg.dryRun then keys' else keys);
  }

  // ----- one action keeps the acting tool's invariant -----

  /** No pending line up to the highest number of a window is missing from the window. */
  lemma WindowComplete(queue: seq<Line>, after: U64, limit: nat, line: Line)
    requires Increasing(queue) && line in queue
    requires
      var c := MaxNumber(Window(queue, after, limit), after);
      IsPending(line, after) && Number(line) <= c && line.payload.Some?
    ensures Message(line) in Window(queue, after, limit)
  {
    var pending, window := Pending(queue, after), Window(queue, after, limit);
    var c := MaxNumber(window, after);
    AdvanceOnIncreasing(queue, after, limit);
    PendingSource(queue, after);
    PendingSource(queue, c);
    var i :| 0 <= i < |queue| && queue[i] == line;
    assert Message(queue[i]) in pending;
    forall j | |window| <= j < |pending| ensures pending[j] != Message(line) {
      assert pending[|window|..][j - |window|] == pending[j];
      assert pending[j] in Pending(queue, c);
    }
  }

  lemma WindowSource(queue: seq<Line>, after: U64, limit: nat, m: DeliveryMsg)
    requires m in Window(queue, after, limit)
    ensures IsQueued(queue, after, m)
  {
    PendingSource(queue, after);
    assert m in Pending(queue, after);
  }

  lemma PollKeeps(queue: seq<Line>, p: Process)
    requires Increasing(queue) && WithinQueue(queue, p.cursor) && AfterPoll(queue, p).HasMessages?
    ensures AfterPoll(queue, p).p == p && Seen(queue, p, AfterPoll(queue, p).messages)
  {
    var ms := AfterPoll(queue, p).messages;
    var limit := p.cfg.batchSize;
    PollWindow(queue, p.cursor, limit);
    var c := MaxNumber(ms, p.cursor);
    forall m | m in ms
      ensures IsQueued(queue, p.cursor, m)
    {
      WindowSource(queue, p.cursor, limit, m);
    }
    if c != p.cursor {
      var m :| m in ms && m.number == c;
    }
    forall i | 0 <= i < |queue| && IsPending(queue[i], p.cursor) && Number(queue[i]) <= c && queue[i].payload.Some?
      ensures Message(queue[i]) in ms
    {
      WindowComplete(queue, p.cursor, limit, queue[i]);
    }
  }

  lemma FilterKeeps(queue: seq<Line>, keys: set<Cid>, t: Tool)
    requires t.phase.HasMessages? && ToolInv(queue, keys, t)
    ensures ToolInv(queue, keys, t.(phase := AfterFilter(t.db, t.phase.p, t.phase.messages)))
  {
    var p, ms := t.phase.p, t.phase.messages;
    var es, target := Gather(t.db.anchored, ms), MaxNumber(ms, p.cursor);
    GatherExact(t.db.anchored, ms);
    forall e | e in es ensures ReadFrom(queue, e, p.cursor, target) {
      var m :| m in ms && m.payload == Payload(e.text, e.hash);
      var i :| 0 <= i < |queue| && IsPending(queue[i], p.cursor) && queue[i].payload.Some? && Message(queue[i]) == m;
      assert DueKey(queue[i], target) == Some(e.cid);
    }
    FilterCovers(queue, keys, t, es);
    assert es == [] ==> keys + EntryKeys(es) == keys;
  }

  lemma FilterCovers(queue: seq<Line>, keys: set<Cid>, t: Tool, es: seq<AnchorEntry>)
    requires t.phase.HasMessages? && ToolInv(queue, keys, t)
    requires es == Gather(t.db.anchored, t.phase.messages)
    ensures Between(queue, t.phase.p.cursor, MaxNumber(t.phase.messages, t.phase.p.cursor), keys + EntryKeys(es))
  {
    var p, ms := t.phase.p, t.phase.messages;
    var target := MaxNumber(ms, p.cursor);
    forall i | 0 <= i < |queue| && DueKey(queue[i], target).Some? && p.cursor < Number(queue[i])
      ensures DueKey(queue[i], target).value in keys + EntryKeys(es)
    {
      var key, m := DueKey(queue[i], target).value, Message(queue[i]);
      assert m in ms;
      if m.payload.cid !in t.db.anchored {
        GatherExact(t.db.anchored, ms);
        var e := AnchorEntry(key, m.payload.metaHash, m.payload.cid);
        assert e in es;
        var k :| 0 <= k < |es| && es[k] == e;
        assert es[k].cid in EntryKeys(es);
      }
    }
  }

  /** Some envelope queued with a number above `from` has this key and this digest. */
  ghost predicate Enveloped(queue: seq<Line>, from: U64, key: Cid, hash: Hash) {
    exists i :: 0 <= i < |queue| && DueKey(queue[i], U64_MAX) == Some(key) && from < Number(queue[i])
                && queue[i].payload.value.metaHash == hash
  }

  /** Every record on chain is in `base` or has the key and digest of one envelope queued above `from`. */
  ghost predicate OnlyAdds(queue: seq<Line>, from: U64, base: iset<DocumentRecord>, data: seq<Byte>) {
    forall r :: r in ChainRecords(data) ==> r in base || Enveloped(queue, from, r.cid, r.metadataHash)
  }

  /** The record one entry becomes. */
  function EntryRecord(e: AnchorEntry, now: U64): DocumentRecord {
    DocumentRecord(e.cid, e.hash, now)
  }

  lemma SubmitKeeps(data: seq<Byte>, es: seq<AnchorEntry>, now: U64, dataLimit: nat)
    requires es != [] && AnchorViaSpel(data, es, now, dataLimit).Committed?
    ensures
      var after := AnchorViaSpel(data, es, now, dataLimit).data;
      && FromBytes(after).Some? && |after| <= dataLimit
      && ChainRecords(data) <= ChainRecords(after)
      && ChainKeys(data) <= ChainKeys(after) && EntryKeys(es) <= ChainKeys(after)
      && (forall r :: r in ChainRecords(after) ==>
            r in ChainRecords(data) || exists e :: e in es && r == EntryRecord(e, now))
  {
    var call := Call(es, now);
    ViaSpelIsTransact(data, es, now, dataLimit);
    CommitGrows(data, call, dataLimit);
    assert forall i :: 0 <= i < |es| ==> call.cids[i] == es[i].cid;
    forall r | Submitted(call, r) ensures exists e :: e in es && r == EntryRecord(e, now) {
      var i: nat :| IsPosition(call, r, i);
      assert es[i] in es && r == EntryRecord(es[i], now);
    }
  }

  lemma SubmitOnlyAdds(queue: seq<Line>, from: U64, base: iset<DocumentRecord>, data: seq<Byte>, t: Tool,
                       now: U64, dataLimit: nat)
    requires t.phase.Ready? && ToolInv(queue, ChainKeys(data), t) && from <= LoadedCursor(t.db)
    requires OnlyAdds(queue, from, base, data) && AnchorViaSpel(data, t.phase.entries, now, dataLimit).Committed?
    ensures OnlyAdds(queue, from, base, AnchorViaSpel(data, t.phase.entries, now, dataLimit).data)
  {
    hide AnchorViaSpel;
    var es, cursor, target := t.phase.entries, t.phase.p.cursor, t.phase.target;
    SubmitKeeps(data, es, now, dataLimit);
    forall e | e in es ensures Enveloped(queue, from, e.cid, e.hash) {
      assert ReadFrom(queue, e, cursor, target);
      var i :| 0 <= i < |queue| && DueKey(queue[i], target) == Some(e.cid) && cursor < Number(queue[i])
               && queue[i].payload.value == Payload(e.text, e.hash);
      assert DueKey(queue[i], U64_MAX) == Some(e.cid);
    }
  }

  lemma ActOnlyAdds(queue: seq<Line>, from: U64, base: iset<DocumentRecord>, data: seq<Byte>, t: Tool,
                    a: Action, dataLimit: nat)
    requires ToolInv(queue, ChainKeys(data), t) && from <= LoadedCursor(t.db) && OnlyAdds(queue, from, base, data)
    requires Act(queue, data, t, a, dataLimit).Some?
    ensures OnlyAdds(queue, from, base, Act(queue, data, t, a, dataLimit).value.1)
  {
    hide OnlyAdds, ToolInv, AnchorViaSpel, LoadedCursor;
    match a
    case SubmitReported(now) => SubmitOnlyAdds(queue, from, base, data, t, now, dataLimit);
    case SubmitUnreported(now) => SubmitOnlyAdds(queue, from, base, data, t, now, dataLimit);
    case _ =>
  }

  ghost predicate DataInv(data: seq<Byte>, dataLimit: nat) {
    (data == [] || FromBytes(data).Some?) && |data| <= dataLimit
  }

  lemma PollActKeeps(queue: seq<Line>, keys: set<Cid>, t: Tool)
    requires Increasing(queue) && t.phase.Polling? && !CapReached(t.phase.p) && ToolInv(queue, keys, t)
    ensures ToolInv(queue, keys, t.(phase := AfterPoll(queue, t.phase.p)))
  {
    if AfterPoll(queue, t.phase.p).HasMessages? {
      PollKeeps(queue, t.phase.p);
    }
  }

  lemma StopKeeps(queue: seq<Line>, keys: set<Cid>, t: Tool)
    requires ToolInv(queue, keys, t)
    ensures ToolInv(queue, keys, t.(phase := Stopped))
  {
  }

  lemma StartKeeps(queue: seq<Line>, keys: set<Cid>, t: Tool, cfg: Config)
    requires ToolInv(queue, keys, t)
    ensures ToolInv(queue, keys, t.(phase := Polling(Process(cfg, LoadedCursor(t.db), 0))))
  {
  }

  lemma DryRunKeeps(queue: seq<Line>, keys: set<Cid>, t: Tool)
    requires t.phase.Ready? && t.phase.p.cfg.dryRun && ToolInv(queue, keys, t)
    ensures ToolInv(queue, keys, t.(phase := Saving(t.phase.p, t.phase.target, true),
                                   listed := t.listed + EntryKeys(t.phase.entries)))
  {
  }

  lemma MarkKeeps(queue: seq<Line>, keys: set<Cid>, t: Tool)
    requires t.phase.Marking? && ToolInv(queue, keys, t)
    ensures
      var (p, es, k, target) := (t.phase.p, t.phase.entries, t.phase.marked, t.phase.target);
      ToolInv(queue, keys,
              if k < |es| then t.(db := WithAnchored(t.db, es[k].text), phase := Marking(p, es, k + 1, target))
              else t.(phase := Saving(p, target, true)))
  {
    hide Covered, WithinQueue, WithAnchored, FromQueue, EntryKeys, LoadedCursor;
    var es, k := t.phase.entries, t.phase.marked;
    if k < |es| {
      CursorPersists(t.db, 0, es[k].text);
      EntryAnchored(queue, keys, es, k, t.phase.p.cursor, t.phase.target);
      assert WithAnchored(t.db, es[k].text).anchored == t.db.anchored + {es[k].text} by {
        MarkedTable(t.db, es[k].text);
      }
    }
  }

  lemma EntryAnchored(queue: seq<Line>, keys: set<Cid>, es: seq<AnchorEntry>, k: nat, from: U64, target: U64)
    requires FromQueue(queue, es, from, target) && EntryKeys(es) <= keys && k < |es|
    ensures CidText.DecodeCid(es[k].text).Some? && CidText.DecodeCid(es[k].text).value in keys
  {
    assert es[k] in es && es[k].cid in EntryKeys(es);
  }

  lemma MarkedTable(db: Db, cid: string)
    ensures WithAnchored(db, cid).anchored == db.anchored + {cid}
  {
  }

  lemma SaveKeeps(queue: seq<Line>, keys: set<Cid>, t: Tool)
    requires t.phase.Saving? && ToolInv(queue, keys, t)
    ensures
      var (p, target, counts) := (t.phase.p, t.phase.target, t.phase.counts);
      ToolInv(queue, keys, t.(db := WithCursor(t.db, target), phase := AfterSave(p, target, counts)))
  {
    CursorPersists(t.db, t.phase.target, "");
  }

  lemma SubmitActKeeps(queue: seq<Line>, data: seq<Byte>, t: Tool, now: U64, dataLimit: nat)
    requires t.phase.Ready? && ToolInv(queue, ChainKeys(data), t)
    requires AnchorViaSpel(data, t.phase.entries, now, dataLimit).Committed?
    ensures
      var after := AnchorViaSpel(data, t.phase.entries, now, dataLimit).data;
      var keys := ChainKeys(after);
      && DataInv(after, dataLimit) && ChainKeys(data) <= keys && ChainRecords(data) <= ChainRecords(after)
      && ToolInv(queue, keys, t.(phase := Stopped))
      && ToolInv(queue, keys, t.(phase := Marking(t.phase.p, t.phase.entries, 0, t.phase.target)))
  {
    hide AnchorViaSpel;
    var es := t.phase.entries;
    SubmitKeeps(data, es, now, dataLimit);
    var keys := ChainKeys(AnchorViaSpel(data, es, now, dataLimit).data);
    KeysGrow(queue, ChainKeys(data), keys, t);
    assert keys + EntryKeys(es) == keys;
  }

  lemma ActKeeps(queue: seq<Line>, data: seq<Byte>, t: Tool, a: Action, dataLimit: nat)
    requires Increasing(queue) && DataInv(data, dataLimit) && ToolInv(queue, ChainKeys(data), t)
    requires Act(queue, data, t, a, dataLimit).Some?
    ensures
      var (t', data') := Act(queue, data, t, a, dataLimit).value;
      && DataInv(data', dataLimit) && ChainKeys(data) <= ChainKeys(data') && ChainRecords(data) <= ChainRecords(data')
      && ToolInv(queue, ChainKeys(data'), t')
  {
    hide AfterPoll, AfterFilter, AfterSave, AnchorViaSpel, WithCursor, WithAnchored, LoadedCursor, ToolInv;
    var keys := ChainKeys(data);
    match a
    case Start(cfg) => StartKeeps(queue, keys, t, cfg);
    case ReachCap => StopKeeps(queue, keys, t);
    case Crash => StopKeeps(queue, keys, t);
    case SubmitFailed => StopKeeps(queue, keys, t);
    case Poll => PollActKeeps(queue, keys, t);
    case Filter => FilterKeeps(queue, keys, t);
    case SubmitReported(now) => SubmitActKeeps(queue, data, t, now, dataLimit);
    case SubmitUnreported(now) => SubmitActKeeps(queue, data, t, now, dataLimit);
    case DryRun => DryRunKeeps(queue, keys, t);
    case Mark => MarkKeeps(queue, keys, t);
    case Save => SaveKeeps(queue, keys, t);
  }
}
