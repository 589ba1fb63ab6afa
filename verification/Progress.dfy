/** The run loop is a path of the protocol, and it drains a fixed queue in the expected number of passes. */
module Progress {
  import opened Types
  import opened Borsh
  import opened Guest
  import opened SpelArgs
  import opened Delivery
  import opened AnchorTool
  import opened Protocol
  import opened Safety
  import opened RunLoop

  // ----- the loop as a path of the protocol -----

  function RunActions(queue: seq<Line>, data: seq<Byte>, t: Tool, actions: seq<Action>, dataLimit: nat)
    : Option<(Tool, seq<Byte>)>
    decreases |actions|
  {
    if actions == [] then Some((t, data))
    else
      match Act(queue, data, t, actions[0], dataLimit)
      case None => None
      case Some((t', data')) => RunActions(queue, data', t', actions[1..], dataLimit)
  }

  lemma {:induction false} ActionsSplit(queue: seq<Line>, data: seq<Byte>, t: Tool,
                                        a: seq<Action>, b: seq<Action>, dataLimit: nat)
    requires RunActions(queue, data, t, a, dataLimit).Some?
    ensures var (t', data') := RunActions(queue, data, t, a, dataLimit).value;
      RunActions(queue, data, t, a + b, dataLimit) == RunActions(queue, data', t', b, dataLimit)
    decreases |a|
  {
    if a == [] {
      assert a + b == b;
    } else {
      var (t', data') := Act(queue, data, t, a[0], dataLimit).value;
      assert (a + b)[1..] == a[1..] + b;
      ActionsSplit(queue, data', t', a[1..], b, dataLimit);
    }
  }

  /** Runs a first action known to lead to `t'`, `data'`, then the rest. */
  lemma ActThen(queue: seq<Line>, data: seq<Byte>, t: Tool, a: Action, rest: seq<Action>,
                t': Tool, data': seq<Byte>, dataLimit: nat)
    requires Act(queue, data, t, a, dataLimit) == Some((t', data'))
    ensures RunActions(queue, data, t, [a] + rest, dataLimit) == RunActions(queue, data', t', rest, dataLimit)
  {
    assert ([a] + rest)[1..] == rest;
  }

  function Marks(n: nat): seq<Action> {
    seq(n, _ => Mark)
  }

  /** The actions one pass stands for. */
  function PassActions(queue: seq<Line>, data: seq<Byte>, t: Tool, now: U64, dataLimit: nat): seq<Action>
    requires t.phase.Polling?
  {
    var p := t.phase.p;
    if CapReached(p) then [ReachCap]
    else
      var polled := AfterPoll(queue, p);
      [Poll] + if polled.HasMessages? then WindowActions(data, t.db, p, polled.messages, now, dataLimit) else []
  }

  function WindowActions(data: seq<Byte>, db: Db, p: Process, ms: seq<DeliveryMsg>, now: U64, dataLimit: nat)
    : seq<Action>
  {
    var es := Gather(db.anchored, ms);
    [Filter] +
    if es == [] then [Save]
    else if p.cfg.dryRun then [DryRun] + [Save]
    else if AnchorViaSpel(data, es, now, dataLimit).Committed? then [SubmitReported(now)] + (Marks(|es| + 1) + [Save])
    else [SubmitFailed]
  }

  lemma {:induction false} MarksPath(queue: seq<Line>, data: seq<Byte>, t: Tool, db: Db, dataLimit: nat)
    requires t.phase.Marking? && t.phase.marked <= |t.phase.entries|
    requires t.db == MarkAll(db, t.phase.entries[..t.phase.marked])
    ensures RunActions(queue, data, t, Marks(|t.phase.entries| - t.phase.marked + 1), dataLimit)
         == Some((t.(db := MarkAll(db, t.phase.entries), phase := Saving(t.phase.p, t.phase.target, true)), data))
    decreases |t.phase.entries| - t.phase.marked
  {
    var es, k := t.phase.entries, t.phase.marked;
    var n := |es| - k + 1;
    assert Marks(n)[1..] == Marks(n - 1);
    if k < |es| {
      assert es[..k + 1][..k] == es[..k];
      var t' := Act(queue, data, t, Mark, dataLimit).value.0;
      MarksPath(queue, data, t', db, dataLimit);
    } else {
      assert es[..k] == es;
      assert Marks(0) == [];
    }
  }

  lemma SavePath(queue: seq<Line>, data: seq<Byte>, t: Tool, dataLimit: nat)
    requires t.phase.Saving?
    ensures RunActions(queue, data, t, [Save], dataLimit)
         == Some((t.(db := WithCursor(t.db, t.phase.target),
                     phase := AfterSave(t.phase.p, t.phase.target, t.phase.counts)), data))
  {
    var t' := t.(db := WithCursor(t.db, t.phase.target), phase := AfterSave(t.phase.p, t.phase.target, t.phase.counts));
    ActThen(queue, data, t, Save, [], t', data, dataLimit);
    assert [Save] + [] == [Save];
  }

  lemma CommittedPath(queue: seq<Line>, data: seq<Byte>, t: Tool, now: U64, dataLimit: nat)
    requires t.phase.Ready? && !t.phase.p.cfg.dryRun
    requires AnchorViaSpel(data, t.phase.entries, now, dataLimit).Committed?
    ensures
      var (p, es, target) := (t.phase.p, t.phase.entries, t.phase.target);
      RunActions(queue, data, t, [SubmitReported(now)] + (Marks(|es| + 1) + [Save]), dataLimit)
      == Some((t.(db := WithCursor(MarkAll(t.db, es), target), phase := AfterSave(p, target, true)),
               AnchorViaSpel(data, es, now, dataLimit).data))
  {
    hide AnchorViaSpel;
    var p, es, target := t.phase.p, t.phase.entries, t.phase.target;
    var after := AnchorViaSpel(data, es, now, dataLimit).data;
    var t1 := t.(phase := Marking(p, es, 0, target));
    var t2 := t.(db := MarkAll(t.db, es), phase := Saving(p, target, true));
    ActThen(queue, data, t, SubmitReported(now), Marks(|es| + 1) + [Save], t1, after, dataLimit);
    assert es[..0] == [];
    MarksPath(queue, after, t1, t.db, dataLimit);
    ActionsSplit(queue, after, t1, Marks(|es| + 1), [Save], dataLimit);
    SavePath(queue, after, t2, dataLimit);
  }

  lemma WindowPath(queue: seq<Line>, data: seq<Byte>, t: Tool, now: U64, dataLimit: nat)
    requires t.phase.HasMessages?
    ensures
      var (p, ms) := (t.phase.p, t.phase.messages);
      var run := HandleWindow(t.db, data, p, ms, now, dataLimit);
      var listed := if p.cfg.dryRun then EntryKeys(Gather(t.db.anchored, ms)) else {};
      RunActions(queue, data, t, WindowActions(data, t.db, p, ms, now, dataLimit), dataLimit)
      == Some((Tool(run.db, run.phase, t.listed + listed), run.data))
  {
    hide AnchorViaSpel, Gather, MaxNumber;
    var p, ms := t.phase.p, t.phase.messages;
    var es, target := Gather(t.db.anchored, ms), MaxNumber(ms, p.cursor);
    var t1 := t.(phase := AfterFilter(t.db, p, ms));
    assert t.listed + {} == t.listed && t.listed + EntryKeys([]) == t.listed;
    ActThen(queue, data, t, Filter, WindowActions(data, t.db, p, ms, now, dataLimit)[1..], t1, data, dataLimit);
    if es == [] {
      SavePath(queue, data, t1, dataLimit);
    } else if p.cfg.dryRun {
      var t2 := t1.(phase := Saving(p, target, true), listed := t.listed + EntryKeys(es));
      ActThen(queue, data, t1, DryRun, [Save], t2, data, dataLimit);
      SavePath(queue, data, t2, dataLimit);
    } else if AnchorViaSpel(data, es, now, dataLimit).Committed? {
      CommittedPath(queue, data, t1, now, dataLimit);
    } else {
      ActThen(queue, data, t1, SubmitFailed, [], t1.(phase := Stopped), data, dataLimit);
      assert [SubmitFailed] + [] == [SubmitFailed];
    }
  }

  /** The keys a pass lists instead of anchoring them, as a dry run does. */
  function Lists(queue: seq<Line>, t: Tool): set<Cid>
    requires t.phase.Polling?
  {
    var p := t.phase.p;
    var polled := AfterPoll(queue, p);
    if p.cfg.dryRun && !CapReached(p) && polled.HasMessages? then EntryKeys(Gather(t.db.anchored, polled.messages))
    else {}
  }

  /** One pass of the loop is a run of protocol actions, ending in the same database, chain and phase. */
  lemma PassIsPath(data: seq<Byte>, t: Tool, tick: Tick, dataLimit: nat)
    requires t.phase.Polling?
    ensures
      var actions := PassActions(tick.queue, data, t, tick.now, dataLimit);
      var run := Pass(t.db, data, t.phase.p, tick, dataLimit);
      RunActions(tick.queue, data, t, actions, dataLimit)
      == Some((Tool(run.db, run.phase, t.listed + Lists(tick.queue, t)), run.data))
  {
    var p := t.phase.p;
    assert t.listed + {} == t.listed;
    if CapReached(p) {
      ActThen(tick.queue, data, t, ReachCap, [], t.(phase := Stopped), data, dataLimit);
      assert [ReachCap] + [] == [ReachCap];
    } else {
      var polled := AfterPoll(tick.queue, p);
      var t1 := t.(phase := polled);
      var rest := PassActions(tick.queue, data, t, tick.now, dataLimit)[1..];
      ActThen(tick.queue, data, t, Poll, rest, t1, data, dataLimit);
      if polled.HasMessages? {
        WindowPath(tick.queue, data, t1, tick.now, dataLimit);
      }
    }
  }

  function ToolSteps(id: nat, actions: seq<Action>): (steps: seq<Step>)
    ensures |steps| == |actions|
  {
    seq(|actions|, i requires 0 <= i < |actions| => ToolStep(id, actions[i]))
  }

  /** A tool acting alone moves the whole system accordingly. */
  lemma {:induction false} ActionsAreSteps(w: World, id: nat, actions: seq<Action>, dataLimit: nat)
    requires id in w.tools && RunActions(w.queue, w.data, w.tools[id], actions, dataLimit).Some?
    ensures
      var (t, data) := RunActions(w.queue, w.data, w.tools[id], actions, dataLimit).value;
      Exec(w, ToolSteps(id, actions), dataLimit) == Some(w.(data := data, tools := w.tools[id := t]))
    decreases |actions|
  {
    if actions == [] {
      assert w.tools[id := w.tools[id]] == w.tools;
    } else {
      var (t, data) := Act(w.queue, w.data, w.tools[id], actions[0], dataLimit).value;
      var w' := w.(data := data, tools := w.tools[id := t]);
      assert ToolSteps(id, actions)[1..] == ToolSteps(id, actions[1..]);
      assert ToolSteps(id, actions)[0] == ToolStep(id, actions[0]);
      ActionsAreSteps(w', id, actions[1..], dataLimit);
      var (t2, data2) := RunActions(w.queue, data, t, actions[1..], dataLimit).value;
      assert w'.tools[id := t2] == w.tools[id := t2];
    }
  }

  /** The system after one pass of a tool's loop. */
  ghost function AfterPass(w: World, id: nat, now: U64, dataLimit: nat): World
    requires id in w.tools && w.tools[id].phase.Polling?
  {
    var t := w.tools[id];
    var run := Pass(t.db, w.data, t.phase.p, Tick(w.queue, now), dataLimit);
    w.(data := run.data, tools := w.tools[id := Tool(run.db, run.phase, t.listed + Lists(w.queue, t))])
  }

  /** The loop refines the protocol: a pass leads to a state the system reaches by the tool's own steps. */
  lemma PassIsReachable(w: World, id: nat, now: U64, dataLimit: nat)
    requires id in w.tools && w.tools[id].phase.Polling?
    ensures
      Exec(w, ToolSteps(id, PassActions(w.queue, w.data, w.tools[id], now, dataLimit)), dataLimit)
      == Some(AfterPass(w, id, now, dataLimit))
  {
    var t := w.tools[id];
    var actions := PassActions(w.queue, w.data, t, now, dataLimit);
    PassIsPath(w.data, t, Tick(w.queue, now), dataLimit);
    ActionsAreSteps(w, id, actions, dataLimit);
  }

  lemma {:induction false} ActionsKeep(queue: seq<Line>, data: seq<Byte>, t: Tool, actions: seq<Action>, dataLimit: nat)
    requires Increasing(queue) && DataInv(data, dataLimit) && ToolInv(queue, ChainKeys(data), t)
    requires RunActions(queue, data, t, actions, dataLimit).Some?
    ensures
      var (t', data') := RunActions(queue, data, t, actions, dataLimit).value;
      DataInv(data', dataLimit) && ToolInv(queue, ChainKeys(data'), t') && ChainRecords(data) <= ChainRecords(data')
    decreases |actions|
  {
    hide ToolInv;
    if actions != [] {
      ActKeeps(queue, data, t, actions[0], dataLimit);
      var (t', data') := Act(queue, data, t, actions[0], dataLimit).value;
      ActionsKeep(queue, data', t', actions[1..], dataLimit);
    }
  }

  /** Actions of a process that does not run dry anchor what they pass, and nothing else. */
  lemma {:induction false} ActionsSince(queue: seq<Line>, from: U64, base: iset<DocumentRecord>, data: seq<Byte>,
                                        t: Tool, actions: seq<Action>, dataLimit: nat)
    requires Increasing(queue) && DataInv(data, dataLimit) && ToolInv(queue, ChainKeys(data), t)
    requires forall a :: a in actions ==> !a.Start?
    requires RunActions(queue, data, t, actions, dataLimit).Some?
    requires Since(queue, from, ChainKeys(data), t) && OnlyAdds(queue, from, base, data)
    ensures
      var (t', data') := RunActions(queue, data, t, actions, dataLimit).value;
      Since(queue, from, ChainKeys(data'), t') && OnlyAdds(queue, from, base, data')
    decreases |actions|
  {
    hide ToolInv, OnlyAdds, Between, LoadedCursor;
    if actions != [] {
      var a := actions[0];
      ActKeeps(queue, data, t, a, dataLimit);
      ActSince(queue, from, data, t, a, dataLimit);
      ActOnlyAdds(queue, from, base, data, t, a, dataLimit);
      var (t', data') := Act(queue, data, t, a, dataLimit).value;
      ActionsSince(queue, from, base, data', t', actions[1..], dataLimit);
    }
  }

  lemma PassStartsNothing(queue: seq<Line>, data: seq<Byte>, t: Tool, now: U64, dataLimit: nat)
    requires t.phase.Polling?
    ensures forall a :: a in PassActions(queue, data, t, now, dataLimit) ==> !a.Start?
  {
    hide AfterPoll, Gather, AnchorViaSpel;
  }

  // ----- draining a fixed queue -----

  /** The counter and the data limit leave space for `n` more records. */
  predicate Fits(data: seq<Byte>, n: nat, dataLimit: nat) {
    && |ChainRecords(data)| + n < 0x1_0000_0000
    && 4 + RECORD_BYTES * (|ChainRecords(data)| + n) <= dataLimit
  }

  /** The account can take `n` more records. */
  predicate Room(data: seq<Byte>, n: nat, dataLimit: nat) {
    FromBytes(data).Some? && Fits(data, n, dataLimit)
  }

  ghost predicate Readable(queue: seq<Line>, after: U64) {
    forall i :: 0 <= i < |queue| ==> !IsBad(queue[i], after)
  }

  predicate Drains(cfg: Config) {
    1 <= cfg.batchSize <= MAX_BATCH_SIZE && !cfg.dryRun && !cfg.once
  }

  /** The batch cap, if there is one, leaves room for `n` more submissions. */
  predicate Lasts(p: Process, n: nat) {
    p.cfg.maxBatches == 0 || p.submitted + n <= p.cfg.maxBatches
  }

  lemma {:induction false} NewPositionsBound(known: set<Cid>, cids: seq<seq<Byte>>, i: nat)
    requires i <= |cids|
    ensures |NewPositions(known, cids, i)| <= |cids| - i
    decreases |cids| - i
  {
    if i < |cids| {
      NewPositionsBound(known, cids, i + 1);
      var later := NewPositions(known, cids, i + 1);
      assert NewPositions(known, cids, i) == if cids[i] in known then later else later + {i};
    } else {
      assert NewPositions(known, cids, i) == {};
    }
  }

  lemma SubmitWithRoom(data: seq<Byte>, es: seq<AnchorEntry>, now: U64, n: nat, dataLimit: nat)
    requires 0 < |es| <= MAX_BATCH_SIZE && |es| <= n && Room(data, n, dataLimit)
    ensures
      var r := AnchorViaSpel(data, es, now, dataLimit);
      r.Committed? && Room(r.data, n - |es|, dataLimit)
  {
    hide Transact, PrintArgs, ReadArgs, Store;
    var call := Call(es, now);
    var known := ChainKeys(data);
    ViaSpelIsTransact(data, es, now, dataLimit);
    NewPositionsBound(known, call.cids, 0);
    assert forall j :: 0 <= j < |es| ==> Good(known, call, j);
    CommitExact(data, call, dataLimit);
    CollectExact(known, call, 0);
  }

  /** A window of at most 50 messages that the account has room for is handled to the end. */
  lemma WindowHandled(db: Db, data: seq<Byte>, p: Process, ms: seq<DeliveryMsg>, now: U64, n: nat, dataLimit: nat)
    requires |ms| <= MAX_BATCH_SIZE && |ms| <= n && Room(data, n, dataLimit) && !p.cfg.dryRun
    ensures
      var run, target := HandleWindow(db, data, p, ms, now, dataLimit), MaxNumber(ms, p.cursor);
      && run.phase == AfterSave(p, target, Gather(db.anchored, ms) != [])
      && LoadedCursor(run.db) == target
      && Room(run.data, n - |ms|, dataLimit)
  {
    hide AnchorViaSpel, LoadedCursor, WithCursor, MaxNumber, Gather;
    var es, target := Gather(db.anchored, ms), MaxNumber(ms, p.cursor);
    GatherExact(db.anchored, ms);
    CursorPersists(db, target, "");
    CursorPersists(MarkAll(db, es), target, "");
    if es != [] {
      SubmitWithRoom(data, es, now, n, dataLimit);
    }
  }

  /** On a readable increasing queue a pass polls the window of smallest pending messages. */
  lemma PassPolls(p: Process, queue: seq<Line>)
    requires Increasing(queue) && Readable(queue, p.cursor) && 1 <= p.cfg.batchSize
    ensures
      var window := Window(queue, p.cursor, p.cfg.batchSize);
      AfterPoll(queue, p)
      == if window != [] then HasMessages(p, window) else if p.cfg.once then Stopped else Polling(p)
  {
    ScanExact(queue, p.cursor, p.cfg.batchSize);
    PollWindow(queue, p.cursor, p.cfg.batchSize);
  }

  /** A pass whose cap is not reached, with space for its window, handles that window to the end. */
  lemma PassTakesWindow(db: Db, data: seq<Byte>, p: Process, tick: Tick, n: nat, dataLimit: nat) returns (p': Process)
    requires Increasing(tick.queue) && Readable(tick.queue, p.cursor) && Drains(p.cfg) && !CapReached(p)
    requires Room(data, n, dataLimit) && |Window(tick.queue, p.cursor, p.cfg.batchSize)| <= n
    ensures
      var run, window := Pass(db, data, p, tick, dataLimit), Window(tick.queue, p.cursor, p.cfg.batchSize);
      && run.phase == Polling(p') && p'.cfg == p.cfg
      && p'.cursor == MaxNumber(window, p.cursor)
      && p'.submitted == p.submitted + (if WantsAny(db.anchored, window) then 1 else 0)
      && Room(run.data, n - |window|, dataLimit)
      && (window == [] ==> run == Run(db, data, Polling(p)))
  {
    hide HandleWindow, AfterPoll, Increasing, Readable, Window, LoadedCursor, Room, Gather;
    var window := Window(tick.queue, p.cursor, p.cfg.batchSize);
    WindowSize(tick.queue, p.cursor, p.cfg.batchSize);
    PassPolls(p, tick.queue);
    if window == [] {
      p' := p;
    } else {
      WindowHandled(db, data, p, window, tick.now, n, dataLimit);
      GatheredTexts(db.anchored, window);
      p' := Pass(db, data, p, tick, dataLimit).phase.p;
    }
  }

  lemma WindowSize(queue: seq<Line>, after: U64, limit: nat)
    requires 1 <= limit
    ensures |Window(queue, after, limit)| == Min(limit, |Pending(queue, after)|)
  {
  }

  /**
    A pass whose cap is not reached takes one window off the pending messages and counts
    a batch exactly when some message of the window is to be anchored.
   */
  lemma PassDrains(db: Db, data: seq<Byte>, p: Process, tick: Tick, dataLimit: nat)
    requires Increasing(tick.queue) && Readable(tick.queue, p.cursor) && Drains(p.cfg) && !CapReached(p)
    requires Room(data, |Pending(tick.queue, p.cursor)|, dataLimit)
    ensures
      var run := Pass(db, data, p, tick, dataLimit);
      var pending := Pending(tick.queue, p.cursor);
      && run.phase.Polling? && run.phase.p.cfg == p.cfg && p.cursor <= run.phase.p.cursor
      && run.phase.p.submitted
         == p.submitted + (if WantsAny(db.anchored, Window(tick.queue, p.cursor, p.cfg.batchSize)) then 1 else 0)
      && (pending == [] ==> run == Run(db, data, Polling(p)))
      && Pending(tick.queue, run.phase.p.cursor) == pending[Min(p.cfg.batchSize, |pending|)..]
      && Room(run.data, |Pending(tick.queue, run.phase.p.cursor)|, dataLimit)
  {
    hide Pass, Increasing, Readable, Window, Pending, MaxNumber, Room;
    var queue, limit := tick.queue, p.cfg.batchSize;
    WindowSize(queue, p.cursor, limit);
    var p' := PassTakesWindow(db, data, p, tick, |Pending(queue, p.cursor)|, dataLimit);
    AdvanceOnIncreasing(queue, p.cursor, limit);
  }

  /** `once` handles a single window: it leaves nothing pending exactly when one window was enough. */
  lemma OnceDrainsExactly(db: Db, data: seq<Byte>, cfg: Config, tick: Tick, dataLimit: nat)
    requires cfg.once && !cfg.dryRun && 1 <= cfg.batchSize <= MAX_BATCH_SIZE
    requires Increasing(tick.queue) && Readable(tick.queue, LoadedCursor(db))
    requires Room(data, |Pending(tick.queue, LoadedCursor(db))|, dataLimit)
    ensures
      var run := Pass(db, data, Process(cfg, LoadedCursor(db), 0), tick, dataLimit);
      var pending := Pending(tick.queue, LoadedCursor(db));
      && run.phase == Stopped
      && Pending(tick.queue, LoadedCursor(run.db)) == pending[Min(cfg.batchSize, |pending|)..]
      && (Pending(tick.queue, LoadedCursor(run.db)) == [] <==> |pending| <= cfg.batchSize)
  {
    hide HandleWindow, AfterPoll, LoadedCursor, Increasing, Readable, Pending, MaxNumber, FromBytes, Gather;
    var queue, limit, cursor := tick.queue, cfg.batchSize, LoadedCursor(db);
    var p := Process(cfg, cursor, 0);
    var pending, window := Pending(queue, cursor), Window(queue, cursor, limit);
    PassPolls(p, queue);
    AdvanceOnIncreasing(queue, cursor, limit);
    if pending != [] {
      WindowHandled(db, data, p, window, tick.now, |pending|, dataLimit);
    }
  }

  /** A process with `n` passes ahead of its batch cap, and an account with space for what is pending. */
  ghost predicate Draining(queue: seq<Line>, run: Run, n: nat, dataLimit: nat) {
    && Increasing(queue)
    && run.phase.Polling? && Drains(run.phase.p.cfg) && Lasts(run.phase.p, n) && Readable(queue, run.phase.p.cursor)
    && Room(run.data, |Pending(queue, run.phase.p.cursor)|, dataLimit)
  }

  lemma FirstPass(queue: seq<Line>, run: Run, ticks: seq<Tick>, dataLimit: nat) returns (next: Run)
    requires ticks != [] && Draining(queue, run, |ticks|, dataLimit) && ticks[0].queue == queue
    ensures Passes(run, ticks, dataLimit) == Passes(next, ticks[1..], dataLimit)
    ensures Draining(queue, next, |ticks| - 1, dataLimit) && next.phase.p.cfg == run.phase.p.cfg
    ensures var pending := Pending(queue, run.phase.p.cursor);
      Pending(queue, next.phase.p.cursor) == pending[Min(run.phase.p.cfg.batchSize, |pending|)..]
  {
    PassDrains(run.db, run.data, run.phase.p, ticks[0], dataLimit);
    next := Pass(run.db, run.data, run.phase.p, ticks[0], dataLimit);
  }

  ghost predicate SameQueue(queue: seq<Line>, ticks: seq<Tick>) {
    forall k :: 0 <= k < |ticks| ==> ticks[k].queue == queue
  }

  /**
    With submissions that fit, a fixed queue and no cap below `k`, `k` passes leave
    exactly the pending messages beyond the first `k * batchSize`.
   */
  lemma {:induction false} PassesDrain(queue: seq<Line>, run: Run, ticks: seq<Tick>, dataLimit: nat)
    requires Draining(queue, run, |ticks|, dataLimit) && SameQueue(queue, ticks)
    ensures
      var end := Passes(run, ticks, dataLimit);
      var pending := Pending(queue, run.phase.p.cursor);
      && Draining(queue, end, 0, dataLimit)
      && Pending(queue, end.phase.p.cursor) == AfterWindows(pending, |ticks|, run.phase.p.cfg.batchSize)
    decreases |ticks|
  {
    hide Pass, Pending, AfterWindows, Increasing, Readable, Room;
    var pending, size := Pending(queue, run.phase.p.cursor), run.phase.p.cfg.batchSize;
    OneMoreWindow(pending, if ticks == [] then 0 else |ticks| - 1, size);
    if ticks != [] {
      var next := FirstPass(queue, run, ticks, dataLimit);
      PassesDrain(queue, next, ticks[1..], dataLimit);
    }
  }

  /**
    A process that does not run dry, whose tool keeps its invariant and has anchored
    what it passed since the cursor `from`.  `listed` is what earlier dry runs listed.
   */
  ghost predicate Sound(queue: seq<Line>, from: U64, listed: set<Cid>, run: Run, dataLimit: nat) {
    var t := Tool(run.db, run.phase, listed);
    DataInv(run.data, dataLimit) && ToolInv(queue, ChainKeys(run.data), t) && Since(queue, from, ChainKeys(run.data), t)
  }

  lemma FirstPassKeeps(queue: seq<Line>, from: U64, listed: set<Cid>, base: iset<DocumentRecord>, run: Run,
                       ticks: seq<Tick>, dataLimit: nat) returns (next: Run)
    requires Increasing(queue) && Sound(queue, from, listed, run, dataLimit) && OnlyAdds(queue, from, base, run.data)
    requires run.phase.Polling? && ticks != [] && ticks[0].queue == queue
    ensures Passes(run, ticks, dataLimit) == Passes(next, ticks[1..], dataLimit)
    ensures Sound(queue, from, listed, next, dataLimit) && OnlyAdds(queue, from, base, next.data)
    ensures ChainRecords(run.data) <= ChainRecords(next.data)
  {
    hide OnlyAdds, ToolInv, PassActions, Pass, Between, LoadedCursor;
    var t := Tool(run.db, run.phase, listed);
    next := Pass(run.db, run.data, run.phase.p, ticks[0], dataLimit);
    var actions := PassActions(queue, run.data, t, ticks[0].now, dataLimit);
    PassIsPath(run.data, t, ticks[0], dataLimit);
    PassStartsNothing(queue, run.data, t, ticks[0].now, dataLimit);
    assert listed + Lists(queue, t) == listed;
    ActionsKeep(queue, run.data, t, actions, dataLimit);
    ActionsSince(queue, from, base, run.data, t, actions, dataLimit);
  }

  /** Pass after pass, a process that does not run dry anchors what it passes, and adds queued documents only. */
  lemma {:induction false} PassesKeep(queue: seq<Line>, from: U64, listed: set<Cid>, base: iset<DocumentRecord>,
                                      run: Run, ticks: seq<Tick>, dataLimit: nat)
    requires Increasing(queue) && SameQueue(queue, ticks)
    requires Sound(queue, from, listed, run, dataLimit) && OnlyAdds(queue, from, base, run.data)
    ensures
      var end := Passes(run, ticks, dataLimit);
      && Sound(queue, from, listed, end, dataLimit) && OnlyAdds(queue, from, base, end.data)
      && ChainRecords(run.data) <= ChainRecords(end.data)
    decreases |ticks|
  {
    hide Sound, OnlyAdds;
    if ticks != [] && run.phase.Polling? {
      var next := FirstPassKeeps(queue, from, listed, base, run, ticks, dataLimit);
      PassesKeep(queue, from, listed, base, next, ticks[1..], dataLimit);
    }
  }

  /** The queue is drained exactly when the passes made, times the batch size, reach the pending count. */
  lemma DrainsExactly(queue: seq<Line>, run: Run, ticks: seq<Tick>, dataLimit: nat)
    requires Draining(queue, run, |ticks|, dataLimit) && SameQueue(queue, ticks)
    ensures
      var end := Passes(run, ticks, dataLimit);
      && Draining(queue, end, 0, dataLimit)
      && (Pending(queue, end.phase.p.cursor) == []
          <==> |Pending(queue, run.phase.p.cursor)| <= |ticks| * run.phase.p.cfg.batchSize)
  {
    hide Pass, Passes, Pending, AfterWindows, Increasing, Readable, Room;
    PassesDrain(queue, run, ticks, dataLimit);
    AllWindows(Pending(queue, run.phase.p.cursor), |ticks|, run.phase.p.cfg.batchSize);
  }

  lemma NothingPendingAllAnchored(queue: seq<Line>, from: U64, keys: set<Cid>, t: Tool, i: nat)
    requires Since(queue, from, keys, t) && Pending(queue, LoadedCursor(t.db)) == []
    requires i < |queue| && DueKey(queue[i], U64_MAX).Some? && from < Number(queue[i])
    ensures DueKey(queue[i], U64_MAX).value in keys
  {
    var c := LoadedCursor(t.db);
    PendingSource(queue, c);
    assert Message(queue[i]) !in Pending(queue, c);
    assert !IsPending(queue[i], c);
    assert DueKey(queue[i], c) == DueKey(queue[i], U64_MAX);
  }

  /**
    After enough passes the chain holds what it held before, whoever put it there, and
    every document queued beyond the cursor whose CID decodes, and nothing else.
   */
  lemma DrainedMeansAnchored(queue: seq<Line>, listed: set<Cid>, run: Run, ticks: seq<Tick>, dataLimit: nat, key: Cid)
    requires Draining(queue, run, |ticks|, dataLimit) && SameQueue(queue, ticks)
    requires Sound(queue, run.phase.p.cursor, listed, run, dataLimit)
    requires |Pending(queue, run.phase.p.cursor)| <= |ticks| * run.phase.p.cfg.batchSize
    ensures key in ChainKeys(Passes(run, ticks, dataLimit).data)
       <==> key in ChainKeys(run.data) || IsDueBeyond(queue, run.phase.p.cursor, key)
  {
    hide Pass, Passes, Room, Readable, Between, OnlyAdds, ToolInv, IsDueBeyond;
    var end, from := Passes(run, ticks, dataLimit), run.phase.p.cursor;
    var base := ChainSet(run.data);
    DrainsExactly(queue, run, ticks, dataLimit);
    OnlyAddsOwn(queue, from, run.data);
    PassesKeep(queue, from, listed, base, run, ticks, dataLimit);
    PrefixKeys(ChainRecords(run.data), ChainRecords(end.data));
    SoundCursor(queue, from, listed, end, dataLimit);
    if IsDueBeyond(queue, from, key) {
      DueIsAnchored(queue, from, ChainKeys(end.data), Tool(end.db, end.phase, listed), key);
    }
    if key in ChainKeys(end.data) {
      AnchoredIsDue(queue, from, run.data, end.data, key);
    }
  }

  lemma SoundCursor(queue: seq<Line>, from: U64, listed: set<Cid>, run: Run, dataLimit: nat)
    requires Sound(queue, from, listed, run, dataLimit) && run.phase.Polling?
    ensures run.phase.p.cursor == LoadedCursor(run.db) && WithinQueue(queue, run.phase.p.cursor)
  {
  }

  ghost function ChainSet(data: seq<Byte>): iset<DocumentRecord> {
    iset r: DocumentRecord | r in ChainRecords(data)
  }

  lemma OnlyAddsOwn(queue: seq<Line>, from: U64, data: seq<Byte>)
    ensures OnlyAdds(queue, from, ChainSet(data), data)
  {
  }

  lemma DueIsAnchored(queue: seq<Line>, from: U64, keys: set<Cid>, t: Tool, key: Cid)
    requires Since(queue, from, keys, t) && Pending(queue, LoadedCursor(t.db)) == [] && IsDueBeyond(queue, from, key)
    ensures key in keys
  {
    var i :| 0 <= i < |queue| && DueKey(queue[i], U64_MAX) == Some(key) && from < Number(queue[i]);
    NothingPendingAllAnchored(queue, from, keys, t, i);
  }

  lemma AnchoredIsDue(queue: seq<Line>, from: U64, before: seq<Byte>, after: seq<Byte>, key: Cid)
    requires OnlyAdds(queue, from, ChainSet(before), after) && key in ChainKeys(after)
    ensures key in ChainKeys(before) || IsDueBeyond(queue, from, key)
  {
    var k :| 0 <= k < |ChainRecords(after)| && ChainRecords(after)[k].cid == key;
    var r := ChainRecords(after)[k];
    assert r in ChainRecords(before) || Enveloped(queue, from, r.cid, r.metadataHash);
  }
}
