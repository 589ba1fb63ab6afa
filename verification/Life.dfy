/** Whole lives of a process, among other parties: runs of the protocol that drain what was queued. */
module Life {
  import opened Types
  import opened Borsh
  import opened Delivery
  import opened AnchorTool
  import opened Protocol
  import opened Safety
  import opened RunLoop
  import opened Progress

  // ----- a life among other parties -----

  /** Whatever the rest of the system does before a pass, and the clock of that pass. */
  datatype Round = Round(others: seq<Step>, now: U64)

  ghost predicate Runs(w: World, id: nat) {
    id in w.tools && w.tools[id].phase.Polling?
  }

  ghost function AfterRound(w: World, id: nat, r: Round, dataLimit: nat): Option<World> {
    match Exec(w, r.others, dataLimit)
    case None => None
    case Some(w') => Some(if Runs(w', id) then AfterPass(w', id, r.now, dataLimit) else w')
  }

  ghost function RoundSteps(w: World, id: nat, r: Round, dataLimit: nat): seq<Step>
    requires Exec(w, r.others, dataLimit).Some?
  {
    var w' := Exec(w, r.others, dataLimit).value;
    r.others +
    if Runs(w', id) then ToolSteps(id, PassActions(w'.queue, w'.data, w'.tools[id], r.now, dataLimit)) else []
  }

  /** The system after all rounds: others act, then the tool makes a whole pass if it is polling. */
  ghost function Live(w: World, id: nat, rounds: seq<Round>, dataLimit: nat): Option<World>
    decreases |rounds|
  {
    if rounds == [] then Some(w)
    else
      match AfterRound(w, id, rounds[0], dataLimit)
      case None => None
      case Some(w') => Live(w', id, rounds[1..], dataLimit)
  }

  ghost function LifeSteps(w: World, id: nat, rounds: seq<Round>, dataLimit: nat): seq<Step>
    requires Live(w, id, rounds, dataLimit).Some?
    decreases |rounds|
  {
    if rounds == [] then []
    else
      RoundSteps(w, id, rounds[0], dataLimit)
      + LifeSteps(AfterRound(w, id, rounds[0], dataLimit).value, id, rounds[1..], dataLimit)
  }

  lemma RoundIsReachable(w: World, id: nat, r: Round, dataLimit: nat)
    requires AfterRound(w, id, r, dataLimit).Some?
    ensures Exec(w, RoundSteps(w, id, r, dataLimit), dataLimit) == AfterRound(w, id, r, dataLimit)
  {
    hide AfterPass, PassActions;
    var w' := Exec(w, r.others, dataLimit).value;
    if Runs(w', id) {
      PassIsReachable(w', id, r.now, dataLimit);
    }
    ExecSplit(w, r.others, RoundSteps(w, id, r, dataLimit)[|r.others|..], dataLimit);
  }

  /** The loop, pass after pass, with anything at all happening in between, never leaves the protocol. */
  lemma {:induction false} LifeIsReachable(w: World, id: nat, rounds: seq<Round>, dataLimit: nat)
    requires Live(w, id, rounds, dataLimit).Some?
    ensures Exec(w, LifeSteps(w, id, rounds, dataLimit), dataLimit) == Live(w, id, rounds, dataLimit)
    decreases |rounds|
  {
    hide AfterPass, Runs, PassActions;
    if rounds != [] {
      var w' := AfterRound(w, id, rounds[0], dataLimit).value;
      RoundIsReachable(w, id, rounds[0], dataLimit);
      LifeIsReachable(w', id, rounds[1..], dataLimit);
      ExecSplit(w, RoundSteps(w, id, rounds[0], dataLimit), LifeSteps(w', id, rounds[1..], dataLimit), dataLimit);
    }
  }

  // ----- the command as a life -----

  /** Every pass finds the queue of the pass before, with lines added at the end. */
  ghost predicate Grows(queue: seq<Line>, ticks: seq<Tick>)
    decreases |ticks|
  {
    ticks == [] || (queue <= ticks[0].queue && Increasing(ticks[0].queue) && Grows(ticks[0].queue, ticks[1..]))
  }

  function LastQueue(queue: seq<Line>, ticks: seq<Tick>): seq<Line> {
    if ticks == [] then queue else ticks[|ticks| - 1].queue
  }

  function Appends(lines: seq<Line>): (steps: seq<Step>)
    ensures |steps| == |lines|
  {
    seq(|lines|, i requires 0 <= i < |lines| => Append(lines[i]))
  }

  function Rounds(queue: seq<Line>, ticks: seq<Tick>): seq<Round>
    decreases |ticks|
  {
    if ticks == [] then []
    else
      [Round(Appends(ticks[0].queue[Min(|queue|, |ticks[0].queue|)..]), ticks[0].now)]
      + Rounds(ticks[0].queue, ticks[1..])
  }

  lemma {:induction false} AppendsReach(w: World, lines: seq<Line>, dataLimit: nat)
    requires Increasing(w.queue + lines)
    ensures Exec(w, Appends(lines), dataLimit) == Some(w.(queue := w.queue + lines))
    decreases |lines|
  {
    if lines == [] {
      assert w.queue + lines == w.queue;
    } else {
      var next, all := w.queue + [lines[0]], w.queue + lines;
      assert next == all[..|next|];
      assert next + lines[1..] == all;
      assert Appends(lines)[1..] == Appends(lines[1..]);
      AppendsReach(w.(queue := next), lines[1..], dataLimit);
    }
  }

  /** A tool's passes over a growing queue are a life in which nobody else touches the chain. */
  lemma {:induction false} PassesAreLived(w: World, id: nat, ticks: seq<Tick>, dataLimit: nat)
    requires id in w.tools && (w.tools[id].phase.Polling? || w.tools[id].phase.Stopped?) && Grows(w.queue, ticks)
    ensures
      var run := Passes(Run(w.tools[id].db, w.data, w.tools[id].phase), ticks, dataLimit);
      var end := Live(w, id, Rounds(w.queue, ticks), dataLimit);
      && end.Some? && id in end.value.tools
      && end.value == World(LastQueue(w.queue, ticks), run.data, w.tools[id := end.value.tools[id]])
      && end.value.tools[id].db == run.db && end.value.tools[id].phase == run.phase
    decreases |ticks|
  {
    hide Pass, Lists;
    if ticks == [] {
      assert w.tools[id := w.tools[id]] == w.tools;
    } else {
      var next := FirstRound(w, id, ticks, dataLimit);
      PassesAreLived(next, id, ticks[1..], dataLimit);
      var end := Live(w, id, Rounds(w.queue, ticks), dataLimit).value;
      assert next.tools[id := end.tools[id]] == w.tools[id := end.tools[id]];
      assert LastQueue(ticks[0].queue, ticks[1..]) == LastQueue(w.queue, ticks);
    }
  }

  lemma FirstRound(w: World, id: nat, ticks: seq<Tick>, dataLimit: nat) returns (next: World)
    requires id in w.tools && (w.tools[id].phase.Polling? || w.tools[id].phase.Stopped?)
    requires ticks != [] && Grows(w.queue, ticks)
    ensures id in next.tools && (next.tools[id].phase.Polling? || next.tools[id].phase.Stopped?)
    ensures next == World(ticks[0].queue, next.data, w.tools[id := next.tools[id]])
    ensures Passes(Run(w.tools[id].db, w.data, w.tools[id].phase), ticks, dataLimit)
         == Passes(Run(next.tools[id].db, next.data, next.tools[id].phase), ticks[1..], dataLimit)
    ensures Live(w, id, Rounds(w.queue, ticks), dataLimit)
         == Live(next, id, Rounds(ticks[0].queue, ticks[1..]), dataLimit)
  {
    var queue, t := ticks[0].queue, w.tools[id];
    var rounds := Rounds(w.queue, ticks);
    assert w.queue + queue[|w.queue|..] == queue;
    AppendsReach(w, queue[|w.queue|..], dataLimit);
    var w' := w.(queue := queue);
    assert rounds[1..] == Rounds(queue, ticks[1..]);
    if Runs(w', id) {
      next := AfterPass(w', id, ticks[0].now, dataLimit);
    } else {
      next := w';
      assert w.tools[id := t] == w.tools;
    }
  }

  /** Killing the process if it is still there, and starting it again. */
  function Restart(id: nat, phase: Phase, cfg: Config): seq<Step> {
    (if phase.Stopped? then [] else [ToolStep(id, Crash)]) + [ToolStep(id, Start(cfg))]
  }

  ghost function Restarted(w: World, id: nat, cfg: Config): World
    requires id in w.tools
  {
    var t := w.tools[id];
    w.(tools := w.tools[id := t.(phase := Polling(Process(cfg, LoadedCursor(t.db), 0)))])
  }

  lemma RestartReaches(w: World, id: nat, cfg: Config, dataLimit: nat)
    requires id in w.tools
    ensures Exec(w, Restart(id, w.tools[id].phase, cfg), dataLimit) == Some(Restarted(w, id, cfg))
  {
    var t := w.tools[id];
    var stopped := w.(tools := w.tools[id := t.(phase := Stopped)]);
    var start := ToolStep(id, Start(cfg));
    assert stopped.tools[id := Restarted(w, id, cfg).tools[id]] == Restarted(w, id, cfg).tools;
    OneStep(stopped, start, dataLimit);
    if t.phase.Stopped? {
      assert w.tools[id := t] == w.tools;
      assert Restart(id, t.phase, cfg) == [start];
    } else {
      assert Restart(id, t.phase, cfg) == [ToolStep(id, Crash), start];
      TwoSteps(w, ToolStep(id, Crash), start, dataLimit);
    }
  }

  /** The state the command leaves behind, from any state of the tool it is started on. */
  ghost function Outcome(w: World, id: nat, cfg: Config, ticks: seq<Tick>, dataLimit: nat): Run
    requires id in w.tools
  {
    var db := w.tools[id].db;
    Passes(Run(db, w.data, Polling(Process(cfg, LoadedCursor(db), 0))), ticks, dataLimit)
  }

  ghost predicate IsOwn(s: Step, id: nat) {
    s.ToolStep? && s.id == id
  }

  /** A life consists of the tool's own steps and what the rounds let others do. */
  lemma {:induction false} LifeShape(w: World, id: nat, rounds: seq<Round>, dataLimit: nat)
    requires Live(w, id, rounds, dataLimit).Some?
    ensures forall s :: s in LifeSteps(w, id, rounds, dataLimit) ==>
      (IsOwn(s, id) && !s.action.Start?) || exists r :: r in rounds && s in r.others
    decreases |rounds|
  {
    hide AfterPass, Pass, PassActions;
    if rounds != [] {
      var r := rounds[0];
      var w' := Exec(w, r.others, dataLimit).value;
      LifeShape(AfterRound(w, id, r, dataLimit).value, id, rounds[1..], dataLimit);
      if Runs(w', id) {
        PassStartsNothing(w'.queue, w'.data, w'.tools[id], r.now, dataLimit);
      }
      forall s | s in RoundSteps(w, id, r, dataLimit) && s !in r.others ensures IsOwn(s, id) && !s.action.Start? {
        OwnStep(w', id, r, s, dataLimit);
      }
    }
  }

  lemma OwnStep(w: World, id: nat, r: Round, s: Step, dataLimit: nat)
    requires Runs(w, id)
    requires s in ToolSteps(id, PassActions(w.queue, w.data, w.tools[id], r.now, dataLimit))
    requires forall a :: a in PassActions(w.queue, w.data, w.tools[id], r.now, dataLimit) ==> !a.Start?
    ensures IsOwn(s, id) && !s.action.Start?
  {
    hide PassActions;
    var actions := PassActions(w.queue, w.data, w.tools[id], r.now, dataLimit);
    var k :| 0 <= k < |actions| && ToolSteps(id, actions)[k] == s;
    assert actions[k] in actions;
  }

  lemma {:induction false} RoundsOnlyAppend(queue: seq<Line>, ticks: seq<Tick>)
    ensures forall r, s :: r in Rounds(queue, ticks) && s in r.others ==> s.Append?
    ensures SameQueue(queue, ticks) ==> forall r :: r in Rounds(queue, ticks) ==> r.others == []
    decreases |ticks|
  {
    if ticks != [] {
      assert forall k :: 0 <= k < |ticks[1..]| ==> ticks[1..][k] == ticks[k + 1];
      RoundsOnlyAppend(ticks[0].queue, ticks[1..]);
    }
  }

  /**
    What the command leaves behind is a state of the protocol, reached by nothing but
    appends and the tool's own steps, and on a fixed queue by the tool's own steps alone.
   */
  lemma RunToolIsReachable(w: World, id: nat, cfg: Config, ticks: seq<Tick>, dataLimit: nat) returns (steps: seq<Step>)
    requires id in w.tools && Grows(w.queue, ticks)
    ensures
      var run, end := Outcome(w, id, cfg, ticks, dataLimit), Exec(w, steps, dataLimit);
      && end.Some? && id in end.value.tools
      && end.value == World(LastQueue(w.queue, ticks), run.data, w.tools[id := end.value.tools[id]])
      && end.value.tools[id].db == run.db && end.value.tools[id].phase == run.phase
    ensures forall s :: s in steps ==> s.Append? || IsOwn(s, id)
    ensures SameQueue(w.queue, ticks) ==> forall s :: s in steps ==> IsOwn(s, id)
  {
    hide Passes, Live, LifeSteps;
    var start := Restarted(w, id, cfg);
    var restart, rounds := Restart(id, w.tools[id].phase, cfg), Rounds(w.queue, ticks);
    RestartReaches(w, id, cfg, dataLimit);
    PassesAreLived(start, id, ticks, dataLimit);
    LifeIsReachable(start, id, rounds, dataLimit);
    LifeShape(start, id, rounds, dataLimit);
    RoundsOnlyAppend(w.queue, ticks);
    steps := restart + LifeSteps(start, id, rounds, dataLimit);
    ExecSplit(w, restart, LifeSteps(start, id, rounds, dataLimit), dataLimit);
    var end := Exec(w, steps, dataLimit).value;
    assert start.tools[id := end.tools[id]] == w.tools[id := end.tools[id]];
  }

  // ----- draining among others -----

  ghost predicate LeavesAlone(steps: seq<Step>, id: nat) {
    forall s :: s in steps ==> !IsOwn(s, id)
  }

  lemma {:induction false} OthersLeave(w: World, steps: seq<Step>, id: nat, dataLimit: nat)
    requires id in w.tools && LeavesAlone(steps, id) && Exec(w, steps, dataLimit).Some?
    ensures
      var w' := Exec(w, steps, dataLimit).value;
      id in w'.tools && w'.tools[id] == w.tools[id] && w.queue <= w'.queue
    decreases |steps|
  {
    if steps != [] {
      assert steps[0] in steps;
      OthersLeave(Next(w, steps[0], dataLimit).value, steps[1..], id, dataLimit);
    }
  }

  lemma {:induction false} PendingAppend(a: seq<Line>, b: seq<Line>, after: U64)
    ensures Pending(a + b, after) == Pending(a, after) + Pending(b, after)
  {
    if a == [] {
      assert a + b == b;
    } else {
      assert (a + b)[1..] == a[1..] + b;
      PendingAppend(a[1..], b, after);
    }
  }

  /** A window of a longer queue takes the same messages off the shorter one. */
  lemma WindowOnPrefix(queue: seq<Line>, longer: seq<Line>, after: U64, limit: nat)
    requires queue <= longer && Increasing(longer) && 1 <= limit
    ensures
      var pending := Pending(queue, after);
      Pending(queue, MaxNumber(Window(longer, after, limit), after)) == pending[Min(limit, |pending|)..]
  {
    var rest := longer[|queue|..];
    var pending, all := Pending(queue, after), Pending(longer, after);
    assert all == pending + Pending(rest, after) by {
      assert longer == queue + rest;
      PendingAppend(queue, rest, after);
    }
    PendingIncreasing(longer, after);
    PendingSource(queue, after);
    forall i | 0 <= i < |pending| ensures after < pending[i].number {
      assert pending[i] in pending;
    }
    var c, k := MaxNumber(Window(longer, after, limit), after), Min(limit, |pending|);
    CutOnPrefix(all, pending, after, limit);
    PendingLater(queue, after, c);
    CutExact(pending, k, c);
  }

  lemma CutOnPrefix(all: seq<DeliveryMsg>, ms: seq<DeliveryMsg>, after: U64, limit: nat)
    requires ms <= all && StrictlySorted(all) && forall i :: 0 <= i < |ms| ==> after < ms[i].number
    ensures
      var c, k := MaxNumber(all[..Min(limit, |all|)], after), Min(limit, |ms|);
      && (forall i :: 0 <= i < k ==> ms[i].number <= c)
      && (forall i :: k <= i < |ms| ==> c < ms[i].number)
  {
    var window := all[..Min(limit, |all|)];
    var c, k := MaxNumber(window, after), Min(limit, |ms|);
    forall i | 0 <= i < k ensures ms[i].number <= c {
      assert window[i] == ms[i] && window[i] in window;
    }
    forall i | k <= i < |ms| ensures c < ms[i].number {
      if c != after {
        var m :| m in window && m.number == c;
        var j :| 0 <= j < |window| && window[j] == m;
        assert all[j] == m && all[i] == ms[i];
      }
    }
  }

  /** The tool is polling as the process `p`, with `n` passes ahead of its cap. */
  ghost predicate Busy(w: World, id: nat, p: Process, n: nat) {
    id in w.tools && w.tools[id].phase == Polling(p) && Drains(p.cfg) && Lasts(p, n)
  }

  lemma ReadablePrefix(queue: seq<Line>, longer: seq<Line>, after: U64, later: U64)
    requires Readable(longer, after) && queue <= longer && after <= later
    ensures Readable(queue, later)
  {
    forall i | 0 <= i < |queue| ensures !IsBad(queue[i], later) {
      assert longer[i] == queue[i] && !IsBad(longer[i], after);
    }
  }

  lemma StillBusy(w: World, id: nat, p: Process, p': Process, now: U64, n: nat, dataLimit: nat)
    requires Busy(w, id, p, n + 1) && p'.cfg == p.cfg && p'.submitted <= p.submitted + 1
    requires Pass(w.tools[id].db, w.data, p, Tick(w.queue, now), dataLimit).phase == Polling(p')
    ensures Busy(AfterPass(w, id, now, dataLimit), id, p', n)
  {
    hide Pass, Lists;
  }

  lemma NotCapped(w: World, id: nat, p: Process, n: nat)
    requires Busy(w, id, p, n + 1)
    ensures !CapReached(p) && Drains(p.cfg) && Runs(w, id) && w.tools[id].phase == Polling(p)
  {
  }

  /** One pass on a queue that others have made longer: a window comes off what was pending before. */
  lemma PassDrainsPrefix(queue: seq<Line>, w: World, id: nat, p: Process, now: U64, n: nat, dataLimit: nat)
    returns (p': Process)
    requires queue <= w.queue && Increasing(w.queue) && Busy(w, id, p, n + 1)
    requires Readable(w.queue, p.cursor) && Room(w.data, p.cfg.batchSize, dataLimit)
    ensures Runs(w, id) && Busy(AfterPass(w, id, now, dataLimit), id, p', n)
    ensures p'.cfg == p.cfg && p.cursor <= p'.cursor
    ensures var pending := Pending(queue, p.cursor);
      Pending(queue, p'.cursor) == pending[Min(p.cfg.batchSize, |pending|)..]
  {
    hide Pass, AfterPass, Busy, CapReached, Room, Readable, Increasing, Pending, Window, MaxNumber;
    NotCapped(w, id, p, n);
    var limit := p.cfg.batchSize;
    WindowSize(w.queue, p.cursor, limit);
    p' := PassTakesWindow(w.tools[id].db, w.data, p, Tick(w.queue, now), limit, dataLimit);
    StillBusy(w, id, p, p', now, n, dataLimit);
    WindowOnPrefix(queue, w.queue, p.cursor, limit);
  }

  lemma RoomBefore(data: seq<Byte>, later: seq<Byte>, n: nat, dataLimit: nat)
    requires FromBytes(data).Some? && ChainRecords(data) <= ChainRecords(later) && Room(later, n, dataLimit)
    ensures Room(data, n, dataLimit)
  {
  }

  /** What others do before a pass changes nothing the tool relies on. */
  lemma OthersAct(w: World, id: nat, p: Process, others: seq<Step>, n: nat, dataLimit: nat) returns (w': World)
    requires Inv(w, dataLimit) && Busy(w, id, p, n) && FromBytes(w.data).Some?
    requires LeavesAlone(others, id) && Exec(w, others, dataLimit).Some?
    ensures Exec(w, others, dataLimit) == Some(w') && Runs(w', id) && Busy(w', id, p, n) && w.queue <= w'.queue
    ensures Inv(w', dataLimit) && Increasing(w'.queue) && FromBytes(w'.data).Some?
  {
    hide ToolInv, Exec, LeavesAlone;
    w' := Exec(w, others, dataLimit).value;
    ExecKeeps(w, others, dataLimit);
    OthersLeave(w, others, id, dataLimit);
  }

  /** A pass and the rest of the life keep the invariant, and take nothing off the queue or the chain. */
  lemma RestOfLife(w: World, id: nat, now: U64, rounds: seq<Round>, end: World, dataLimit: nat)
    requires Inv(w, dataLimit) && Runs(w, id) && FromBytes(w.data).Some?
    requires Live(AfterPass(w, id, now, dataLimit), id, rounds, dataLimit) == Some(end)
    ensures
      var next := AfterPass(w, id, now, dataLimit);
      && Inv(next, dataLimit) && FromBytes(next.data).Some? && next.queue == w.queue
      && w.queue <= end.queue && ChainRecords(w.data) <= ChainRecords(end.data)
  {
    hide Inv, PassActions, Pass, Lists, LifeSteps, Live, Exec;
    var next := AfterPass(w, id, now, dataLimit);
    PassIsReachable(w, id, now, dataLimit);
    ExecKeeps(w, ToolSteps(id, PassActions(w.queue, w.data, w.tools[id], now, dataLimit)), dataLimit);
    LifeIsReachable(next, id, rounds, dataLimit);
    ExecKeeps(next, LifeSteps(next, id, rounds, dataLimit), dataLimit);
    QueueExtends(next, LifeSteps(next, id, rounds, dataLimit), dataLimit);
  }

  lemma {:induction false} QueueExtends(w: World, steps: seq<Step>, dataLimit: nat)
    requires Exec(w, steps, dataLimit).Some?
    ensures w.queue <= Exec(w, steps, dataLimit).value.queue
    decreases |steps|
  {
    if steps != [] {
      QueueExtends(Next(w, steps[0], dataLimit).value, steps[1..], dataLimit);
    }
  }

  /**
    Passes with anything at all between them that leaves the tool itself alone: `k` of
    them take the first `k` windows off what was pending at the start.
   */
  lemma {:induction false} LiveDrains(queue: seq<Line>, w: World, id: nat, p: Process, rounds: seq<Round>,
                                      end: World, dataLimit: nat) returns (p': Process)
    requires Inv(w, dataLimit) && queue <= w.queue && Busy(w, id, p, |rounds|) && FromBytes(w.data).Some?
    requires forall r :: r in rounds ==> LeavesAlone(r.others, id)
    requires Live(w, id, rounds, dataLimit) == Some(end)
    requires Readable(end.queue, p.cursor) && Room(end.data, p.cfg.batchSize, dataLimit)
    ensures Busy(end, id, p', 0) && p'.cfg == p.cfg
    ensures Pending(queue, p'.cursor) == AfterWindows(Pending(queue, p.cursor), |rounds|, p.cfg.batchSize)
    decreases |rounds|
  {
    hide AfterPass, Inv, Readable, Room, LeavesAlone, Exec, Busy, Pending, AfterWindows;
    OneMoreWindow(Pending(queue, p.cursor), if rounds == [] then 0 else |rounds| - 1, p.cfg.batchSize);
    if rounds == [] {
      p' := p;
    } else {
      var next, q := FirstDrains(queue, w, id, p, rounds, end, dataLimit);
      assert forall r :: r in rounds[1..] ==> r in rounds;
      p' := LiveDrains(queue, next, id, q, rounds[1..], end, dataLimit);
    }
  }

  lemma FirstDrains(queue: seq<Line>, w: World, id: nat, p: Process, rounds: seq<Round>, end: World, dataLimit: nat)
    returns (next: World, q: Process)
    requires Inv(w, dataLimit) && queue <= w.queue && rounds != [] && Busy(w, id, p, |rounds|)
    requires FromBytes(w.data).Some? && LeavesAlone(rounds[0].others, id)
    requires Live(w, id, rounds, dataLimit) == Some(end)
    requires Readable(end.queue, p.cursor) && Room(end.data, p.cfg.batchSize, dataLimit)
    ensures Live(next, id, rounds[1..], dataLimit) == Some(end)
    ensures Inv(next, dataLimit) && queue <= next.queue && Busy(next, id, q, |rounds| - 1) && FromBytes(next.data).Some?
    ensures q.cfg == p.cfg && Readable(end.queue, q.cursor)
    ensures var pending := Pending(queue, p.cursor);
      Pending(queue, q.cursor) == pending[Min(p.cfg.batchSize, |pending|)..]
  {
    hide AfterPass, Inv, Readable, Room, LeavesAlone, Busy, Pending, Exec, Increasing, FromBytes;
    var r := rounds[0];
    var mid := OthersAct(w, id, p, r.others, |rounds|, dataLimit);
    next := AfterPass(mid, id, r.now, dataLimit);
    RestOfLife(mid, id, r.now, rounds[1..], end, dataLimit);
    RoomBefore(mid.data, end.data, p.cfg.batchSize, dataLimit);
    ReadablePrefix(mid.queue, end.queue, p.cursor, p.cursor);
    q := PassDrainsPrefix(queue, mid, id, p, r.now, |rounds| - 1, dataLimit);
    ReadablePrefix(end.queue, end.queue, p.cursor, q.cursor);
  }

  /**
    A working tool is not held up by others.  From any reachable state, whatever other
    tools, publishers and senders do between its passes: after `k` passes every document
    of the first `k` windows pending at the start is on chain, if the queue stayed
    readable and the account still has space for a window at the end.
   */
  lemma DrainsAmongOthers(steps: seq<Step>, w: World, id: nat, p: Process, rounds: seq<Round>, end: World,
                          dataLimit: nat, i: nat)
    requires Exec(INITIAL, steps, dataLimit) == Some(w) && FromBytes(w.data).Some?
    requires Busy(w, id, p, |rounds|) && forall r :: r in rounds ==> LeavesAlone(r.others, id)
    requires Live(w, id, rounds, dataLimit) == Some(end)
    requires Readable(end.queue, p.cursor) && Room(end.data, p.cfg.batchSize, dataLimit)
    requires i < |w.queue| && DueKey(w.queue[i], U64_MAX).Some?
    requires Message(w.queue[i]) in FirstWindows(Pending(w.queue, p.cursor), |rounds|, p.cfg.batchSize)
    ensures DueKey(w.queue[i], U64_MAX).value in ChainKeys(end.data)
  {
    hide Inv, Readable, Room, LeavesAlone, Live, LifeSteps, AfterPass, DueKey, ToolInv, Between, Pending, Exec;
    InitialInv(dataLimit);
    ExecKeeps(INITIAL, steps, dataLimit);
    var q := LiveDrains(w.queue, w, id, p, rounds, end, dataLimit);
    var life := LifeSteps(w, id, rounds, dataLimit);
    LifeIsReachable(w, id, rounds, dataLimit);
    LifeStartsNothing(w, id, rounds, dataLimit);
    SinceNow(w, id, dataLimit);
    ExecSince(w, life, id, p.cursor, dataLimit);
    ExecKeeps(w, life, dataLimit);
    QueueExtends(w, life, dataLimit);
    SinceNow(end, id, dataLimit);
    PassedWindow(w.queue, p.cursor, q.cursor, |rounds|, p.cfg.batchSize, i);
    PassedIsAnchored(w.queue, end.queue, p.cursor, ChainKeys(end.data), end.tools[id], i);
  }

  lemma LifeStartsNothing(w: World, id: nat, rounds: seq<Round>, dataLimit: nat)
    requires Live(w, id, rounds, dataLimit).Some? && forall r :: r in rounds ==> LeavesAlone(r.others, id)
    ensures NoStart(LifeSteps(w, id, rounds, dataLimit), id)
  {
    hide LifeSteps, Live;
    LifeShape(w, id, rounds, dataLimit);
    var life := LifeSteps(w, id, rounds, dataLimit);
    forall k | 0 <= k < |life| ensures !IsStart(life[k], id) {
      assert life[k] in life;
    }
  }

  lemma SinceNow(w: World, id: nat, dataLimit: nat)
    requires Inv(w, dataLimit) && Runs(w, id)
    ensures
      var t := w.tools[id];
      && Increasing(w.queue) && t.phase.p.cursor == LoadedCursor(t.db)
      && (!t.phase.p.cfg.dryRun ==> Since(w.queue, t.phase.p.cursor, ChainKeys(w.data), t))
  {
    assert ToolInv(w.queue, ChainKeys(w.data), w.tools[id]);
  }

  /** A message of the windows taken off has a number up to the new cursor. */
  lemma PassedWindow(queue: seq<Line>, from: U64, cursor: U64, k: nat, size: nat, i: nat)
    requires Increasing(queue) && i < |queue| && DueKey(queue[i], U64_MAX).Some?
    requires Pending(queue, cursor) == AfterWindows(Pending(queue, from), k, size)
    requires Message(queue[i]) in FirstWindows(Pending(queue, from), k, size)
    ensures from < Number(queue[i]) <= cursor
  {
    var pending := Pending(queue, from);
    var m, n := Message(queue[i]), |FirstWindows(pending, k, size)|;
    PendingIncreasing(queue, from);
    PendingSource(queue, from);
    PendingSource(queue, cursor);
    assert m in pending;
    forall b | n <= b < |pending| ensures pending[b] != m {
      var a :| 0 <= a < n && pending[a] == m;
      assert pending[a].number < pending[b].number;
    }
    assert m !in pending[n..];
  }

  lemma PassedIsAnchored(queue: seq<Line>, longer: seq<Line>, from: U64, keys: set<Cid>, t: Tool, i: nat)
    requires queue <= longer && Since(longer, from, keys, t)
    requires i < |queue| && DueKey(queue[i], U64_MAX).Some? && from < Number(queue[i]) <= LoadedCursor(t.db)
    ensures DueKey(queue[i], U64_MAX).value in keys
  {
    assert longer[i] == queue[i];
    assert DueKey(longer[i], LoadedCursor(t.db)) == DueKey(queue[i], U64_MAX);
  }
}
