/**
  The loop of the `run` command, as the program executes it: one pass per poll,
  against the queue file as that pass finds it, until the process stops or is killed.
 */
module RunLoop {
  import opened Types
  import opened Text
  import opened Guest
  import opened SpelArgs
  import opened Delivery
  import opened AnchorTool
  import opened Protocol

  /** What the environment supplies to one pass: the file content and the clock. */
  datatype Tick = Tick(queue: seq<Line>, now: U64)

  datatype Run = Run(db: Db, data: seq<Byte>, phase: Phase)

  function MarkAll(db: Db, es: seq<AnchorEntry>): Db {
    if es == [] then db else WithAnchored(MarkAll(db, es[..|es| - 1]), es[|es| - 1].text)
  }

  lemma {:induction false} MarkAllExact(db: Db, es: seq<AnchorEntry>)
    ensures MarkAll(db, es).state == db.state
    ensures MarkAll(db, es).anchored == db.anchored + EntryTexts(es)
  {
    if es != [] {
      MarkAllExact(db, es[..|es| - 1]);
    }
  }

  /** One pass of the loop for a running process. */
  function Pass(db: Db, data: seq<Byte>, p: Process, tick: Tick, dataLimit: nat): Run {
    if CapReached(p) then Run(db, data, Stopped)
    else
      var polled := AfterPoll(tick.queue, p);
      if polled.HasMessages? then HandleWindow(db, data, p, polled.messages, tick.now, dataLimit)
      else Run(db, data, polled)
  }

  function HandleWindow(db: Db, data: seq<Byte>, p: Process, ms: seq<DeliveryMsg>, now: U64, dataLimit: nat): Run {
    var es, target := Gather(db.anchored, ms), MaxNumber(ms, p.cursor);
    if es == [] then Run(WithCursor(db, target), data, AfterSave(p, target, false))
    else if p.cfg.dryRun then Run(WithCursor(db, target), data, AfterSave(p, target, true))
    else
      var r := AnchorViaSpel(data, es, now, dataLimit);
      if r.Committed? then Run(WithCursor(MarkAll(db, es), target), r.data, AfterSave(p, target, true))
      else Run(db, data, Stopped)
  }

  /** What the loop leaves when a window is handled to the end. */
  ghost predicate Handled(db: Db, run: Run, p: Process, target: U64, marked: set<string>, counted: nat) {
    && run.db.anchored == db.anchored + marked
    && run.db.state == db.state["cursor" := ToDecimal(target)]
    && run.phase == if p.cfg.once then Stopped else Polling(Process(p.cfg, target, p.submitted + counted))
  }

  lemma WindowExact(db: Db, data: seq<Byte>, p: Process, ms: seq<DeliveryMsg>, now: U64, dataLimit: nat)
    ensures
      var run := HandleWindow(db, data, p, ms, now, dataLimit);
      var target, r := MaxNumber(ms, p.cursor), AnchorViaSpel(data, Gather(db.anchored, ms), now, dataLimit);
      if !WantsAny(db.anchored, ms) then run.data == data && Handled(db, run, p, target, {}, 0)
      else if p.cfg.dryRun then run.data == data && Handled(db, run, p, target, {}, 1)
      else if r.Committed? then
        run.data == r.data && Handled(db, run, p, target, WantedTexts(db.anchored, ms), 1)
      else run == Run(db, data, Stopped)
  {
    hide AnchorViaSpel, Gather, MaxNumber, ToDecimal;
    var es, target := Gather(db.anchored, ms), MaxNumber(ms, p.cursor);
    GatheredTexts(db.anchored, ms);
    MarkAllExact(db, es);
    StatementsExact(db, target, "");
    StatementsExact(MarkAll(db, es), target, "");
  }

  /**
    One pass, case by case.  At its cap and on a poll error the process stops with
    nothing changed; nothing pending ends only a `once` run.  Otherwise the cursor moves
    to the highest number seen and a batch is counted exactly when some message of the
    window was to be anchored; those CIDs are marked when the submission committed, and
    when it did not, the process stops with nothing changed.
   */
  lemma PassExact(db: Db, data: seq<Byte>, p: Process, tick: Tick, dataLimit: nat)
    ensures
      var run, polled := Pass(db, data, p, tick, dataLimit), Polled(tick.queue, p.cursor, p.cfg.batchSize);
      if 0 < p.cfg.maxBatches <= p.submitted || polled.None? then run == Run(db, data, Stopped)
      else if polled.value == [] then run == Run(db, data, if p.cfg.once then Stopped else Polling(p))
      else
        var ms := polled.value;
        var target, r := MaxNumber(ms, p.cursor), AnchorViaSpel(data, Gather(db.anchored, ms), tick.now, dataLimit);
        if !WantsAny(db.anchored, ms) then run.data == data && Handled(db, run, p, target, {}, 0)
        else if p.cfg.dryRun then run.data == data && Handled(db, run, p, target, {}, 1)
        else if r.Committed? then
          run.data == r.data && Handled(db, run, p, target, WantedTexts(db.anchored, ms), 1)
        else run == Run(db, data, Stopped)
  {
    hide HandleWindow, Polled, AnchorViaSpel, Gather, MaxNumber, Handled;
    var polled := AfterPoll(tick.queue, p);
    if polled.HasMessages? {
      WindowExact(db, data, p, polled.messages, tick.now, dataLimit);
    }
  }

  /** All passes the process lives to make. */
  function Passes(run: Run, ticks: seq<Tick>, dataLimit: nat): Run
    decreases |ticks|
  {
    if ticks == [] || !run.phase.Polling? then run
    else Passes(Pass(run.db, run.data, run.phase.p, ticks[0], dataLimit), ticks[1..], dataLimit)
  }

  method MarkEntries(db: StateDb, es: seq<AnchorEntry>)
    modifies db
    ensures db.View() == MarkAll(old(db.View()), es)
  {
    for i := 0 to |es|
      invariant db.View() == MarkAll(old(db.View()), es[..i])
    {
      assert es[..i + 1][..i] == es[..i];
      db.MarkAnchored(es[i].text);
    }
    assert es[..|es|] == es;
  }

  /** Prints the arguments, lets spel parse them, and sends the instruction. */
  method AnchorOnChain(chain: RegistryAccount, es: seq<AnchorEntry>, now: U64, dataLimit: nat) returns (r: TxOutcome)
    modifies chain
    ensures r == AnchorViaSpel(old(chain.data), es, now, dataLimit)
    ensures chain.data == if r.Committed? then r.data else old(chain.data)
  {
    var call := ReadArgs(PrintArgs(es, now));
    if call.None? {
      return Rejected(0);
    }
    r := chain.AnchorBatch(call.value, dataLimit);
  }

  /** The loop body from a non-empty poll on. */
  method GatherAndAnchor(db: StateDb, chain: RegistryAccount, p: Process, ms: seq<DeliveryMsg>,
                         now: U64, dataLimit: nat)
    returns (next: Phase)
    modifies db, chain
    ensures Run(db.View(), chain.data, next) == HandleWindow(old(db.View()), old(chain.data), p, ms, now, dataLimit)
  {
    var entries, newCursor := GatherEntries(db, ms, p.cursor);
    if entries == [] {
      db.SaveCursor(newCursor);
      return AfterSave(p, newCursor, false);
    }
    if !p.cfg.dryRun {
      var r := AnchorOnChain(chain, entries, now, dataLimit);
      if !r.Committed? {
        return Stopped;
      }
      MarkEntries(db, entries);
    }
    db.SaveCursor(newCursor);
    return AfterSave(p, newCursor, true);
  }

  /** The loop body. */
  method PassOnce(db: StateDb, chain: RegistryAccount, p: Process, tick: Tick, dataLimit: nat) returns (next: Phase)
    modifies db, chain
    ensures Run(db.View(), chain.data, next) == Pass(old(db.View()), old(chain.data), p, tick, dataLimit)
  {
    if 0 < p.cfg.maxBatches && p.cfg.maxBatches <= p.submitted {
      return Stopped;
    }
    var polled := PollDelivery(tick.queue, p.cursor, p.cfg.batchSize);
    if polled.None? {
      return Stopped;
    }
    if polled.value == [] {
      return if p.cfg.once then Stopped else Polling(p);
    }
    next := GatherAndAnchor(db, chain, p, polled.value, tick.now, dataLimit);
  }

  /** The command: passes until the loop breaks, fails, or the ticks it lives for are over. */
  method RunTool(db: StateDb, chain: RegistryAccount, cfg: Config, ticks: seq<Tick>, dataLimit: nat)
    returns (end: Phase)
    modifies db, chain
    ensures
      var start := Polling(Process(cfg, LoadedCursor(old(db.View())), 0));
      Run(db.View(), chain.data, end) == Passes(Run(old(db.View()), old(chain.data), start), ticks, dataLimit)
  {
    var cursor := db.LoadCursor();
    end := Polling(Process(cfg, cursor, 0));
    ghost var all := Passes(Run(db.View(), chain.data, end), ticks, dataLimit);
    assert ticks[0..] == ticks;
    var i := 0;
    while i < |ticks| && end.Polling?
      invariant i <= |ticks|
      invariant all == Passes(Run(db.View(), chain.data, end), ticks[i..], dataLimit)
    {
      assert ticks[i..][0] == ticks[i] && ticks[i..][1..] == ticks[i + 1..];
      end := PassOnce(db, chain, end.p, ticks[i], dataLimit);
      i := i + 1;
    }
  }
}
