/** What a dry run does to the guarantee that no document is lost. */
module DryRuns {
  import opened Types
  import opened Borsh
  import opened Delivery
  import opened AnchorTool
  import opened SpelArgs
  import opened Protocol
  import opened Safety
  import CidText

  // ----- over a whole run -----

  /** Every key a dry run of the tool has listed, and its cursor has passed, is on chain all the same. */
  ghost predicate ListedOnChain(w: World, id: nat)
    requires id in w.tools
  {
    var t := w.tools[id];
    forall key :: key in t.listed && IsDue(w.queue, LoadedCursor(t.db), key) ==> key in ChainKeys(w.data)
  }

  lemma CoveredExactly(queue: seq<Line>, c: U64, keys: set<Cid>, listed: set<Cid>)
    requires Covered(queue, c, keys + listed)
    ensures Covered(queue, c, keys) <==> forall key :: key in listed && IsDue(queue, c, key) ==> key in keys
  {
    forall i | 0 <= i < |queue| && DueKey(queue[i], c).Some? ensures IsDue(queue, c, DueKey(queue[i], c).value) {
    }
  }

  /**
    In every reachable state, dry runs or not: every document numbered up to a tool's
    cursor, persisted or in memory, is on chain if and only if every key that its dry
    runs have listed and its cursor has passed is.
   */
  lemma NothingLostExactly(steps: seq<Step>, id: nat, dataLimit: nat)
    requires Exec(INITIAL, steps, dataLimit).Some? && id in Exec(INITIAL, steps, dataLimit).value.tools
    ensures
      var w := Exec(INITIAL, steps, dataLimit).value;
      var t := w.tools[id];
      && (Covered(w.queue, LoadedCursor(t.db), ChainKeys(w.data)) <==> ListedOnChain(w, id))
      && (MemoryCursor(t).Some? ==> MemoryCursor(t).value == LoadedCursor(t.db))
  {
    InitialInv(dataLimit);
    ExecKeeps(INITIAL, steps, dataLimit);
    var w := Exec(INITIAL, steps, dataLimit).value;
    var t := w.tools[id];
    assert ToolInv(w.queue, ChainKeys(w.data), t);
    CoveredExactly(w.queue, LoadedCursor(t.db), ChainKeys(w.data), t.listed);
  }

  // ----- one window -----

  /**
    A dry run that has gathered entries saves its cursor without anchoring them.
    Afterwards no document is lost exactly when none was lost before and every key of
    this window is on chain already.
   */
  lemma DryRunKeepsExactly(steps: seq<Step>, id: nat, dataLimit: nat)
    requires Exec(INITIAL, steps, dataLimit).Some?
    ensures
      var w := Exec(INITIAL, steps, dataLimit).value;
      id in w.tools && w.tools[id].phase.Ready? && w.tools[id].phase.p.cfg.dryRun ==>
        var t := w.tools[id];
        var done := Exec(w, [ToolStep(id, DryRun), ToolStep(id, Save)], dataLimit);
        && done.Some? && id in done.value.tools
        && (Covered(done.value.queue, LoadedCursor(done.value.tools[id].db), ChainKeys(done.value.data))
            <==> Covered(w.queue, LoadedCursor(t.db), ChainKeys(w.data))
                 && EntryKeys(t.phase.entries) <= ChainKeys(w.data))
  {
    InitialInv(dataLimit);
    ExecKeeps(INITIAL, steps, dataLimit);
    var w := Exec(INITIAL, steps, dataLimit).value;
    if id in w.tools && w.tools[id].phase.Ready? && w.tools[id].phase.p.cfg.dryRun {
      var t := w.tools[id];
      TargetCoveredExactly(w.queue, ChainKeys(w.data), t) by {
        assert ToolInv(w.queue, ChainKeys(w.data), t);
      }
      DryRunSaves(w, id, dataLimit);
    }
  }

  lemma DryRunSaves(w: World, id: nat, dataLimit: nat)
    requires id in w.tools && w.tools[id].phase.Ready? && w.tools[id].phase.p.cfg.dryRun
    ensures
      var done := Exec(w, [ToolStep(id, DryRun), ToolStep(id, Save)], dataLimit);
      && done.Some? && id in done.value.tools && done.value.queue == w.queue && done.value.data == w.data
      && LoadedCursor(done.value.tools[id].db) == w.tools[id].phase.target
  {
    var t := w.tools[id];
    var p, target := t.phase.p, t.phase.target;
    var t1 := t.(phase := Saving(p, target, true), listed := t.listed + EntryKeys(t.phase.entries));
    var w1 := w.(tools := w.tools[id := t1]);
    assert Next(w, ToolStep(id, DryRun), dataLimit) == Some(w1);
    var t2 := t1.(db := WithCursor(t.db, target), phase := AfterSave(p, target, true));
    assert Next(w1, ToolStep(id, Save), dataLimit) == Some(w1.(tools := w1.tools[id := t2]));
    TwoSteps(w, ToolStep(id, DryRun), ToolStep(id, Save), dataLimit);
    CursorPersists(t.db, target, "");
  }

  lemma TargetCoveredExactly(queue: seq<Line>, keys: set<Cid>, t: Tool)
    requires t.phase.Ready? && ToolInv(queue, keys, t)
    ensures Covered(queue, t.phase.target, keys)
       <==> Covered(queue, LoadedCursor(t.db), keys) && EntryKeys(t.phase.entries) <= keys
  {
    var es, cursor, target := t.phase.entries, t.phase.p.cursor, t.phase.target;
    if Covered(queue, target, keys) {
      forall e | e in es ensures e.cid in keys {
        assert ReadFrom(queue, e, cursor, target);
      }
      forall i | 0 <= i < |queue| && DueKey(queue[i], cursor).Some? ensures DueKey(queue[i], cursor).value in keys {
        assert DueKey(queue[i], target) == DueKey(queue[i], cursor);
      }
    }
    if EntryKeys(es) <= keys {
      assert keys + EntryKeys(es) == keys;
    }
  }

  const DRY := Config(50, 0, true, true)

  function DryTrace(p: Payload): seq<Step> {
    [Append(Json(Some(1), Some(p))), Join(0)]
    + [ToolStep(0, Start(DRY)), ToolStep(0, Poll)]
    + [ToolStep(0, Filter), ToolStep(0, DryRun)]
    + [ToolStep(0, Save)]
  }

  /** The world of the trace, with its one document and its one tool in a given state. */
  function OneTool(p: Payload, t: Tool): World {
    World([Json(Some(1), Some(p))], [], map[0 := t])
  }

  lemma ToolMoves(p: Payload, t: Tool, a: Action, t': Tool, dataLimit: nat)
    requires Act(OneTool(p, t).queue, [], t, a, dataLimit) == Some((t', []))
    ensures Next(OneTool(p, t), ToolStep(0, a), dataLimit) == Some(OneTool(p, t'))
  {
    assert OneTool(p, t).tools[0 := t'] == map[0 := t'];
  }

  lemma TraceSetup(p: Payload, dataLimit: nat)
    ensures Exec(INITIAL, [Append(Json(Some(1), Some(p))), Join(0)], dataLimit) == Some(OneTool(p, NEW_TOOL))
  {
    var line := Json(Some(1), Some(p));
    assert [] + [line] == [line];
    TwoSteps(INITIAL, Append(line), Join(0), dataLimit);
    assert INITIAL.tools[0 := NEW_TOOL] == map[0 := NEW_TOOL];
  }

  lemma TracePoll(p: Payload, dataLimit: nat)
    ensures Exec(OneTool(p, NEW_TOOL), [ToolStep(0, Start(DRY)), ToolStep(0, Poll)], dataLimit)
         == Some(OneTool(p, Tool(EMPTY_DB, HasMessages(Process(DRY, 0, 0), [DeliveryMsg(1, p)]), {})))
  {
    var line, m := Json(Some(1), Some(p)), DeliveryMsg(1, p);
    SortOfSorted([m]);
    assert [line][1..] == [] && Scan([], 0, 49) == Some([]) && [m] + [] == [m];
    assert Polled([line], 0, 50) == Some([m]);
    var polling := Tool(EMPTY_DB, Polling(Process(DRY, 0, 0)), {});
    ToolMoves(p, NEW_TOOL, Start(DRY), polling, dataLimit);
    ToolMoves(p, polling, Poll, Tool(EMPTY_DB, HasMessages(Process(DRY, 0, 0), [m]), {}), dataLimit);
    TwoSteps(OneTool(p, NEW_TOOL), ToolStep(0, Start(DRY)), ToolStep(0, Poll), dataLimit);
  }

  lemma TraceDryRun(p: Payload, dataLimit: nat)
    requires CidText.DecodeCid(p.cid).Some?
    ensures Exec(OneTool(p, Tool(EMPTY_DB, HasMessages(Process(DRY, 0, 0), [DeliveryMsg(1, p)]), {})),
                 [ToolStep(0, Filter), ToolStep(0, DryRun)], dataLimit)
         == Some(OneTool(p, Tool(EMPTY_DB, Saving(Process(DRY, 0, 0), 1, true), {CidText.DecodeCid(p.cid).value})))
  {
    hide CidText.DecodeCid, LoadedCursor, AnchorViaSpel;
    var start, m := Process(DRY, 0, 0), DeliveryMsg(1, p);
    var e := AnchorEntry(CidText.DecodeCid(p.cid).value, p.metaHash, p.cid);
    assert [m][..0] == [] && Gather({}, []) == [] && Gather({}, [m]) == [] + [e] == [e];
    assert MaxNumber([m], 0) == 1;
    var polled := Tool(EMPTY_DB, HasMessages(start, [m]), {});
    var ready := Tool(EMPTY_DB, Ready(start, [e], 1), {});
    ToolMoves(p, polled, Filter, ready, dataLimit);
    assert EntryKeys([e]) == {e.cid} by {
      assert [e][0].cid in EntryKeys([e]);
    }
    assert {} + {e.cid} == {e.cid};
    ToolMoves(p, ready, DryRun, Tool(EMPTY_DB, Saving(start, 1, true), {CidText.DecodeCid(p.cid).value}), dataLimit);
    TwoSteps(OneTool(p, polled), ToolStep(0, Filter), ToolStep(0, DryRun), dataLimit);
  }

  /** One document, one dry run: the cursor passes a document that is not on chain. */
  lemma DryRunLosesDocument(p: Payload, dataLimit: nat)
    requires CidText.DecodeCid(p.cid).Some?
    ensures
      var done := Exec(INITIAL, DryTrace(p), dataLimit);
      && done.Some? && 0 in done.value.tools
      && done.value.queue == [Json(Some(1), Some(p))]
      && LoadedCursor(done.value.tools[0].db) == 1
      && CidText.DecodeCid(p.cid).value !in ChainKeys(done.value.data)
  {
    TraceUntilSave(p, dataLimit);
    var saving := Tool(EMPTY_DB, Saving(Process(DRY, 0, 0), 1, true), {CidText.DecodeCid(p.cid).value});
    CursorPersists(EMPTY_DB, 1, "");
    ToolMoves(p, saving, Save, Tool(WithCursor(EMPTY_DB, 1), Stopped, {CidText.DecodeCid(p.cid).value}), dataLimit);
    OneStep(OneTool(p, saving), ToolStep(0, Save), dataLimit);
    ExecSplit(INITIAL, DryTrace(p)[..6], [ToolStep(0, Save)], dataLimit);
    assert DryTrace(p) == DryTrace(p)[..6] + [ToolStep(0, Save)];
    assert ChainKeys([]) == {} by {
      AccountLength([]);
    }
  }

  lemma TraceUntilSave(p: Payload, dataLimit: nat)
    requires CidText.DecodeCid(p.cid).Some?
    ensures Exec(INITIAL, DryTrace(p)[..6], dataLimit)
         == Some(OneTool(p, Tool(EMPTY_DB, Saving(Process(DRY, 0, 0), 1, true), {CidText.DecodeCid(p.cid).value})))
  {
    var setup := [Append(Json(Some(1), Some(p))), Join(0)];
    var poll := [ToolStep(0, Start(DRY)), ToolStep(0, Poll)];
    var dry := [ToolStep(0, Filter), ToolStep(0, DryRun)];
    TraceSetup(p, dataLimit);
    TracePoll(p, dataLimit);
    TraceDryRun(p, dataLimit);
    ExecSplit(INITIAL, setup, poll, dataLimit);
    ExecSplit(INITIAL, setup + poll, dry, dataLimit);
    assert DryTrace(p)[..6] == setup + poll + dry;
  }
}
