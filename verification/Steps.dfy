/** What each step of the protocol is able to do, and what it leaves alone. */
module Steps {
  import opened Types
  import opened Text
  import opened Borsh
  import opened Records
  import opened Registry
  import opened Guest
  import opened SpelArgs
  import opened Delivery
  import opened AnchorTool
  import opened Protocol
  import opened Safety

  // ----- one tool -----

  /** When each action of a tool can happen. */
  lemma EnabledExactly(queue: seq<Line>, data: seq<Byte>, t: Tool, a: Action, dataLimit: nat)
    ensures
      var lands := t.phase.Ready? && !t.phase.p.cfg.dryRun;
      Act(queue, data, t, a, dataLimit).Some? <==>
        match a
        case Start(_) => t.phase.Stopped?
        case Crash => !t.phase.Stopped?
        case ReachCap => t.phase.Polling? && 0 < t.phase.p.cfg.maxBatches <= t.phase.p.submitted
        case Poll => t.phase.Polling? && !(0 < t.phase.p.cfg.maxBatches <= t.phase.p.submitted)
        case Filter => t.phase.HasMessages?
        case SubmitReported(now) => lands && AnchorViaSpel(data, t.phase.entries, now, dataLimit).Committed?
        case SubmitUnreported(now) => lands && AnchorViaSpel(data, t.phase.entries, now, dataLimit).Committed?
        case SubmitFailed => lands
        case DryRun => t.phase.Ready? && t.phase.p.cfg.dryRun
        case Mark => t.phase.Marking?
        case Save => t.phase.Saving?
  {
    hide AnchorViaSpel, AfterPoll, AfterFilter, AfterSave;
  }

  /** An action that ends the process, whatever it does to the chain. */
  predicate Ends(a: Action) {
    a.Crash? || a.ReachCap? || a.SubmitUnreported? || a.SubmitFailed?
  }

  /**
    What an action changes: the anchored table by one entry per mark, the state table by
    saving, the chain by a submission that was applied, the listed keys by a dry run, and
    nothing else.  Ending the process changes neither table.
   */
  lemma EffectExact(queue: seq<Line>, data: seq<Byte>, t: Tool, a: Action, dataLimit: nat)
    requires Act(queue, data, t, a, dataLimit).Some?
    ensures
      var (t', data') := Act(queue, data, t, a, dataLimit).value;
      && t'.db.anchored == t.db.anchored
         + (if a.Mark? && t.phase.marked < |t.phase.entries| then {t.phase.entries[t.phase.marked].text} else {})
      && t'.db.state == (if a.Save? then t.db.state["cursor" := ToDecimal(t.phase.target)] else t.db.state)
      && data' == (if a.SubmitReported? || a.SubmitUnreported? then
                     AnchorViaSpel(data, t.phase.entries, a.now, dataLimit).data
                   else data)
      && t'.listed == t.listed + (if a.DryRun? then EntryKeys(t.phase.entries) else {})
      && (Ends(a) ==> t'.phase == Stopped && t'.db == t.db)
  {
    hide AnchorViaSpel, AfterPoll, AfterFilter, AfterSave, ToDecimal;
  }

  // ----- a submission that is applied but not reported -----

  /**
    A submission that is applied without being reported, and a process that dies right
    after a reported one, leave the same system behind: records on chain, nothing marked.
   */
  lemma UnreportedIsCrash(w: World, id: nat, now: U64, dataLimit: nat)
    ensures
      var reported := Next(w, ToolStep(id, SubmitReported(now)), dataLimit);
      var unreported := Next(w, ToolStep(id, SubmitUnreported(now)), dataLimit);
      && (reported.Some? <==> unreported.Some?)
      && (reported.Some? ==>
            && unreported == Exec(w, [ToolStep(id, SubmitReported(now)), ToolStep(id, Crash)], dataLimit)
            && unreported.value.tools[id].db == w.tools[id].db)
  {
    hide AnchorViaSpel;
    var reported := Next(w, ToolStep(id, SubmitReported(now)), dataLimit);
    if reported.Some? {
      TwoSteps(w, ToolStep(id, SubmitReported(now)), ToolStep(id, Crash), dataLimit);
      var t := w.tools[id];
      assert reported.value.tools[id := t.(phase := Stopped)] == w.tools[id := t.(phase := Stopped)];
    }
  }

  /** A submission that fails without being applied is a crash as well. */
  lemma FailedIsCrash(w: World, id: nat, dataLimit: nat)
    ensures
      var failed := Next(w, ToolStep(id, SubmitFailed), dataLimit);
      && (failed.Some? <==> id in w.tools && w.tools[id].phase.Ready? && !w.tools[id].phase.p.cfg.dryRun)
      && (failed.Some? ==> failed == Next(w, ToolStep(id, Crash), dataLimit))
  {
  }

  // ----- what submissions and foreign calls put on chain -----

  /**
    After a submission was applied, earlier answers are unchanged, and every other key of
    the batch is answered with the digest of its first entry and the time of submission.
   */
  lemma SubmissionAnswers(data: seq<Byte>, es: seq<AnchorEntry>, now: U64, dataLimit: nat, cid: Cid)
    requires es != [] && AnchorViaSpel(data, es, now, dataLimit).Committed?
    ensures
      var before, after := QueryByCid(data, cid), QueryByCid(AnchorViaSpel(data, es, now, dataLimit).data, cid);
      var rs := seq(|es|, i requires 0 <= i < |es| => DocumentRecord(es[i].cid, es[i].hash, now));
      before.Answer? && after == if before.record.Some? then before else Answer(Find(rs, cid))
  {
    hide Transact, AnchorViaSpel, Find;
    var call := Call(es, now);
    ViaSpelIsTransact(data, es, now, dataLimit);
    CommitAnswers(data, call, dataLimit, cid);
    PaddedAligned(call);
    var rs := seq(|es|, i requires 0 <= i < |es| => DocumentRecord(es[i].cid, es[i].hash, now));
    assert ToRecords(Entries(call)) == rs;
  }

  /**
    Anyone can send any call at any time.  It changes the chain exactly as the guest
    decides, and nothing else: a refused one nothing at all, and after a committed one
    every key it names is answered.
   */
  lemma ForeignExact(w: World, call: SpelCall, dataLimit: nat)
    ensures
      var w' := Next(w, Foreign(call), dataLimit);
      && w'.Some? && w'.value.queue == w.queue && w'.value.tools == w.tools
      && if Transact(w.data, call, dataLimit).Committed? then
           && w'.value.data == Transact(w.data, call, dataLimit).data
           && forall i :: 0 <= i < |call.cids| ==>
                |call.cids[i]| == 46 && QueryByCid(w'.value.data, call.cids[i]).Answer?
                && QueryByCid(w'.value.data, call.cids[i]).record.Some?
         else w'.value == w
  {
    if Transact(w.data, call, dataLimit).Committed? {
      CommitGrows(w.data, call, dataLimit);
      CommitFits(w.data, call, dataLimit);
      CommitExact(w.data, call, dataLimit);
      hide Transact;
      var after := FromBytes(Transact(w.data, call, dataLimit).data).value.records;
      forall i | 0 <= i < |call.cids|
        ensures |call.cids[i]| == 46 && Find(after, call.cids[i]).Some?
      {
        assert Good(Keys(FromBytes(w.data).value.records), call, i);
        FindAppend(after, [], call.cids[i]);
      }
    }
  }

  // ----- the environment -----

  /** A line can be appended as long as numbers keep increasing; it goes to the end and nothing else changes. */
  lemma AppendExact(w: World, line: Line, dataLimit: nat)
    requires Increasing(w.queue)
    ensures
      var w' := Next(w, Append(line), dataLimit);
      && (w'.Some? <==>
            line.Json? && 0 < Number(line) ==>
              forall i :: 0 <= i < |w.queue| && w.queue[i].Json? ==> Number(w.queue[i]) < Number(line))
      && (w'.Some? ==> w'.value == World(w.queue + [line], w.data, w.tools))
  {
    var longer := w.queue + [line];
    assert forall i :: 0 <= i < |w.queue| ==> longer[i] == w.queue[i];
    assert longer[|w.queue|] == line;
  }

  /** The registry can be deployed once, with space for four bytes, and starts with no records. */
  lemma DeployExact(w: World, dataLimit: nat)
    ensures
      var w' := Next(w, Deploy, dataLimit);
      && (w'.Some? <==> w.data == [] && 4 <= dataLimit)
      && (w'.Some? ==> w'.value == World(w.queue, [0, 0, 0, 0], w.tools))
  {
    hide Store;
    InitializeExact(dataLimit);
  }

  /** A tool joins once, with an empty database and not running. */
  lemma JoinExact(w: World, id: nat, dataLimit: nat)
    ensures
      var w' := Next(w, Join(id), dataLimit);
      && (w'.Some? <==> id !in w.tools)
      && (w'.Some? ==> w'.value == World(w.queue, w.data, w.tools[id := Tool(Db({}, map[]), Stopped, {})]))
  {
  }

  /** A tool's step happens exactly when its action can, and changes no other tool and not the queue. */
  lemma ToolStepExact(w: World, id: nat, a: Action, dataLimit: nat)
    ensures
      var w' := Next(w, ToolStep(id, a), dataLimit);
      && (w'.Some? <==> id in w.tools && Act(w.queue, w.data, w.tools[id], a, dataLimit).Some?)
      && (w'.Some? ==>
            && w'.value.queue == w.queue && w'.value.tools.Keys == w.tools.Keys
            && (w'.value.tools[id], w'.value.data) == Act(w.queue, w.data, w.tools[id], a, dataLimit).value
            && forall other :: other in w.tools && other != id ==> w'.value.tools[other] == w.tools[other])
  {
    hide Act;
  }
}
