/**
  Deduplicated broadcasting: any number of concurrent broadcast calls on one
  indexer, which share a locked set of CIDs and wait for the network in between.
 */
module Broadcast {
  import opened Types

  // ----- the two critical sections -----

  /** First lock: claim the CID unless it is claimed already. */
  function Claim(seen: set<string>, cid: string): (bool, set<string>) {
    if cid in seen then (false, seen) else (true, seen + {cid})
  }

  /** Second lock, after a failed send. */
  function Release(seen: set<string>, cid: string): set<string> {
    seen - {cid}
  }

  class Indexer {
    var broadcasted: set<string>

    constructor ()
      ensures broadcasted == {}
    {
      broadcasted := {};
    }

    method TryClaim(cid: string) returns (claimed: bool)
      modifies this
      ensures (claimed, broadcasted) == Claim(old(broadcasted), cid)
    {
      if cid in broadcasted {
        return false;
      }
      broadcasted := broadcasted + {cid};
      return true;
    }

    method Undo(cid: string)
      modifies this
      ensures broadcasted == Release(old(broadcasted), cid)
    {
      broadcasted := broadcasted - {cid};
    }

    /** A call that nobody interleaves with; `send` is what the backend answers. */
    method BroadcastAlone(cid: string, send: Result<(), string>) returns (r: Result<(), string>)
      modifies this
      ensures r == if cid in old(broadcasted) then Ok(()) else send
      ensures broadcasted == if send.Ok? then old(broadcasted) + {cid} else old(broadcasted)
    {
      var claimed := TryClaim(cid);
      if !claimed {
        return Ok(());
      }
      if send.Err? {
        Undo(cid);
      }
      return send;
    }
  }

  // ----- concurrent calls -----

  datatype Task =
    | Arrived(cid: string)    // called, first lock not taken yet
    | Sending(cid: string)    // claimed, waiting for the network
    | Failing(cid: string)    // send failed, second lock not taken yet
    | Delivered(cid: string)  // returned Ok after sending
    | Deduped(cid: string)    // returned Ok without sending
    | Errored(cid: string)    // returned the error
    | Abandoned(cid: string)  // cancelled while it waited for the network
    | Withdrawn(cid: string)  // cancelled before it claimed anything

  datatype Session = Session(seen: set<string>, tasks: map<nat, Task>)

  const FRESH := Session({}, map[])

  // A call can be cancelled before it starts and while it waits for the network; from the
  // answer of the network on it runs to its end.
  datatype Event =
    | Arrive(id: nat, cid: string)
    | Enter(id: nat)
    | SendOk(id: nat)
    | SendErr(id: nat)
    | Leave(id: nat)
    | Cancel(id: nat)

  function SetTask(s: Session, id: nat, t: Task): Session {
    s.(tasks := s.tasks[id := t])
  }

  function Next(s: Session, e: Event): Option<Session> {
    if e.Arrive? then if e.id in s.tasks then None else Some(SetTask(s, e.id, Arrived(e.cid)))
    else if e.id !in s.tasks then None
    else
      match (e, s.tasks[e.id])
      case (Enter(id), Arrived(cid)) =>
        var (claimed, seen) := Claim(s.seen, cid);
        Some(SetTask(s.(seen := seen), id, if claimed then Sending(cid) else Deduped(cid)))
      case (SendOk(id), Sending(cid)) => Some(SetTask(s, id, Delivered(cid)))
      case (SendErr(id), Sending(cid)) => Some(SetTask(s, id, Failing(cid)))
      case (Leave(id), Failing(cid)) => Some(SetTask(s.(seen := Release(s.seen, cid)), id, Errored(cid)))
      case (Cancel(id), Arrived(cid)) => Some(SetTask(s, id, Withdrawn(cid)))
      case (Cancel(id), Sending(cid)) => Some(SetTask(s, id, Abandoned(cid)))
      case _ => None
  }

  function Exec(s: Session, events: seq<Event>): Option<Session>
    decreases |events|
  {
    if events == [] then Some(s)
    else
      match Next(s, events[0])
      case None => None
      case Some(s') => Exec(s', events[1..])
  }

  /** A task that holds the claim on its CID, or held it when it ended. */
  predicate Owns(t: Task) {
    t.Sending? || t.Failing? || t.Delivered? || t.Abandoned?
  }

  ghost predicate IsOwner(s: Session, id: nat, cid: string) {
    id in s.tasks && Owns(s.tasks[id]) && s.tasks[id].cid == cid
  }

  ghost predicate Inv(s: Session) {
    && (forall cid :: cid in s.seen ==> exists id :: IsOwner(s, id, cid))
    && (forall id :: id in s.tasks && Owns(s.tasks[id]) ==> s.tasks[id].cid in s.seen)
    && (forall id, other, cid :: IsOwner(s, id, cid) && IsOwner(s, other, cid) ==> id == other)
  }

  lemma NextKeeps(s: Session, e: Event)
    requires Inv(s) && Next(s, e).Some?
    ensures Inv(Next(s, e).value)
  {
    var s' := Next(s, e).value;
    forall cid | cid in s'.seen ensures exists id :: IsOwner(s', id, cid) {
      if cid in s.seen {
        var id :| IsOwner(s, id, cid);
        assert IsOwner(s', id, cid);
      } else {
        assert IsOwner(s', e.id, cid);
      }
    }
    forall id, other, cid | IsOwner(s', id, cid) && IsOwner(s', other, cid) ensures id == other {
      if id != e.id { assert IsOwner(s, id, cid); }
      if other != e.id { assert IsOwner(s, other, cid); }
      if cid in s.seen && id != other {
        assert IsOwner(s, e.id, cid);
      }
    }
    forall id | id in s'.tasks && Owns(s'.tasks[id]) ensures s'.tasks[id].cid in s'.seen {
      if id != e.id {
        assert IsOwner(s, id, s.tasks[id].cid);
        if e.id in s.tasks && s.tasks[e.id].Failing? && s.tasks[e.id].cid == s.tasks[id].cid {
          assert IsOwner(s, e.id, s.tasks[id].cid);
        }
      }
    }
  }

  /** Claims that outlived their call: they never change again. */
  predicate Settled(t: Task) {
    t.Abandoned? || t.Delivered?
  }

  lemma NextSettled(s: Session, e: Event, id: nat)
    requires Next(s, e).Some? && id in s.tasks && Settled(s.tasks[id])
    ensures id in Next(s, e).value.tasks && Next(s, e).value.tasks[id] == s.tasks[id]
  {
  }

  lemma {:induction false} ExecSettled(s: Session, events: seq<Event>, id: nat)
    requires Exec(s, events).Some? && id in s.tasks && Settled(s.tasks[id])
    ensures id in Exec(s, events).value.tasks && Exec(s, events).value.tasks[id] == s.tasks[id]
    decreases |events|
  {
    if events != [] {
      NextSettled(s, events[0], id);
      ExecSettled(Next(s, events[0]).value, events[1..], id);
    }
  }

  lemma {:induction false} ExecKeeps(s: Session, events: seq<Event>)
    requires Inv(s) && Exec(s, events).Some?
    ensures Inv(Exec(s, events).value)
    decreases |events|
  {
    hide Inv;
    if events != [] {
      NextKeeps(s, events[0]);
      ExecKeeps(Next(s, events[0]).value, events[1..]);
    }
  }

  // ----- one call alone, and one event -----

  /**
    A call that nobody interleaves with leaves what an uninterrupted run of the method
    leaves: Ok and nothing sent for a claimed CID, otherwise the backend's answer, and
    the CID claimed for good only on success.
   */
  lemma CallAlone(s: Session, id: nat, cid: string)
    requires id !in s.tasks
    ensures cid in s.seen ==> Exec(s, [Arrive(id, cid), Enter(id)]) == Some(Ended(s, id, Deduped(cid), s.seen))
    ensures cid !in s.seen ==>
      && Exec(s, [Arrive(id, cid), Enter(id)] + [SendOk(id)]) == Some(Ended(s, id, Delivered(cid), s.seen + {cid}))
      && Exec(s, [Arrive(id, cid), Enter(id)] + [SendErr(id), Leave(id)]) == Some(Ended(s, id, Errored(cid), s.seen))
  {
    var arrived := Ended(s, id, Arrived(cid), s.seen);
    TwoEvents(s, Arrive(id, cid), Enter(id), arrived, Next(arrived, Enter(id)).value, []);
    assert [Arrive(id, cid), Enter(id)] + [] == [Arrive(id, cid), Enter(id)];
    SetAgain(s, id, Arrived(cid), Deduped(cid), s.seen);
    if cid !in s.seen {
      var sending := Ended(s, id, Sending(cid), s.seen + {cid});
      SetAgain(s, id, Arrived(cid), Sending(cid), s.seen + {cid});
      ExecSplit(s, [Arrive(id, cid), Enter(id)], [SendOk(id)]);
      ExecSplit(s, [Arrive(id, cid), Enter(id)], [SendErr(id), Leave(id)]);
      SetAgain(s, id, Sending(cid), Delivered(cid), s.seen + {cid});
      SetAgain(s, id, Sending(cid), Failing(cid), s.seen + {cid});
      SetAgain(s, id, Failing(cid), Errored(cid), s.seen);
      OneEvent(sending, SendOk(id), []);
      assert [SendOk(id)] + [] == [SendOk(id)];
      var failing := Ended(s, id, Failing(cid), s.seen + {cid});
      assert s.seen + {cid} - {cid} == s.seen;
      TwoEvents(sending, SendErr(id), Leave(id), failing, Ended(s, id, Errored(cid), s.seen), []);
      assert [SendErr(id), Leave(id)] + [] == [SendErr(id), Leave(id)];
    }
  }

  function Ended(s: Session, id: nat, t: Task, seen: set<string>): Session {
    Session(seen, s.tasks[id := t])
  }

  lemma SetAgain(s: Session, id: nat, t: Task, u: Task, seen: set<string>)
    ensures s.tasks[id := t][id := u] == s.tasks[id := u]
    ensures SetTask(Ended(s, id, t, seen), id, u) == Ended(s, id, u, seen)
  {
  }

  /** When each event can happen, what becomes of its task, and that it touches no other task and no other CID. */
  lemma EventExact(s: Session, e: Event)
    ensures
      var t := if e.id in s.tasks then Some(s.tasks[e.id]) else None;
      Next(s, e).Some? <==>
        match e
        case Arrive(_, _) => t.None?
        case Enter(_) => t.Some? && t.value.Arrived?
        case SendOk(_) => t.Some? && t.value.Sending?
        case SendErr(_) => t.Some? && t.value.Sending?
        case Leave(_) => t.Some? && t.value.Failing?
        case Cancel(_) => t.Some? && (t.value.Arrived? || t.value.Sending?)
    ensures Next(s, e).Some? ==>
      var s' := Next(s, e).value;
      && s'.tasks.Keys == s.tasks.Keys + {e.id}
      && (forall other :: other in s.tasks && other != e.id ==> s'.tasks[other] == s.tasks[other])
      && (e.id in s.tasks ==> s'.tasks[e.id].cid == s.tasks[e.id].cid)
      && (forall cid :: cid != s'.tasks[e.id].cid ==> (cid in s'.seen <==> cid in s.seen))
      && (s'.seen != s.seen ==> e.Enter? || e.Leave?)
      && (e.Cancel? ==> if s.tasks[e.id].Arrived? then s'.tasks[e.id].Withdrawn? else s'.tasks[e.id].Abandoned?)
  {
  }

  lemma FreshInv()
    ensures Inv(FRESH)
  {
  }

  /**
    In every reachable session a CID is in the set exactly when one task, and only
    one, owns it.
   */
  lemma OwnershipExact(events: seq<Event>, cid: string)
    requires Exec(FRESH, events).Some?
    ensures
      var s := Exec(FRESH, events).value;
      cid in s.seen <==> exists id :: IsOwner(s, id, cid) && forall other :: IsOwner(s, other, cid) ==> other == id
  {
    FreshInv();
    ExecKeeps(FRESH, events);
    var s := Exec(FRESH, events).value;
    if cid in s.seen {
      var id :| IsOwner(s, id, cid);
      assert forall other :: IsOwner(s, other, cid) ==> other == id;
    }
  }

  /** At most one call ever reports that it sent a given CID. */
  lemma AtMostOneDelivery(events: seq<Event>, id: nat, other: nat)
    requires Exec(FRESH, events).Some?
    requires
      var tasks := Exec(FRESH, events).value.tasks;
      && id in tasks && tasks[id].Delivered?
      && other in tasks && tasks[other].Delivered? && tasks[id].cid == tasks[other].cid
    ensures id == other
  {
    FreshInv();
    ExecKeeps(FRESH, events);
    var s := Exec(FRESH, events).value;
    assert IsOwner(s, id, s.tasks[id].cid) && IsOwner(s, other, s.tasks[id].cid);
  }

  /** A failing call gives up its own claim, after which the CID can be sent again, and nobody else's. */
  lemma FailureReleasesOwnClaim(events: seq<Event>, id: nat)
    requires Exec(FRESH, events).Some? && Next(Exec(FRESH, events).value, Leave(id)).Some?
    ensures
      var s := Exec(FRESH, events).value;
      var s' := Next(s, Leave(id)).value;
      && s'.seen == s.seen - {s.tasks[id].cid}
      && (forall other :: other in s.tasks && other != id && Owns(s.tasks[other]) ==> s.tasks[other].cid in s'.seen)
  {
    FreshInv();
    ExecKeeps(FRESH, events);
    var s := Exec(FRESH, events).value;
    forall other | other in s.tasks && other != id && Owns(s.tasks[other])
      ensures s.tasks[other].cid != s.tasks[id].cid
    {
      assert IsOwner(s, id, s.tasks[id].cid) && IsOwner(s, other, s.tasks[other].cid);
    }
  }

  ghost predicate NoCancel(events: seq<Event>) {
    forall k :: 0 <= k < |events| ==> !events[k].Cancel?
  }

  lemma {:induction false} NobodyAbandons(s: Session, events: seq<Event>)
    requires Exec(s, events).Some? && NoCancel(events)
    requires forall id :: id in s.tasks ==> !s.tasks[id].Abandoned?
    ensures forall id :: id in Exec(s, events).value.tasks ==> !Exec(s, events).value.tasks[id].Abandoned?
    decreases |events|
  {
    if events != [] {
      assert !events[0].Cancel?;
      assert forall k :: 0 <= k < |events[1..]| ==> events[1..][k] == events[k + 1];
      NobodyAbandons(Next(s, events[0]).value, events[1..]);
    }
  }

  /** Without cancellation the owner is sending, about to release, or has delivered. */
  lemma OwnershipWithoutCancel(events: seq<Event>, cid: string)
    requires Exec(FRESH, events).Some? && NoCancel(events)
    ensures
      var s := Exec(FRESH, events).value;
      cid in s.seen <==> exists id :: IsOwner(s, id, cid)
                           && (s.tasks[id].Sending? || s.tasks[id].Failing? || s.tasks[id].Delivered?)
                           && forall other :: IsOwner(s, other, cid) ==> other == id
  {
    OwnershipExact(events, cid);
    NobodyAbandons(FRESH, events);
  }

  /** A call cancelled while it held a claim blocks its CID for the rest of the session: nobody else ever sends it. */
  lemma AbandonedClaimBlocks(before: seq<Event>, later: seq<Event>, id: nat, other: nat)
    requires Exec(FRESH, before).Some? && Exec(Exec(FRESH, before).value, later).Some?
    requires id in Exec(FRESH, before).value.tasks && Exec(FRESH, before).value.tasks[id].Abandoned?
    ensures
      var cid := Exec(FRESH, before).value.tasks[id].cid;
      var s := Exec(Exec(FRESH, before).value, later).value;
      cid in s.seen && (IsOwner(s, other, cid) ==> other == id)
  {
    FreshInv();
    ExecKeeps(FRESH, before);
    var mid := Exec(FRESH, before).value;
    ExecKeeps(mid, later);
    ExecSettled(mid, later, id);
    assert IsOwner(Exec(mid, later).value, id, mid.tasks[id].cid);
  }

  // ----- what a claim promises -----

  /** A call has returned Ok after sending; a cancelled call may have reached the network all the same. */
  ghost predicate Sent(s: Session, cid: string) {
    exists id :: id in s.tasks && s.tasks[id] == Delivered(cid)
  }

  /** The CID has gone out, and no continuation takes that back. */
  ghost predicate AlwaysSent(s: Session, cid: string) {
    forall later :: Exec(s, later).Some? ==> Sent(Exec(s, later).value, cid)
  }

  ghost predicate NeverSent(s: Session, cid: string) {
    forall later :: Exec(s, later).Some? ==> !Sent(Exec(s, later).value, cid)
  }

  ghost predicate StaysClaimed(s: Session, cid: string) {
    forall later :: Exec(s, later).Some? ==> cid in Exec(s, later).value.seen
  }

  /** How an unsettled owner can end without sending. */
  function GivingUp(id: nat, t: Task): seq<Event> {
    (if t.Sending? then [SendErr(id)] else []) + [Leave(id)]
  }

  lemma OneEvent(s: Session, e: Event, rest: seq<Event>)
    requires Next(s, e).Some?
    ensures Exec(s, [e] + rest) == Exec(Next(s, e).value, rest)
  {
    assert ([e] + rest)[1..] == rest;
  }

  lemma GivingUpFrees(s: Session, id: nat, cid: string)
    requires Inv(s) && IsOwner(s, id, cid) && !Settled(s.tasks[id])
    ensures
      var end := Exec(s, GivingUp(id, s.tasks[id]));
      end.Some? && cid !in end.value.seen && !Sent(end.value, cid) && end.value.tasks.Keys == s.tasks.Keys
  {
    var t := s.tasks[id];
    var failing := if t.Sending? then SetTask(s, id, Failing(cid)) else s;
    var end := Next(failing, Leave(id)).value;
    OneEvent(failing, Leave(id), []);
    assert [Leave(id)] + [] == [Leave(id)] == [] + [Leave(id)];
    if t.Sending? {
      OneEvent(s, SendErr(id), [Leave(id)]);
    }
    if other :| other in end.tasks && end.tasks[other] == Delivered(cid) {
      assert IsOwner(s, other, cid);
    }
  }

  /** A CID nobody has claimed can still be sent, by a new call. */
  lemma FreeCanBeSent(s: Session, cid: string) returns (later: seq<Event>)
    requires cid !in s.seen
    ensures Exec(s, later).Some? && Sent(Exec(s, later).value, cid)
  {
    var n := UnusedId(s.tasks.Keys);
    later := [Arrive(n, cid)] + ([Enter(n)] + ([SendOk(n)] + []));
    var s1 := SetTask(s, n, Arrived(cid));
    var s2 := SetTask(s1.(seen := s.seen + {cid}), n, Sending(cid));
    OneEvent(s, Arrive(n, cid), [Enter(n)] + ([SendOk(n)] + []));
    OneEvent(s1, Enter(n), [SendOk(n)] + []);
    OneEvent(s2, SendOk(n), []);
    assert Exec(s, later).value.tasks[n] == Delivered(cid);
  }

  lemma {:induction false} ExecSplit(s: Session, a: seq<Event>, b: seq<Event>)
    requires Exec(s, a).Some?
    ensures Exec(s, a + b) == Exec(Exec(s, a).value, b)
    decreases |a|
  {
    if a == [] {
      assert a + b == b;
    } else {
      assert (a + b)[1..] == a[1..] + b;
      ExecSplit(Next(s, a[0]).value, a[1..], b);
    }
  }

  lemma SettledDecides(s: Session, id: nat, cid: string)
    requires Inv(s) && IsOwner(s, id, cid) && Settled(s.tasks[id])
    ensures StaysClaimed(s, cid)
    ensures if s.tasks[id].Delivered? then AlwaysSent(s, cid) else NeverSent(s, cid)
  {
    forall later | Exec(s, later).Some?
      ensures
        var end := Exec(s, later).value;
        cid in end.seen && (Sent(end, cid) <==> s.tasks[id].Delivered?)
    {
      ExecKeeps(s, later);
      ExecSettled(s, later, id);
      var end := Exec(s, later).value;
      assert IsOwner(end, id, cid);
      if other :| other in end.tasks && end.tasks[other] == Delivered(cid) {
        assert IsOwner(end, other, cid);
      }
    }
  }

  lemma UnsettledDecides(s: Session, id: nat, cid: string)
    requires Inv(s) && IsOwner(s, id, cid) && !Settled(s.tasks[id])
    ensures !StaysClaimed(s, cid) && !AlwaysSent(s, cid) && !NeverSent(s, cid)
  {
    var giveUp := GivingUp(id, s.tasks[id]);
    GivingUpFrees(s, id, cid);
    var resend := FreeCanBeSent(Exec(s, giveUp).value, cid);
    ExecSplit(s, giveUp, resend);
  }

  /** The owner of a claim decides what the rest of the session can bring. */
  lemma OwnerDecides(s: Session, id: nat, cid: string)
    requires Inv(s) && IsOwner(s, id, cid)
    ensures StaysClaimed(s, cid) <==> Settled(s.tasks[id])
    ensures AlwaysSent(s, cid) <==> s.tasks[id].Delivered?
    ensures NeverSent(s, cid) <==> s.tasks[id].Abandoned?
  {
    assert Exec(s, []) == Some(s);
    if Settled(s.tasks[id]) {
      SettledDecides(s, id, cid);
      assert Sent(s, cid) <==> s.tasks[id].Delivered?;
    } else {
      UnsettledDecides(s, id, cid);
    }
  }

  /** In any reachable session a CID is claimed for good exactly when the owner's call delivered it or was cancelled. */
  lemma ClaimStaysExactly(events: seq<Event>, cid: string)
    requires Exec(FRESH, events).Some?
    ensures
      var s := Exec(FRESH, events).value;
      StaysClaimed(s, cid) <==> exists id :: IsOwner(s, id, cid) && Settled(s.tasks[id])
  {
    FreshInv();
    ExecKeeps(FRESH, events);
    var s := Exec(FRESH, events).value;
    assert Exec(s, []) == Some(s);
    if cid in s.seen {
      var id :| IsOwner(s, id, cid);
      OwnerDecides(s, id, cid);
    }
  }

  /**
    In any reachable session no call can report the CID as sent any more exactly when a
    cancelled call holds its claim, whether or not that one still reached the network.
   */
  lemma BlockedExactly(events: seq<Event>, cid: string)
    requires Exec(FRESH, events).Some?
    ensures
      var s := Exec(FRESH, events).value;
      NeverSent(s, cid) <==> exists id :: IsOwner(s, id, cid) && s.tasks[id].Abandoned?
  {
    FreshInv();
    ExecKeeps(FRESH, events);
    var s := Exec(FRESH, events).value;
    if cid in s.seen {
      var id :| IsOwner(s, id, cid);
      OwnerDecides(s, id, cid);
    } else {
      var later := FreeCanBeSent(s, cid);
    }
  }

  /**
    What a deduplicated Ok is worth.  It means that the document has gone out exactly
    when the call it relied on had already returned success, and that it never will
    exactly when that call was cancelled.  Otherwise that call can still give up.
   */
  lemma DedupedOkExactly(events: seq<Event>, id: nat)
    requires Exec(FRESH, events).Some?
    requires
      var s := Exec(FRESH, events).value;
      id in s.tasks && s.tasks[id].Arrived? && s.tasks[id].cid in s.seen
    ensures
      var s := Exec(FRESH, events).value;
      var cid := s.tasks[id].cid;
      var after := Next(s, Enter(id));
      && after == Some(SetTask(s, id, Deduped(cid)))
      && (AlwaysSent(after.value, cid) <==> exists owner :: IsOwner(s, owner, cid) && s.tasks[owner].Delivered?)
      && (NeverSent(after.value, cid) <==> exists owner :: IsOwner(s, owner, cid) && s.tasks[owner].Abandoned?)
      && (forall owner :: IsOwner(s, owner, cid) && !Settled(s.tasks[owner]) ==>
            var end := Exec(after.value, GivingUp(owner, s.tasks[owner]));
            end.Some? && cid !in end.value.seen && !Sent(end.value, cid))
  {
    FreshInv();
    ExecKeeps(FRESH, events);
    var s := Exec(FRESH, events).value;
    var cid := s.tasks[id].cid;
    NextKeeps(s, Enter(id));
    var after := Next(s, Enter(id)).value;
    var owner :| IsOwner(s, owner, cid);
    assert IsOwner(after, owner, cid) && after.tasks[owner] == s.tasks[owner];
    OwnerDecides(after, owner, cid);
    if !Settled(s.tasks[owner]) {
      GivingUpFrees(after, owner, cid);
    }
  }

  /** Cancelling a call that waits for the network is all it takes to block a CID. */
  lemma CancelBlocks(cid: string)
    ensures Exec(FRESH, [Arrive(0, cid), Enter(0), Cancel(0)]) == Some(Session({cid}, map[0 := Abandoned(cid)]))
    ensures NeverSent(Session({cid}, map[0 := Abandoned(cid)]), cid)
  {
    var events := [Arrive(0, cid), Enter(0), Cancel(0)];
    var sending := Session({cid}, map[0 := Sending(cid)]);
    var blocked := Session({cid}, map[0 := Abandoned(cid)]);
    assert {} + {cid} == {cid} && map[0 := Arrived(cid)][0 := Sending(cid)] == map[0 := Sending(cid)];
    TwoEvents(FRESH, Arrive(0, cid), Enter(0), Session({}, map[0 := Arrived(cid)]), sending, [Cancel(0)]);
    assert events == [Arrive(0, cid), Enter(0)] + [Cancel(0)];
    assert sending.tasks[0 := Abandoned(cid)] == map[0 := Abandoned(cid)];
    OneEvent(sending, Cancel(0), []);
    assert [Cancel(0)] + [] == [Cancel(0)];
    assert IsOwner(blocked, 0, cid);
    BlockedExactly(events, cid);
  }

  /** An Ok does not mean the document went out: the call it relied on can still fail. */
  lemma DedupedOkWithoutDelivery(cid: string)
    ensures
      var events := [Arrive(0, cid), Arrive(1, cid), Enter(0), Enter(1), SendErr(0), Leave(0)];
      Exec(FRESH, events) == Some(Session({}, map[0 := Errored(cid), 1 := Deduped(cid)]))
  {
    var claim, fail := [Arrive(0, cid), Arrive(1, cid), Enter(0), Enter(1)], [SendErr(0), Leave(0)];
    TwoCallers(cid);
    FirstFails(cid);
    ExecSplit(FRESH, claim, fail);
    assert claim + fail == [Arrive(0, cid), Arrive(1, cid), Enter(0), Enter(1), SendErr(0), Leave(0)];
  }

  lemma TwoCallers(cid: string)
    ensures Exec(FRESH, [Arrive(0, cid), Arrive(1, cid), Enter(0), Enter(1)])
         == Some(Both({cid}, Sending(cid), Deduped(cid)))
  {
    var start, mid := Both({}, Arrived(cid), Arrived(cid)), Both({cid}, Sending(cid), Deduped(cid));
    TwoEvents(FRESH, Arrive(0, cid), Arrive(1, cid), Session({}, map[0 := Arrived(cid)]), start, [Enter(0), Enter(1)]);
    SetBoth({cid}, Arrived(cid), Arrived(cid), Sending(cid), Deduped(cid));
    assert {} + {cid} == {cid};
    TwoEvents(start, Enter(0), Enter(1), Both({cid}, Sending(cid), Arrived(cid)), mid, []);
    assert [Arrive(0, cid), Arrive(1, cid)] + [Enter(0), Enter(1)]
        == [Arrive(0, cid), Arrive(1, cid), Enter(0), Enter(1)];
    assert [Enter(0), Enter(1)] + [] == [Enter(0), Enter(1)];
  }

  lemma FirstFails(cid: string)
    ensures Exec(Both({cid}, Sending(cid), Deduped(cid)), [SendErr(0), Leave(0)])
         == Some(Both({}, Errored(cid), Deduped(cid)))
  {
    assert {cid} - {cid} == {};
    SetBoth({cid}, Sending(cid), Deduped(cid), Failing(cid), Deduped(cid));
    SetBoth({}, Failing(cid), Deduped(cid), Errored(cid), Deduped(cid));
    TwoEvents(Both({cid}, Sending(cid), Deduped(cid)), SendErr(0), Leave(0), Both({cid}, Failing(cid), Deduped(cid)),
              Both({}, Errored(cid), Deduped(cid)), []);
    assert [SendErr(0), Leave(0)] + [] == [SendErr(0), Leave(0)];
  }

  function Both(seen: set<string>, t0: Task, t1: Task): Session {
    Session(seen, map[0 := t0, 1 := t1])
  }

  lemma SetBoth(seen: set<string>, t0: Task, t1: Task, u0: Task, u1: Task)
    ensures SetTask(Both(seen, t0, t1), 0, u0) == Both(seen, u0, t1)
    ensures SetTask(Both(seen, u0, t1), 1, u1) == Both(seen, u0, u1)
  {
    assert (map[0 := t0, 1 := t1])[0 := u0] == map[0 := u0, 1 := t1];
    assert (map[0 := u0, 1 := t1])[1 := u1] == map[0 := u0, 1 := u1];
  }

  lemma TwoEvents(s: Session, a: Event, b: Event, s1: Session, s2: Session, rest: seq<Event>)
    requires Next(s, a) == Some(s1) && Next(s1, b) == Some(s2)
    ensures Exec(s, [a, b] + rest) == Exec(s2, rest)
  {
    var events := [a, b] + rest;
    assert events[1..] == [b] + rest && ([b] + rest)[1..] == rest;
  }
}
