/** The delivery queue file and the polling window the anchoring tool reads from it. */
module Delivery {
  import opened Types

  /** An envelope: its CID text and the digest of its canonical JSON. */
  datatype Payload = Payload(cid: string, metaHash: Hash)

  /** One line of the queue file, as the JSON library sees it. */
  datatype Line = Blank | NotJson | Json(number: Option<U64>, payload: Option<Payload>)

  datatype DeliveryMsg = DeliveryMsg(number: U64, payload: Payload)

  /** The sequence number; a missing one reads as 0. */
  function Number(line: Line): U64
    requires line.Json?
  {
    if line.number.Some? then line.number.value else 0
  }

  predicate IsPending(line: Line, after: U64) {
    line.Json? && after < Number(line)
  }

  /** A line that ends a poll with an error when it is reached. */
  predicate IsBad(line: Line, after: U64) {
    line.NotJson? || (IsPending(line, after) && line.payload.None?)
  }

  function Message(line: Line): DeliveryMsg
    requires line.Json? && line.payload.Some?
  {
    DeliveryMsg(Number(line), line.payload.value)
  }

  /** The readable messages beyond `after`, in file order. */
  function Pending(lines: seq<Line>, after: U64): seq<DeliveryMsg> {
    if lines == [] then []
    else (if IsPending(lines[0], after) && lines[0].payload.Some? then [Message(lines[0])] else [])
         + Pending(lines[1..], after)
  }

  /** Reads until `room` messages are found, or fails on the first bad line reached. */
  function Scan(lines: seq<Line>, after: U64, room: nat): Option<seq<DeliveryMsg>>
    requires 0 < room
  {
    if lines == [] then Some([])
    else if IsBad(lines[0], after) then None
    else if IsPending(lines[0], after) then
      if room == 1 then Some([Message(lines[0])])
      else
        match Scan(lines[1..], after, room - 1)
        case None => None
        case Some(rest) => Some([Message(lines[0])] + rest)
    else Scan(lines[1..], after, room)
  }

  // ----- stable sorting by sequence number -----

  predicate Sorted(ms: seq<DeliveryMsg>) {
    forall i, j :: 0 <= i < j < |ms| ==> ms[i].number <= ms[j].number
  }

  function Insert(ms: seq<DeliveryMsg>, m: DeliveryMsg): seq<DeliveryMsg> {
    if ms == [] || ms[|ms| - 1].number <= m.number then ms + [m]
    else Insert(ms[..|ms| - 1], m) + [ms[|ms| - 1]]
  }

  /** The stable sort: equal numbers stay in file order. */
  function SortByNumber(ms: seq<DeliveryMsg>): seq<DeliveryMsg> {
    if ms == [] then [] else Insert(SortByNumber(ms[..|ms| - 1]), ms[|ms| - 1])
  }

  lemma {:induction false} InsertPermutes(ms: seq<DeliveryMsg>, m: DeliveryMsg)
    ensures multiset(Insert(ms, m)) == multiset(ms) + multiset{m}
  {
    if ms != [] && m.number < ms[|ms| - 1].number {
      InsertPermutes(ms[..|ms| - 1], m);
      assert ms == ms[..|ms| - 1] + [ms[|ms| - 1]];
    }
  }

  lemma {:induction false} InsertSorts(ms: seq<DeliveryMsg>, m: DeliveryMsg)
    requires Sorted(ms)
    ensures Sorted(Insert(ms, m))
    ensures forall x :: x in Insert(ms, m) ==> x in ms || x == m
  {
    if ms != [] && m.number < ms[|ms| - 1].number {
      var front, last := ms[..|ms| - 1], ms[|ms| - 1];
      InsertSorts(front, m);
      forall k | 0 <= k < |Insert(front, m)| ensures Insert(front, m)[k].number <= last.number {
        assert Insert(front, m)[k] in Insert(front, m);
      }
    }
  }

  /** The messages that carry a given number, in order. */
  function WithNumber(ms: seq<DeliveryMsg>, n: U64): seq<DeliveryMsg> {
    if ms == [] then []
    else WithNumber(ms[..|ms| - 1], n) + if ms[|ms| - 1].number == n then [ms[|ms| - 1]] else []
  }

  lemma {:induction false} InsertStable(ms: seq<DeliveryMsg>, m: DeliveryMsg, n: U64)
    requires Sorted(ms)
    ensures WithNumber(Insert(ms, m), n) == WithNumber(ms + [m], n)
  {
    assert (ms + [m])[..|ms|] == ms;
    if ms != [] && m.number < ms[|ms| - 1].number {
      var front, last := ms[..|ms| - 1], ms[|ms| - 1];
      InsertStable(front, m, n);
      assert (front + [m])[..|front|] == front;
      assert Insert(ms, m)[..|Insert(ms, m)| - 1] == Insert(front, m);
    }
  }

  lemma {:induction false} SortSorts(ms: seq<DeliveryMsg>)
    ensures Sorted(SortByNumber(ms))
  {
    if ms != [] {
      SortSorts(ms[..|ms| - 1]);
      InsertSorts(SortByNumber(ms[..|ms| - 1]), ms[|ms| - 1]);
    }
  }

  lemma {:induction false} SortPermutes(ms: seq<DeliveryMsg>)
    ensures multiset(SortByNumber(ms)) == multiset(ms)
  {
    if ms != [] {
      hide Insert;
      SortPermutes(ms[..|ms| - 1]);
      InsertPermutes(SortByNumber(ms[..|ms| - 1]), ms[|ms| - 1]);
      assert ms == ms[..|ms| - 1] + [ms[|ms| - 1]];
    }
  }

  lemma {:induction false} SortStable(ms: seq<DeliveryMsg>, n: U64)
    ensures WithNumber(SortByNumber(ms), n) == WithNumber(ms, n)
  {
    if ms != [] {
      var sorted, last := SortByNumber(ms[..|ms| - 1]), ms[|ms| - 1];
      SortStable(ms[..|ms| - 1], n);
      SortSorts(ms[..|ms| - 1]);
      InsertStable(sorted, last, n);
      assert (sorted + [last])[..|sorted|] == sorted;
    }
  }

  /** The sort orders by number, permutes, and keeps messages with equal numbers in file order. */
  lemma SortFacts(ms: seq<DeliveryMsg>)
    ensures Sorted(SortByNumber(ms))
    ensures multiset(SortByNumber(ms)) == multiset(ms)
    ensures forall n :: WithNumber(SortByNumber(ms), n) == WithNumber(ms, n)
  {
    hide SortByNumber, WithNumber, Sorted;
    SortSorts(ms);
    SortPermutes(ms);
    forall n ensures WithNumber(SortByNumber(ms), n) == WithNumber(ms, n) {
      SortStable(ms, n);
    }
  }

  lemma {:induction false} SortOfSorted(ms: seq<DeliveryMsg>)
    requires Sorted(ms)
    ensures SortByNumber(ms) == ms
  {
    if ms != [] {
      var front, last := ms[..|ms| - 1], ms[|ms| - 1];
      SortOfSorted(front);
      assert ms == front + [last];
    }
  }

  // ----- polling -----

  function Polled(lines: seq<Line>, after: U64, limit: nat): Option<seq<DeliveryMsg>> {
    match Scan(lines, after, if limit == 0 then 1 else limit)
    case None => None
    case Some(ms) => Some(SortByNumber(ms))
  }

  /** The file branch of the poll; `None` stands for a read error. */
  method PollDelivery(lines: seq<Line>, after: U64, limit: nat) returns (r: Option<seq<DeliveryMsg>>)
    ensures r == Polled(lines, after, limit)
  {
    var out := [];
    ghost var room := if limit == 0 then 1 else limit;
    AfterNil(Scan(lines, after, room));
    assert lines[0..] == lines;
    for i := 0 to |lines|
      invariant |out| < room
      invariant Scan(lines, after, room) == After(out, Scan(lines[i..], after, room - |out|))
    {
      assert lines[i..][0] == lines[i] && lines[i..][1..] == lines[i + 1..];
      var line := lines[i];
      if line.Blank? {
        continue;
      }
      if line.NotJson? {
        return None;
      }
      if Number(line) <= after {
        continue;
      }
      if line.payload.None? {
        return None;
      }
      AfterLast(out, Message(line), Scan(lines[i + 1..], after, if room - |out| == 1 then 1 else room - |out| - 1));
      out := out + [Message(line)];
      if limit <= |out| {
        break;
      }
    }
    assert out + [] == out;
    return Some(SortByNumber(out));
  }

  ghost function After(front: seq<DeliveryMsg>, r: Option<seq<DeliveryMsg>>): Option<seq<DeliveryMsg>> {
    if r.Some? then Some(front + r.value) else None
  }

  lemma AfterNil(r: Option<seq<DeliveryMsg>>)
    ensures After([], r) == r
  {
    if r.Some? {
      assert [] + r.value == r.value;
    }
  }

  lemma AfterLast(front: seq<DeliveryMsg>, m: DeliveryMsg, r: Option<seq<DeliveryMsg>>)
    ensures After(front, After([m], r)) == After(front + [m], r)
  {
    if r.Some? {
      assert front + ([m] + r.value) == front + [m] + r.value;
    }
  }

  /**
    Without looking at the scan: it fails exactly when a bad line comes before the
    window is full, and otherwise returns the first `room` pending messages.
   */
  lemma {:induction false} ScanExact(lines: seq<Line>, after: U64, room: nat)
    requires 0 < room
    ensures Scan(lines, after, room).None? <==>
      exists i :: 0 <= i < |lines| && IsBad(lines[i], after) && |Pending(lines[..i], after)| < room
    ensures Scan(lines, after, room).Some? ==>
      Scan(lines, after, room).value == Pending(lines, after)[..Min(room, |Pending(lines, after)|)]
  {
    if lines != [] {
      var head, tail := lines[0], lines[1..];
      if IsBad(head, after) {
        assert Pending(lines[..0], after) == [];
      } else {
        var rest := if IsPending(head, after) then room - 1 else room;
        if 0 < rest {
          ScanExact(tail, after, rest);
        }
        BadShift(lines, after, room, rest);
      }
    }
  }

  lemma BadShift(lines: seq<Line>, after: U64, room: nat, rest: nat)
    requires lines != [] && !IsBad(lines[0], after)
    requires 0 < room && rest == if IsPending(lines[0], after) then room - 1 else room
    ensures (exists i :: 0 <= i < |lines| && IsBad(lines[i], after) && |Pending(lines[..i], after)| < room)
       <==> (exists i :: 0 <= i < |lines[1..]| && IsBad(lines[1..][i], after)
                         && |Pending(lines[1..][..i], after)| < rest)
  {
    forall i | 0 < i < |lines|
      ensures lines[1..][i - 1] == lines[i]
      ensures |Pending(lines[..i], after)| == |Pending(lines[1..][..i - 1], after)| + room - rest
    {
      assert lines[..i][1..] == lines[1..][..i - 1];
    }
    if i :| 0 <= i < |lines| && IsBad(lines[i], after) && |Pending(lines[..i], after)| < room {
      assert IsBad(lines[1..][i - 1], after) && |Pending(lines[1..][..i - 1], after)| < rest;
    }
    if i :| 0 <= i < |lines[1..]| && IsBad(lines[1..][i], after) && |Pending(lines[1..][..i], after)| < rest {
      assert IsBad(lines[i + 1], after) && |Pending(lines[..i + 1], after)| < room;
    }
  }

  // ----- queues numbered in increasing order -----

  /** Numbered lines carry strictly increasing numbers; lines without one are never read. */
  ghost predicate Increasing(lines: seq<Line>) {
    forall i, j :: 0 <= i < j < |lines| && lines[i].Json? && lines[j].Json? && 0 < Number(lines[j])
                   ==> Number(lines[i]) < Number(lines[j])
  }

  lemma {:induction false} PendingSource(lines: seq<Line>, after: U64)
    ensures forall m :: m in Pending(lines, after) <==>
      exists i :: 0 <= i < |lines| && IsPending(lines[i], after) && lines[i].payload.Some? && Message(lines[i]) == m
  {
    if lines != [] {
      PendingSource(lines[1..], after);
      assert forall i :: 1 <= i < |lines| ==> lines[i] == lines[1..][i - 1];
    }
  }

  lemma {:induction false} PendingEmpty(lines: seq<Line>, after: U64)
    ensures Pending(lines, after) == [] <==>
      forall i :: 0 <= i < |lines| ==> !(IsPending(lines[i], after) && lines[i].payload.Some?)
  {
    if lines != [] {
      PendingEmpty(lines[1..], after);
      assert forall i :: 1 <= i < |lines| ==> lines[i] == lines[1..][i - 1];
    }
  }

  ghost predicate StrictlySorted(ms: seq<DeliveryMsg>) {
    forall i, j :: 0 <= i < j < |ms| ==> ms[i].number < ms[j].number
  }

  lemma {:induction false} PendingIncreasing(lines: seq<Line>, after: U64)
    requires Increasing(lines)
    ensures StrictlySorted(Pending(lines, after))
  {
    if lines != [] {
      var tail := lines[1..];
      assert forall i :: 0 <= i < |tail| ==> tail[i] == lines[i + 1];
      PendingIncreasing(tail, after);
      PendingSource(tail, after);
      if lines[0].Json? {
        forall m | m in Pending(tail, after) ensures Number(lines[0]) < m.number {
          var i :| 0 <= i < |tail| && IsPending(tail[i], after) && tail[i].payload.Some? && Message(tail[i]) == m;
          assert lines[i + 1] == tail[i];
        }
      }
    }
  }

  function Window(lines: seq<Line>, after: U64, limit: nat): seq<DeliveryMsg> {
    var pending := Pending(lines, after);
    pending[..Min(if limit == 0 then 1 else limit, |pending|)]
  }

  /** The messages of the first `k` windows of the given size. */
  function FirstWindows(ms: seq<DeliveryMsg>, k: nat, size: nat): seq<DeliveryMsg> {
    ms[..Min(k * size, |ms|)]
  }

  /** The messages beyond them. */
  function AfterWindows(ms: seq<DeliveryMsg>, k: nat, size: nat): seq<DeliveryMsg> {
    ms[Min(k * size, |ms|)..]
  }

  lemma OneMoreWindow(ms: seq<DeliveryMsg>, k: nat, size: nat)
    ensures AfterWindows(ms, 0, size) == ms
    ensures AfterWindows(ms[Min(size, |ms|)..], k, size) == AfterWindows(ms, k + 1, size)
  {
    assert (k + 1) * size == size + k * size;
  }

  lemma AllWindows(ms: seq<DeliveryMsg>, k: nat, size: nat)
    ensures AfterWindows(ms, k, size) == [] <==> |ms| <= k * size
  {
  }

  /**
    Any poll, on any queue: it fails exactly when a bad line comes before the window is
    full, and otherwise returns the first pending messages, sorted by number, messages
    with equal numbers in file order.
   */
  lemma PolledExact(lines: seq<Line>, after: U64, limit: nat)
    ensures
      var room := if limit == 0 then 1 else limit;
      && (Polled(lines, after, limit).None? <==>
            exists i :: 0 <= i < |lines| && IsBad(lines[i], after) && |Pending(lines[..i], after)| < room)
      && (Polled(lines, after, limit).Some? ==>
            var ms, pending := Polled(lines, after, limit).value, Pending(lines, after);
            var window := pending[..Min(room, |pending|)];
            && Sorted(ms) && multiset(ms) == multiset(window)
            && forall n :: WithNumber(ms, n) == WithNumber(window, n))
  {
    hide Scan, SortByNumber, Pending, WithNumber, Sorted, IsBad;
    ScanExact(lines, after, if limit == 0 then 1 else limit);
    if Polled(lines, after, limit).Some? {
      SortFacts(Scan(lines, after, if limit == 0 then 1 else limit).value);
    }
  }

  /** What ends a poll: text that is no JSON, or a message due with an envelope that cannot be read. */
  lemma BadExact(line: Line, after: U64)
    ensures IsBad(line, after) <==>
      line.NotJson? || (line.Json? && line.number.Some? && after < line.number.value && line.payload.None?)
    ensures IsPending(line, after) <==> line.Json? && line.number.Some? && after < line.number.value
  {
  }

  /** On an increasing queue a successful poll returns exactly the smallest pending messages, in order. */
  lemma PollWindow(lines: seq<Line>, after: U64, limit: nat)
    requires Increasing(lines) && Polled(lines, after, limit).Some?
    ensures Polled(lines, after, limit).value == Window(lines, after, limit)
    ensures StrictlySorted(Window(lines, after, limit))
  {
    hide Scan, Pending, SortByNumber, Increasing, IsBad;
    ScanExact(lines, after, if limit == 0 then 1 else limit);
    PendingIncreasing(lines, after);
    SortOfSorted(Window(lines, after, limit));
  }

  /** The highest number among a cursor and some messages. */
  function MaxNumber(ms: seq<DeliveryMsg>, start: U64): (c: U64)
    ensures start <= c
    ensures forall m :: m in ms ==> m.number <= c
    ensures c == start || exists m :: m in ms && m.number == c
  {
    if ms == [] then start
    else
      var c := MaxNumber(ms[..|ms| - 1], start);
      if c < ms[|ms| - 1].number then ms[|ms| - 1].number else c
  }

  function Beyond(ms: seq<DeliveryMsg>, c: U64): seq<DeliveryMsg> {
    if ms == [] then [] else (if c < ms[0].number then [ms[0]] else []) + Beyond(ms[1..], c)
  }

  lemma BeyondCons(m: DeliveryMsg, rest: seq<DeliveryMsg>, c: U64)
    ensures Beyond([m] + rest, c) == (if c < m.number then [m] else []) + Beyond(rest, c)
  {
    assert ([m] + rest)[1..] == rest;
  }

  lemma {:induction false} PendingLater(lines: seq<Line>, after: U64, c: U64)
    requires after <= c
    ensures Pending(lines, c) == Beyond(Pending(lines, after), c)
  {
    if lines != [] {
      PendingLater(lines[1..], after, c);
      var rest := Pending(lines[1..], after);
      if IsPending(lines[0], after) && lines[0].payload.Some? {
        BeyondCons(Message(lines[0]), rest, c);
      } else {
        assert Pending(lines, after) == rest;
      }
    }
  }

  lemma {:induction false} BeyondSplit(a: seq<DeliveryMsg>, b: seq<DeliveryMsg>, c: U64)
    ensures Beyond(a + b, c) == Beyond(a, c) + Beyond(b, c)
  {
    if a == [] {
      assert a + b == b;
    } else {
      var head := if c < a[0].number then [a[0]] else [];
      assert a + b == [a[0]] + (a[1..] + b);
      BeyondCons(a[0], a[1..] + b, c);
      BeyondSplit(a[1..], b, c);
      assert Beyond(a, c) == head + Beyond(a[1..], c);
    }
  }

  lemma {:induction false} BeyondAll(ms: seq<DeliveryMsg>, c: U64)
    ensures |Beyond(ms, c)| <= |ms|
    ensures Beyond(ms, c) == ms <==> forall i :: 0 <= i < |ms| ==> c < ms[i].number
    ensures Beyond(ms, c) == [] <==> forall i :: 0 <= i < |ms| ==> ms[i].number <= c
  {
    if ms != [] {
      BeyondAll(ms[1..], c);
      assert forall i :: 1 <= i < |ms| ==> ms[i] == ms[1..][i - 1];
      assert ms == [ms[0]] + ms[1..];
    }
  }

  lemma CutExact(ms: seq<DeliveryMsg>, k: nat, c: U64)
    requires k <= |ms| && forall i :: 0 <= i < k ==> ms[i].number <= c
    ensures Beyond(ms, c) == ms[k..] <==> forall i :: k <= i < |ms| ==> c < ms[i].number
  {
    var front, rest := ms[..k], ms[k..];
    assert Beyond(ms, c) == Beyond(rest, c) by {
      assert ms == front + rest;
      BeyondSplit(front, rest, c);
      BeyondAll(front, c);
      assert [] + Beyond(rest, c) == Beyond(rest, c);
    }
    BeyondAll(rest, c);
    if forall i :: 0 <= i < |rest| ==> c < rest[i].number {
      forall i | k <= i < |ms| ensures c < ms[i].number {
        assert ms[i] == rest[i - k];
      }
    } else {
      var i :| 0 <= i < |rest| && !(c < rest[i].number);
      assert ms[k + i] == rest[i];
    }
  }

  /**
    For any queue, numbered in order or not: advancing the cursor over a window
    leaves exactly the messages after the window pending if and only if each of
    those carries a higher number than the whole window.
   */
  lemma AdvanceSkipsNothingExactly(lines: seq<Line>, after: U64, limit: nat)
    ensures
      var pending, window := Pending(lines, after), Window(lines, after, limit);
      var c := MaxNumber(window, after);
      Pending(lines, c) == pending[|window|..]
      <==> forall i :: |window| <= i < |pending| ==> c < pending[i].number
  {
    var pending, window := Pending(lines, after), Window(lines, after, limit);
    var c := MaxNumber(window, after);
    PendingLater(lines, after, c);
    assert forall i :: 0 <= i < |window| ==> pending[i] in window;
    CutExact(pending, |window|, c);
  }

  lemma AdvanceOnIncreasing(lines: seq<Line>, after: U64, limit: nat)
    requires Increasing(lines)
    ensures
      var pending, window := Pending(lines, after), Window(lines, after, limit);
      Pending(lines, MaxNumber(window, after)) == pending[|window|..]
  {
    var pending, window := Pending(lines, after), Window(lines, after, limit);
    var c := MaxNumber(window, after);
    PendingIncreasing(lines, after);
    PendingSource(lines, after);
    forall i | |window| <= i < |pending| ensures c < pending[i].number {
      assert pending[i] in pending;
      if c != after {
        var m :| m in window && m.number == c;
        var j :| 0 <= j < |window| && window[j] == m;
        assert pending[j] == m;
      }
    }
    AdvanceSkipsNothingExactly(lines, after, limit);
  }

  ghost predicate SkipsNothing(lines: seq<Line>, after: U64, limit: nat) {
    var window := Window(lines, after, limit);
    Pending(lines, MaxNumber(window, after)) == Pending(lines, after)[|window|..]
  }

  lemma {:induction false} BeyondSorted(ms: seq<DeliveryMsg>, c: U64)
    requires StrictlySorted(ms)
    ensures StrictlySorted(Beyond(ms, c))
    ensures forall m :: m in Beyond(ms, c) ==> m in ms && c < m.number
  {
    if ms != [] {
      var rest := Beyond(ms[1..], c);
      assert StrictlySorted(ms[1..]);
      BeyondSorted(ms[1..], c);
      if c < ms[0].number {
        forall m | m in rest ensures ms[0].number < m.number {
          var k :| 0 <= k < |ms[1..]| && ms[1..][k] == m;
          assert m == ms[k + 1];
        }
        ConsSorted(ms[0], rest);
      }
    }
  }

  lemma ConsSorted(m: DeliveryMsg, rest: seq<DeliveryMsg>)
    requires StrictlySorted(rest) && forall x :: x in rest ==> m.number < x.number
    ensures StrictlySorted([m] + rest)
  {
    var all := [m] + rest;
    forall i, j | 0 <= i < j < |all| ensures all[i].number < all[j].number {
      assert all[j] == rest[j - 1] && rest[j - 1] in rest;
    }
  }

  lemma SortedIsSafe(lines: seq<Line>, after: U64, limit: nat)
    requires StrictlySorted(Pending(lines, 0))
    ensures SkipsNothing(lines, after, limit)
  {
    hide Pending, MaxNumber, Beyond;
    var pending, window := Pending(lines, after), Window(lines, after, limit);
    var c := MaxNumber(window, after);
    PendingLater(lines, 0, after);
    BeyondSorted(Pending(lines, 0), after);
    forall i | |window| <= i < |pending| ensures c < pending[i].number {
      assert pending[i] in pending;
      if c != after {
        var m :| m in window && m.number == c;
        var j :| 0 <= j < |window| && window[j] == m;
        assert pending[j] == m;
      }
    }
    AdvanceSkipsNothingExactly(lines, after, limit);
  }

  /** Every poll of every tool is safe if and only if the readable messages carry strictly increasing numbers. */
  lemma EveryPollSafeExactly(lines: seq<Line>)
    ensures (forall after, limit :: SkipsNothing(lines, after, limit)) <==> StrictlySorted(Pending(lines, 0))
  {
    hide SkipsNothing, Pending;
    var all := Pending(lines, 0);
    if StrictlySorted(all) {
      forall after, limit ensures SkipsNothing(lines, after, limit) {
        SortedIsSafe(lines, after, limit);
      }
    } else {
      var i, j :| 0 <= i < j < |all| && all[j].number <= all[i].number;
      UnsortedIsUnsafe(lines, i, j);
    }
  }

  lemma UnsortedIsUnsafe(lines: seq<Line>, i: nat, j: nat)
    requires i < j < |Pending(lines, 0)| && Pending(lines, 0)[j].number <= Pending(lines, 0)[i].number
    ensures !SkipsNothing(lines, 0, i + 1)
  {
    hide Pending, MaxNumber;
    var all, window := Pending(lines, 0), Window(lines, 0, i + 1);
    assert window[i] == all[i] && window[i] in window;
    AdvanceSkipsNothingExactly(lines, 0, i + 1);
  }

  /** Out of order, a full window can overtake a smaller number for good. */
  lemma OutOfOrderQueueLosesMessage(p: Payload)
    ensures
      var lines := [Json(Some(2), Some(p)), Json(Some(1), Some(p))];
      && Polled(lines, 0, 1) == Some([DeliveryMsg(2, p)])
      && Pending(lines, 2) == []
  {
    var late, early := Json(Some(2), Some(p)), Json(Some(1), Some(p));
    var lines := [late, early];
    assert lines[1..] == [early] && [early][1..] == [];
    assert Message(late) == DeliveryMsg(2, p);
    SortOfSorted([DeliveryMsg(2, p)]);
    assert Pending([early], 2) == [];
  }
}
