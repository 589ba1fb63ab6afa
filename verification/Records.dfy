/** Lists of document records: lookup, first-occurrence deduplication and insertion of new keys. */
module Records {
  import opened Types

  function Keys(rs: seq<DocumentRecord>): set<Cid> {
    set i | 0 <= i < |rs| :: rs[i].cid
  }

  ghost predicate Distinct(rs: seq<DocumentRecord>) {
    forall i, j :: 0 <= i < j < |rs| ==> rs[i].cid != rs[j].cid
  }

  /** First match, as a linear search finds it. */
  function Find(rs: seq<DocumentRecord>, cid: Cid): Option<DocumentRecord> {
    if rs == [] then None
    else if rs[0].cid == cid then Some(rs[0])
    else Find(rs[1..], cid)
  }

  /** The sublist of records whose key does not occur earlier. */
  function KeepFirst(rs: seq<DocumentRecord>): seq<DocumentRecord> {
    if rs == [] then []
    else
      var front, last := rs[..|rs| - 1], rs[|rs| - 1];
      if last.cid in Keys(front) then KeepFirst(front) else KeepFirst(front) + [last]
  }

  /** Appends one by one, skipping every key already in the growing list. */
  function Extend(rs: seq<DocumentRecord>, es: seq<DocumentRecord>): seq<DocumentRecord>
    decreases |es|
  {
    if es == [] then rs
    else if es[0].cid in Keys(rs) then Extend(rs, es[1..])
    else Extend(rs + [es[0]], es[1..])
  }

  /** The entries whose key is outside a fixed set; repeats among them are kept. */
  function Unregistered(known: set<Cid>, es: seq<DocumentRecord>): seq<DocumentRecord> {
    if es == [] then []
    else (if es[0].cid in known then [] else [es[0]]) + Unregistered(known, es[1..])
  }

  // ----- keys -----

  lemma KeysAppend(a: seq<DocumentRecord>, b: seq<DocumentRecord>)
    ensures Keys(a + b) == Keys(a) + Keys(b)
  {
    forall c | c in Keys(a) + Keys(b) ensures c in Keys(a + b) {
      if c in Keys(a) {
        var i :| 0 <= i < |a| && a[i].cid == c;
        assert (a + b)[i].cid == c;
      } else {
        var i :| 0 <= i < |b| && b[i].cid == c;
        assert (a + b)[|a| + i].cid == c;
      }
    }
  }

  lemma KeysOne(r: DocumentRecord)
    ensures Keys([r]) == {r.cid}
  {
    assert [r][0].cid in Keys([r]);
  }

  lemma KeysSplit(es: seq<DocumentRecord>)
    requires es != []
    ensures Keys(es) == {es[0].cid} + Keys(es[1..])
    ensures Keys(es) == Keys(es[..|es| - 1]) + {es[|es| - 1].cid}
  {
    KeysOne(es[0]);
    KeysOne(es[|es| - 1]);
    KeysAppend([es[0]], es[1..]);
    KeysAppend(es[..|es| - 1], [es[|es| - 1]]);
    assert es == [es[0]] + es[1..];
    assert es == es[..|es| - 1] + [es[|es| - 1]];
  }

  // ----- lookup -----

  lemma {:induction false} FindAppend(a: seq<DocumentRecord>, b: seq<DocumentRecord>, cid: Cid)
    ensures Find(a + b, cid) == if cid in Keys(a) then Find(a, cid) else Find(b, cid)
    ensures Find(a, cid).Some? <==> cid in Keys(a)
    ensures Find(a, cid).Some? ==> Find(a, cid).value.cid == cid && Find(a, cid).value in a
  {
    if a == [] {
      assert a + b == b;
    } else {
      FindAppend(a[1..], b, cid);
      KeysSplit(a);
      assert (a + b)[1..] == a[1..] + b;
    }
  }

  /** The record is in the list, and no earlier one has its key. */
  ghost predicate IsFirst(rs: seq<DocumentRecord>, r: DocumentRecord) {
    exists i :: 0 <= i < |rs| && rs[i] == r && r.cid !in Keys(rs[..i])
  }

  lemma {:induction false} FindFirst(rs: seq<DocumentRecord>, cid: Cid, r: DocumentRecord)
    ensures Find(rs, cid) == Some(r) <==> r.cid == cid && IsFirst(rs, r)
  {
    if rs != [] {
      FindFirst(rs[1..], cid, r);
      FirstOfCons(rs, r);
    }
  }

  lemma FirstOfCons(rs: seq<DocumentRecord>, r: DocumentRecord)
    requires rs != []
    ensures IsFirst(rs, r) <==> r == rs[0] || (r.cid != rs[0].cid && IsFirst(rs[1..], r))
  {
    if i :| 0 <= i < |rs| && rs[i] == r && r.cid !in Keys(rs[..i]) {
      if 0 < i {
        KeysSplit(rs[..i]);
        assert rs[..i][1..] == rs[1..][..i - 1] && rs[1..][i - 1] == r;
      }
    }
    if r == rs[0] {
      assert rs[..0] == [] && r.cid !in Keys(rs[..0]);
    } else if r.cid != rs[0].cid {
      if i :| 0 <= i < |rs[1..]| && rs[1..][i] == r && r.cid !in Keys(rs[1..][..i]) {
        KeysSplit(rs[..i + 1]);
        assert rs[..i + 1][1..] == rs[1..][..i] && rs[i + 1] == r;
      }
    }
  }

  // ----- keeping the first record of every key -----

  lemma DistinctAppend(rs: seq<DocumentRecord>, last: DocumentRecord)
    ensures Distinct(rs + [last]) <==> Distinct(rs) && last.cid !in Keys(rs)
  {
    var all := rs + [last];
    if Distinct(all) {
      forall i, j | 0 <= i < j < |rs| ensures rs[i].cid != rs[j].cid {
        assert all[i].cid != all[j].cid;
      }
      forall i | 0 <= i < |rs| ensures rs[i].cid != last.cid {
        assert all[i].cid != all[|rs|].cid;
      }
    } else {
      var i, j :| 0 <= i < j < |all| && all[i].cid == all[j].cid;
      if j == |rs| {
        assert rs[i].cid in Keys(rs);
      } else {
        assert rs[i].cid == rs[j].cid;
      }
    }
  }

  lemma {:induction false} KeepFirstKeys(rs: seq<DocumentRecord>)
    ensures Keys(KeepFirst(rs)) == Keys(rs)
    ensures |KeepFirst(rs)| == |Keys(rs)|
  {
    if rs != [] {
      var front, last := rs[..|rs| - 1], rs[|rs| - 1];
      KeepFirstKeys(front);
      KeysSplit(rs);
      KeysAppend(KeepFirst(front), [last]);
      KeysOne(last);
    }
  }

  /** Deduplication yields distinct keys, and changes nothing exactly on lists already distinct. */
  lemma {:induction false} KeepFirstDistinct(rs: seq<DocumentRecord>)
    ensures Distinct(KeepFirst(rs))
    ensures |KeepFirst(rs)| <= |rs|
    ensures Distinct(rs) <==> KeepFirst(rs) == rs
  {
    if rs != [] {
      var front, last := rs[..|rs| - 1], rs[|rs| - 1];
      KeepFirstDistinct(front);
      KeepFirstKeys(front);
      assert rs == front + [last];
      DistinctAppend(front, last);
      DistinctAppend(KeepFirst(front), last);
    }
  }

  /** A first-match lookup cannot tell a list from its deduplication. */
  lemma {:induction false} KeepFirstFind(rs: seq<DocumentRecord>, cid: Cid)
    ensures Find(KeepFirst(rs), cid) == Find(rs, cid)
  {
    if rs != [] {
      var front, last := rs[..|rs| - 1], rs[|rs| - 1];
      KeepFirstFind(front, cid);
      KeepFirstKeys(front);
      assert rs == front + [last];
      FindAppend(front, [last], cid);
      FindAppend(KeepFirst(front), [last], cid);
    }
  }

  // ----- one-by-one insertion -----

  lemma {:induction false} ExtendSplit(rs: seq<DocumentRecord>, a: seq<DocumentRecord>, b: seq<DocumentRecord>)
    ensures Extend(rs, a + b) == Extend(Extend(rs, a), b)
    decreases |a|
  {
    if a == [] {
      assert a + b == b;
    } else {
      assert (a + b)[1..] == a[1..] + b;
      ExtendSplit(if a[0].cid in Keys(rs) then rs else rs + [a[0]], a[1..], b);
    }
  }

  lemma ExtendLast(rs: seq<DocumentRecord>, es: seq<DocumentRecord>, e: DocumentRecord)
    ensures Extend(rs, es + [e]) == var r := Extend(rs, es); if e.cid in Keys(r) then r else r + [e]
  {
    ExtendSplit(rs, es, [e]);
    assert Extend(Extend(rs, es) + [e], []) == Extend(rs, es) + [e];
  }

  /** Insertion keeps the old list as a prefix, adds the new keys, and keeps keys distinct. */
  lemma {:induction false} ExtendFacts(rs: seq<DocumentRecord>, es: seq<DocumentRecord>)
    ensures rs <= Extend(rs, es)
    ensures Keys(Extend(rs, es)) == Keys(rs) + Keys(es)
    ensures Distinct(rs) ==> Distinct(Extend(rs, es))
    decreases |es|
  {
    if es != [] {
      KeysSplit(es);
      var next := if es[0].cid in Keys(rs) then rs else rs + [es[0]];
      ExtendFacts(next, es[1..]);
      KeysAppend(rs, [es[0]]);
      KeysOne(es[0]);
      DistinctAppend(rs, es[0]);
    }
  }

  /** Conservation: one record more for every distinct key not there before. */
  lemma {:induction false} ExtendCount(rs: seq<DocumentRecord>, es: seq<DocumentRecord>)
    ensures |Extend(rs, es)| == |rs| + |Keys(es) - Keys(rs)|
    decreases |es|
  {
    if es == [] {
      assert Keys(es) - Keys(rs) == {};
    } else {
      KeysSplit(es);
      hide Keys;
      if es[0].cid in Keys(rs) {
        ExtendCount(rs, es[1..]);
        assert Keys(es) - Keys(rs) == Keys(es[1..]) - Keys(rs);
      } else {
        var next := rs + [es[0]];
        ExtendCount(next, es[1..]);
        KeysAppend(rs, [es[0]]);
        KeysOne(es[0]);
        assert Keys(es) - Keys(rs) == Keys(es[1..]) - Keys(next) + {es[0].cid};
      }
    }
  }

  /** Old keys keep their answer; a new key is answered with its first entry. */
  lemma {:induction false} ExtendFind(rs: seq<DocumentRecord>, es: seq<DocumentRecord>, cid: Cid)
    ensures Find(Extend(rs, es), cid) == if cid in Keys(rs) then Find(rs, cid) else Find(es, cid)
    decreases |es|
  {
    FindAppend(rs, [], cid);
    if es != [] {
      hide Keys;
      var next := if es[0].cid in Keys(rs) then rs else rs + [es[0]];
      ExtendFind(next, es[1..], cid);
      KeysAppend(rs, [es[0]]);
      KeysOne(es[0]);
      FindAppend(rs, [es[0]], cid);
    }
  }

  /** Inserting one by one is the same as appending everything and keeping first occurrences. */
  lemma {:induction false} KeepFirstAppend(rs: seq<DocumentRecord>, es: seq<DocumentRecord>)
    ensures KeepFirst(rs + es) == Extend(KeepFirst(rs), es)
    ensures KeepFirst(rs) <= KeepFirst(rs + es)
    decreases |es|
  {
    if es == [] {
      assert rs + es == rs;
    } else {
      var front, last := es[..|es| - 1], es[|es| - 1];
      KeepFirstAppend(rs, front);
      KeepFirstKeys(rs + front);
      assert es == front + [last];
      assert (rs + es)[..|rs + es| - 1] == rs + front;
      ExtendLast(KeepFirst(rs), front, last);
    }
  }

  // ----- insertion against a fixed key set -----

  lemma {:induction false} UnregisteredKeys(known: set<Cid>, es: seq<DocumentRecord>)
    ensures Keys(Unregistered(known, es)) == Keys(es) - known
  {
    if es == [] {
      assert Keys(es) - known == {};
    } else {
      UnregisteredKeys(known, es[1..]);
      KeysSplit(es);
      KeysOne(es[0]);
      KeysAppend(if es[0].cid in known then [] else [es[0]], Unregistered(known, es[1..]));
    }
  }

  lemma {:induction false} UnregisteredFind(known: set<Cid>, es: seq<DocumentRecord>, cid: Cid)
    ensures Find(Unregistered(known, es), cid) == if cid in known then None else Find(es, cid)
  {
    if es != [] {
      var rest := Unregistered(known, es[1..]);
      UnregisteredFind(known, es[1..], cid);
      if es[0].cid in known {
        assert Unregistered(known, es) == rest;
      } else {
        assert Unregistered(known, es) == [es[0]] + rest && ([es[0]] + rest)[1..] == rest;
      }
    }
  }

  /** Filtering goes entry by entry, in order. */
  lemma {:induction false} UnregisteredSplit(known: set<Cid>, a: seq<DocumentRecord>, b: seq<DocumentRecord>)
    ensures Unregistered(known, a + b) == Unregistered(known, a) + Unregistered(known, b)
  {
    if a == [] {
      assert a + b == b;
    } else {
      assert (a + b)[1..] == a[1..] + b;
      UnregisteredSplit(known, a[1..], b);
    }
  }

  /** Entries a list already holds do not matter to one-by-one insertion. */
  lemma {:induction false} UnregisteredExtend(known: set<Cid>, es: seq<DocumentRecord>, rs: seq<DocumentRecord>)
    requires known <= Keys(rs)
    ensures Extend(rs, Unregistered(known, es)) == Extend(rs, es)
    decreases |es|
  {
    if es != [] {
      var next := if es[0].cid in Keys(rs) then rs else rs + [es[0]];
      KeysAppend(rs, [es[0]]);
      UnregisteredExtend(known, es[1..], next);
      if es[0].cid in known {
        assert Unregistered(known, es) == Unregistered(known, es[1..]);
      } else {
        assert Unregistered(known, es)[1..] == Unregistered(known, es[1..]);
      }
    }
  }

  lemma DistinctSplit(a: seq<DocumentRecord>, b: seq<DocumentRecord>)
    requires Keys(a) !! Keys(b)
    ensures Distinct(a + b) <==> Distinct(a) && Distinct(b)
  {
    var all := a + b;
    if Distinct(a) && Distinct(b) {
      forall i, j | 0 <= i < j < |all| ensures all[i].cid != all[j].cid {
        if i < |a| <= j {
          assert a[i].cid in Keys(a) && b[j - |a|].cid in Keys(b);
        }
      }
    }
    if Distinct(all) {
      forall i, j | 0 <= i < j < |a| ensures a[i].cid != a[j].cid {
        assert all[i].cid != all[j].cid;
      }
      forall i, j | 0 <= i < j < |b| ensures b[i].cid != b[j].cid {
        assert all[|a| + i].cid != all[|a| + j].cid;
      }
    }
  }

  /** What a fixed key set lets through is duplicate-free exactly when every repeated key was known. */
  lemma {:induction false} UnregisteredDistinct(known: set<Cid>, es: seq<DocumentRecord>)
    ensures Distinct(Unregistered(known, es))
       <==> forall i, j :: 0 <= i < j < |es| && es[i].cid == es[j].cid ==> es[i].cid in known
  {
    if es != [] {
      var tail := es[1..];
      var rest := Unregistered(known, tail);
      UnregisteredDistinct(known, tail);
      UnregisteredKeys(known, tail);
      KeysOne(es[0]);
      RepeatsSplit(known, es);
      if es[0].cid in known {
        assert Unregistered(known, es) == rest;
      } else if es[0].cid in Keys(rest) {
        var k :| 0 <= k < |rest| && rest[k].cid == es[0].cid;
        var all := [es[0]] + rest;
        assert all[0].cid == all[k + 1].cid;
      } else {
        DistinctSplit([es[0]], rest);
      }
    }
  }

  lemma RepeatsSplit(known: set<Cid>, es: seq<DocumentRecord>)
    requires es != []
    ensures (forall i, j :: 0 <= i < j < |es| && es[i].cid == es[j].cid ==> es[i].cid in known)
       <==> (es[0].cid in Keys(es[1..]) ==> es[0].cid in known)
            && (forall i, j :: 0 <= i < j < |es[1..]| && es[1..][i].cid == es[1..][j].cid ==> es[1..][i].cid in known)
  {
    var tail := es[1..];
    assert forall i :: 0 <= i < |tail| ==> tail[i] == es[i + 1];
    if forall i, j :: 0 <= i < j < |es| && es[i].cid == es[j].cid ==> es[i].cid in known {
      if es[0].cid in Keys(tail) {
        var j :| 0 <= j < |tail| && tail[j].cid == es[0].cid;
        assert es[0].cid == es[j + 1].cid;
      }
      forall i, j | 0 <= i < j < |tail| && tail[i].cid == tail[j].cid ensures tail[i].cid in known {
        assert es[i + 1].cid == es[j + 1].cid;
      }
    } else {
      var i, j :| 0 <= i < j < |es| && es[i].cid == es[j].cid && es[i].cid !in known;
      assert es[j] == tail[j - 1] && tail[j - 1].cid in Keys(tail);
      if 0 < i {
        assert es[i] == tail[i - 1];
      }
    }
  }
}
