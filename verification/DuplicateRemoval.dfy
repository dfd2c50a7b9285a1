/** The keep and delete loop over the reported duplicates. */
module DuplicateRemoval {
  import opened Wrappers
  import opened Strings
  import opened Duplicates
  import opened IndexList

  // ---------------------------------------------------------------- which copy is kept

  /** The first index of the list that holds `x`. */
  ghost function FirstHolder(indexes: seq<string>, snap: Streams, x: string): Option<string> {
    if indexes == [] then None
    else if Holds(snap, indexes[0], x) then Some(indexes[0])
    else FirstHolder(indexes[1..], snap, x)
  }

  /** `index_order[i]`. */
  function Position(indexes: seq<string>, i: string): nat {
    if indexes == [] || indexes[0] == i then 0 else 1 + Position(indexes[1..], i)
  }

  lemma {:induction false} FirstHolderHolds(indexes: seq<string>, snap: Streams, x: string)
    ensures FirstHolder(indexes, snap, x).Some? <==> exists i :: i in indexes && Holds(snap, i, x)
    ensures FirstHolder(indexes, snap, x).Some? ==>
              var k := FirstHolder(indexes, snap, x).value; k in indexes && Holds(snap, k, x)
  {
    if indexes != [] {
      FirstHolderHolds(indexes[1..], snap, x);
      assert indexes == [indexes[0]] + indexes[1..];
    }
  }

  lemma {:induction false} LeastPosition(indexes: seq<string>, snap: Streams, x: string, k: string)
    requires k in indexes && Holds(snap, k, x)
    requires forall i :: i in indexes && Holds(snap, i, x) ==> Position(indexes, k) <= Position(indexes, i)
    ensures FirstHolder(indexes, snap, x) == Some(k)
  {
    assert indexes == [indexes[0]] + indexes[1..];
    if Holds(snap, indexes[0], x) {
      assert Position(indexes, indexes[0]) == 0;
    } else {
      forall i | i in indexes[1..] && Holds(snap, i, x)
        ensures Position(indexes[1..], k) <= Position(indexes[1..], i)
      {
        assert i in indexes;
      }
      LeastPosition(indexes[1..], snap, x, k);
    }
  }

  /** On a falling list the copy kept is the newest one. */
  lemma {:induction false} NewestKept(indexes: seq<string>, snap: Streams, x: string, i: string)
    requires Descending(indexes) && i in indexes && Holds(snap, i, x)
    ensures FirstHolder(indexes, snap, x).Some? && Le(i, FirstHolder(indexes, snap, x).value)
  {
    LeTotal(i, i);
    assert indexes == [indexes[0]] + indexes[1..];
    if Holds(snap, indexes[0], x) {
      var k :| 0 <= k < |indexes| && indexes[k] == i;
    } else {
      NewestKept(indexes[1..], snap, x, i);
    }
  }

  /** The index of `dup` that comes first in the list. */
  method KeepIndex(indexes: seq<string>, dup: seq<string>) returns (keep: string)
    requires dup != []
    ensures keep in dup
    ensures forall i :: i in dup ==> Position(indexes, keep) <= Position(indexes, i)
  {
    keep := dup[0];
    for k := 1 to |dup|
      invariant keep in dup
      invariant forall j :: 0 <= j < k ==> Position(indexes, keep) <= Position(indexes, dup[j])
    {
      if Position(indexes, dup[k]) < Position(indexes, keep) {
        keep := dup[k];
      }
    }
  }

  // ---------------------------------------------------------------- deletion

  /** How many of the listed indexes hold `id`. */
  function Held(ids: Streams, list: seq<string>, id: string): nat {
    if list == [] then 0
    else
      var last := |list| - 1;
      Held(ids, list[..last], id) + (if list[last] in ids && id in ids[list[last]] then 1 else 0)
  }

  lemma {:induction false} HeldAll(ids: Streams, list: seq<string>, id: string)
    requires forall i :: i in list ==> i in ids && id in ids[i]
    ensures Held(ids, list, id) == |list|
  {
    if list != [] {
      HeldAll(ids, list[..|list| - 1], id);
    }
  }

  /** The indexes without the listed copies of one document. */
  function DeletedFrom(ids: Streams, list: seq<string>, id: string): Streams {
    map i | i in ids :: if i in list then Without(ids[i], id) else ids[i]
  }

  lemma DeletedOneMore(ids: Streams, list: seq<string>, id: string, k: nat)
    requires Distinct(list) && k < |list| && list[k] in ids
    ensures DeletedFrom(ids, list[..k], id)[list[k]] == ids[list[k]]
    ensures DeletedFrom(ids, list[..k + 1], id) == DeletedFrom(ids, list[..k], id)[list[k] := Without(ids[list[k]], id)]
    ensures Held(ids, list[..k + 1], id) == Held(ids, list[..k], id) + (if id in ids[list[k]] then 1 else 0)
  {
    assert list[..k + 1] == list[..k] + [list[k]];
    assert list[..k + 1][..k] == list[..k];
    assert list[k] !in list[..k];
  }

  /** Delete every listed copy of one document, and count the copies that were there. */
  method DeleteDuplicates(cluster: Cluster, id: string, list: seq<string>) returns (deleted: nat)
    requires Distinct(list) && forall i :: i in list ==> i in cluster.ids
    modifies cluster
    ensures cluster.ids == DeletedFrom(old(cluster.ids), list, id)
    ensures deleted == Held(old(cluster.ids), list, id)
  {
    deleted := 0;
    for k := 0 to |list|
      invariant cluster.ids == DeletedFrom(old(cluster.ids), list[..k], id)
      invariant deleted == Held(old(cluster.ids), list[..k], id)
    {
      DeletedOneMore(old(cluster.ids), list, id, k);
      var result := cluster.Delete(list[k], id);
      if result {
        deleted := deleted + 1;
      }
    }
    assert list[..|list|] == list;
  }

  // ---------------------------------------------------------------- the whole scan

  /** The operator's reply to the question about one identifier. */
  datatype Answer = Yes | No | Interrupt

  /** The stale copies of an identifier whose deletion was accepted. */
  ghost predicate Stale(indexes: seq<string>, snap: Streams, answers: string -> Answer, i: string, x: string) {
    IsDuplicate(indexes, snap, x) && answers(x) == Yes && FirstHolder(indexes, snap, x) != Some(i)
  }

  /** Of the documents at the start, exactly the stale copies at or below `upto` are gone. */
  ghost predicate Purged(indexes: seq<string>, snap: Streams, answers: string -> Answer, upto: Option<string>,
                         ids: Streams)
  {
    && ids.Keys == snap.Keys
    && (forall i :: i in indexes ==> i in ids && StrictlySorted(ids[i]))
    && (forall i :: i in ids && i !in indexes ==> ids[i] == snap[i])
    && (forall i, x :: i in indexes && i in ids && Behind(upto, x) ==> (x in ids[i] <==> Holds(snap, i, x)))
    && (forall i, x :: i in indexes && i in ids && !Behind(upto, x) ==>
          (x in ids[i] <==> Holds(snap, i, x) && !Stale(indexes, snap, answers, i, x)))
  }

  /** The cluster after the loop: the stale copies before the interruption, if any, are gone. */
  ghost predicate Final(indexes: seq<string>, snap: Streams, answers: string -> Answer, stop: Option<string>,
                        ids: Streams)
  {
    && ids.Keys == snap.Keys
    && (forall i :: i in ids && i !in indexes ==> ids[i] == snap[i])
    && (forall i, x :: i in indexes && i in ids ==>
          (x in ids[i] <==>
             Holds(snap, i, x) && !((stop.None? || Lt(x, stop.value)) && Stale(indexes, snap, answers, i, x))))
  }

  /** `found` lists every duplicate at or below `upto` once, in ascending order, with its indexes. */
  ghost predicate Reported(indexes: seq<string>, snap: Streams, upto: Option<string>, found: seq<Duplicate>) {
    && (forall j, k :: 0 <= j < k < |found| ==> Lt(found[j].id, found[k].id))
    && (forall k :: 0 <= k < |found| ==>
          IsDuplicate(indexes, snap, found[k].id) && HoldersAre(indexes, snap, found[k].id, found[k].indexes))
    && (forall k :: 0 <= k < |found| ==> !Behind(upto, found[k].id))
    && (forall x :: IsDuplicate(indexes, snap, x) && !Behind(upto, x) ==> Lists(found, x))
  }

  ghost predicate Lists(found: seq<Duplicate>, x: string) {
    exists k :: 0 <= k < |found| && found[k].id == x
  }

  lemma ReportsNext(indexes: seq<string>, snap: Streams, upto: Option<string>, found: seq<Duplicate>, d: Duplicate)
    requires Reported(indexes, snap, upto, found) && NextDuplicate(indexes, snap, upto, d)
    ensures Reported(indexes, snap, Some(d.id), found + [d])
  {
    var all := found + [d];
    forall k | 0 <= k < |found| ensures Lt(found[k].id, d.id) {
      assert !Behind(upto, found[k].id);
      LeTotal(found[k].id, upto.value);
      LtTransitive(found[k].id, upto.value, d.id);
    }
    forall k | 0 <= k < |all| ensures !Behind(Some(d.id), all[k].id) {
      LeTotal(all[k].id, d.id);
    }
    forall x | IsDuplicate(indexes, snap, x) && !Behind(Some(d.id), x) ensures Lists(all, x) {
      LeTotal(x, d.id);
      if x == d.id {
        assert all[|found|].id == x;
      } else {
        assert !Behind(upto, x);
        var k :| 0 <= k < |found| && found[k].id == x;
        assert all[k].id == x;
      }
    }
  }

  lemma PurgedAgrees(indexes: seq<string>, snap: Streams, answers: string -> Answer, upto: Option<string>, ids: Streams,
                     i: string)
    requires Purged(indexes, snap, answers, upto, ids) && i in indexes
    ensures i in ids && i in snap && AgreesBehind(ids[i], snap[i], upto)
  {
  }

  /** Deleting the stale copies of the next duplicate, or keeping them. */
  lemma PurgesNext(indexes: seq<string>, snap: Streams, answers: string -> Answer, upto: Option<string>, ids: Streams,
                   id: string, stale: seq<string>, after: Streams)
    requires Purged(indexes, snap, answers, upto, ids)
    requires Behind(upto, id) && NoneBetween(indexes, snap, upto, id) && IsDuplicate(indexes, snap, id)
    requires after.Keys == ids.Keys
    requires forall i :: i in ids ==> after[i] == if i in stale then Without(ids[i], id) else ids[i]
    requires forall i :: i in stale ==> i in indexes
    requires forall i :: i in indexes && Holds(snap, i, id) ==>
      (i in stale <==> answers(id) == Yes && FirstHolder(indexes, snap, id) != Some(i))
    ensures Purged(indexes, snap, answers, Some(id), after)
  {
    forall i | i in indexes
      ensures i in after && StrictlySorted(after[i])
      ensures forall x :: x in after[i] <==> x in ids[i] && !(i in stale && x == id)
    {
      WithoutFacts(ids[i], id);
    }
    forall i, x | i in indexes && i in after
      ensures Behind(Some(id), x) ==> (x in after[i] <==> Holds(snap, i, x))
      ensures !Behind(Some(id), x) ==> (x in after[i] <==> Holds(snap, i, x) && !Stale(indexes, snap, answers, i, x))
    {
      PurgesAt(indexes, snap, answers, upto, ids, id, stale, i, x, after[i]);
    }
  }

  lemma PurgesAt(indexes: seq<string>, snap: Streams, answers: string -> Answer, upto: Option<string>, ids: Streams,
                 id: string, stale: seq<string>, i: string, x: string, now: seq<string>)
    requires Purged(indexes, snap, answers, upto, ids) && i in indexes
    requires Behind(upto, id) && NoneBetween(indexes, snap, upto, id) && IsDuplicate(indexes, snap, id)
    requires Holds(snap, i, id) ==>
      (i in stale <==> answers(id) == Yes && FirstHolder(indexes, snap, id) != Some(i))
    requires x in now <==> x in ids[i] && !(i in stale && x == id)
    ensures Behind(Some(id), x) ==> (x in now <==> Holds(snap, i, x))
    ensures !Behind(Some(id), x) ==> (x in now <==> Holds(snap, i, x) && !Stale(indexes, snap, answers, i, x))
  {
    LeTotal(x, id);
    BehindWeaker(upto, id);
    if !Behind(Some(id), x) && x != id && Behind(upto, x) {
      assert !IsDuplicate(indexes, snap, x);
    }
  }

  lemma FinishedWhole(indexes: seq<string>, snap: Streams, answers: string -> Answer, upto: Option<string>,
                      ids: Streams)
    requires Purged(indexes, snap, answers, upto, ids) && NoneBehind(indexes, snap, upto)
    ensures Final(indexes, snap, answers, None, ids)
  {
  }

  lemma FinishedAt(indexes: seq<string>, snap: Streams, answers: string -> Answer, upto: Option<string>, ids: Streams,
                   id: string)
    requires Purged(indexes, snap, answers, upto, ids) && Behind(upto, id) && NoneBetween(indexes, snap, upto, id)
    ensures Final(indexes, snap, answers, Some(id), ids)
  {
    forall x | !Behind(upto, x) ensures Lt(x, id) {
      LeTotal(x, upto.value);
      LtTransitive(x, upto.value, id);
    }
  }

  lemma StreamsAfterDelete(indexes: seq<string>, snap: Streams, done: Option<string>, head: map<string, nat>,
                           pagers: map<string, Pager>, ids: Streams, answers: string -> Answer, after: Streams)
    requires AllStreams(indexes, snap, done, head, pagers, ids) && Purged(indexes, snap, answers, done, after)
    ensures AllStreams(indexes, snap, done, head, pagers, after)
  {
    forall i | i in indexes ensures StreamAt(snap, done, head, pagers, after, i) {
      PurgedAgrees(indexes, snap, answers, done, after, i);
    }
  }

  /** Copies removed for the reported duplicates: all but one of each accepted one. */
  function Copies(found: seq<Duplicate>, answers: string -> Answer): int {
    if found == [] then 0
    else
      var last := found[|found| - 1];
      Copies(found[..|found| - 1], answers) + (if answers(last.id) == Yes then |last.indexes| - 1 else 0)
  }

  lemma {:induction false} WithoutLength(s: seq<string>, x: string)
    requires StrictlySorted(s) && x in s
    ensures |Without(s, x)| == |s| - 1
  {
    assert s == [s[0]] + s[1..];
    if s[0] == x {
      forall k | 0 <= k < |s[1..]| ensures s[1..][k] != x { assert Lt(s[0], s[k + 1]); }
      WithoutFacts(s[1..], x);
    } else {
      WithoutLength(s[1..], x);
    }
  }

  /** What one accepted question deletes: each index but the kept one held a copy until now. */
  lemma StaleCopies(indexes: seq<string>, snap: Streams, answers: string -> Answer, upto: Option<string>, ids: Streams,
                    d: Duplicate, keep: string)
    requires Purged(indexes, snap, answers, upto, ids) && Behind(upto, d.id)
    requires HoldersAre(indexes, snap, d.id, d.indexes)
    requires keep in d.indexes && forall i :: i in d.indexes ==> Position(indexes, keep) <= Position(indexes, i)
    ensures FirstHolder(indexes, snap, d.id) == Some(keep)
    ensures var stale := Without(d.indexes, keep);
            && Distinct(stale) && |stale| == |d.indexes| - 1
            && Held(ids, stale, d.id) == |stale|
            && (forall i :: i in stale <==> i in indexes && Holds(snap, i, d.id) && i != keep)
            && (forall i :: i in stale ==> i in ids)
  {
    WithoutFacts(d.indexes, keep);
    WithoutDistinct(d.indexes, keep);
    WithoutLength(d.indexes, keep);
    LeastPosition(indexes, snap, d.id, keep);
    HeldAll(ids, Without(d.indexes, keep), d.id);
  }

  /** The state of the loop between two questions. */
  ghost predicate Between(scan: Scan, cluster: Cluster, indexes: seq<string>, snap: Streams, answers: string -> Answer,
                          found: seq<Duplicate>, copiesDeleted: nat)
    reads scan, cluster
  {
    && scan.cluster == cluster && scan.indexes == indexes && scan.snap == snap && scan.Valid()
    && ProcessedTo(indexes, snap, scan.head, scan.done)
    && Purged(indexes, snap, answers, scan.done, cluster.ids)
    && Reported(indexes, snap, scan.done, found)
    && copiesDeleted == Copies(found, answers)
  }

  /** The same, nothing interrupted yet. */
  ghost predicate Going(scan: Scan, cluster: Cluster, indexes: seq<string>, snap: Streams, answers: string -> Answer,
                        found: seq<Duplicate>, copiesDeleted: nat)
    reads scan, cluster
  {
    && Between(scan, cluster, indexes, snap, answers, found, copiesDeleted)
    && scan.done == Last(found) && Uninterrupted(found, answers)
  }

  /** Ask about one reported duplicate and delete its stale copies if told to. */
  method Settle(cluster: Cluster, indexes: seq<string>, ghost snap: Streams, answers: string -> Answer,
                d: Duplicate, ghost upto: Option<string>) returns (deleted: nat)
    requires Purged(indexes, snap, answers, upto, cluster.ids)
    requires NextDuplicate(indexes, snap, upto, d)
    modifies cluster
    ensures Purged(indexes, snap, answers, Some(d.id), cluster.ids)
    ensures deleted == if answers(d.id) == Yes then |d.indexes| - 1 else 0
  {
    ghost var ids := cluster.ids;
    HoldersTell(indexes, snap, d.id, d.indexes);
    var keep := KeepIndex(indexes, d.indexes);
    var stale := Without(d.indexes, keep);
    StaleCopies(indexes, snap, answers, upto, ids, d, keep);
    if answers(d.id) == Yes {
      deleted := DeleteDuplicates(cluster, d.id, stale);
    } else {
      deleted, stale := 0, [];
    }
    assert cluster.ids == DeletedFrom(ids, stale, d.id);
    PurgesNext(indexes, snap, answers, upto, ids, d.id, stale, cluster.ids);
  }

  function Last(found: seq<Duplicate>): Option<string> {
    if found == [] then None else Some(found[|found| - 1].id)
  }

  ghost predicate Uninterrupted(found: seq<Duplicate>, answers: string -> Answer) {
    forall k :: 0 <= k < |found| ==> answers(found[k].id) != Interrupt
  }

  /** The end of a run: every duplicate up to the interruption, if any, is reported once in ascending order with
      exactly its holders; the accepted stale copies before it, and nothing else, are gone and counted. */
  ghost predicate Outcome(indexes: seq<string>, snap: Streams, answers: string -> Answer, ids: Streams,
                          found: seq<Duplicate>, copiesDeleted: int, stop: Option<string>)
  {
    && Final(indexes, snap, answers, stop, ids)
    && Reported(indexes, snap, Last(found), found)
    && copiesDeleted == Copies(found, answers)
    && if stop.None? then
         Uninterrupted(found, answers) && NoneBehind(indexes, snap, Last(found))
       else
         && stop == Last(found) && answers(stop.value) == Interrupt
         && Uninterrupted(found[..|found| - 1], answers)
  }

  lemma Finished(indexes: seq<string>, snap: Streams, answers: string -> Answer, ids: Streams, found: seq<Duplicate>)
    requires Purged(indexes, snap, answers, Last(found), ids) && Reported(indexes, snap, Last(found), found)
    requires NoneBehind(indexes, snap, Last(found)) && Uninterrupted(found, answers)
    ensures Outcome(indexes, snap, answers, ids, found, Copies(found, answers), None)
  {
    FinishedWhole(indexes, snap, answers, Last(found), ids);
  }

  lemma Interrupted(indexes: seq<string>, snap: Streams, answers: string -> Answer, ids: Streams,
                    found: seq<Duplicate>, d: Duplicate)
    requires Purged(indexes, snap, answers, Last(found), ids) && Reported(indexes, snap, Last(found), found)
    requires NextDuplicate(indexes, snap, Last(found), d)
    requires answers(d.id) == Interrupt && Uninterrupted(found, answers)
    ensures Outcome(indexes, snap, answers, ids, found + [d], Copies(found, answers), Some(d.id))
  {
    assert (found + [d])[..|found|] == found;
    ReportsNext(indexes, snap, Last(found), found, d);
    FinishedAt(indexes, snap, answers, Last(found), ids, d.id);
  }

  /** The next duplicate, if any, is reported and settled, unless the operator interrupts. */
  method Ask(scan: Scan, cluster: Cluster, indexes: seq<string>, ghost snap: Streams, answers: string -> Answer,
             ghost found: seq<Duplicate>, ghost copiesDeleted: nat) returns (r: Option<Duplicate>, deleted: nat)
    requires Going(scan, cluster, indexes, snap, answers, found, copiesDeleted)
    modifies cluster, scan
    ensures r.None? ==> Outcome(indexes, snap, answers, cluster.ids, found, copiesDeleted, None)
    ensures r.Some? && answers(r.value.id) == Interrupt ==>
      Outcome(indexes, snap, answers, cluster.ids, found + [r.value], copiesDeleted, Some(r.value.id))
    ensures r.Some? && answers(r.value.id) != Interrupt ==>
      && Going(scan, cluster, indexes, snap, answers, found + [r.value], copiesDeleted + deleted)
      && Remaining(indexes, snap, scan.head) < Remaining(indexes, snap, old(scan.head))
  {
    r := scan.Next();
    deleted := 0;
    if r.None? {
      Finished(indexes, snap, answers, cluster.ids, found);
    } else if answers(r.value.id) == Interrupt {
      Interrupted(indexes, snap, answers, cluster.ids, found, r.value);
    } else {
      deleted := SettleInScan(scan, cluster, indexes, snap, answers, found, r.value);
    }
  }

  method SettleInScan(scan: Scan, cluster: Cluster, indexes: seq<string>, ghost snap: Streams,
                      answers: string -> Answer,
                      ghost found: seq<Duplicate>, d: Duplicate) returns (deleted: nat)
    requires scan.cluster == cluster && scan.indexes == indexes && scan.snap == snap && scan.Valid()
    requires ProcessedTo(indexes, snap, scan.head, scan.done) && scan.done == Some(d.id)
    requires Purged(indexes, snap, answers, Last(found), cluster.ids) && NextDuplicate(indexes, snap, Last(found), d)
    requires Reported(indexes, snap, Last(found), found) && Copies(found, answers) >= 0
    requires Uninterrupted(found, answers) && answers(d.id) != Interrupt
    modifies cluster
    ensures Between(scan, cluster, indexes, snap, answers, found + [d], Copies(found, answers) + deleted)
    ensures Uninterrupted(found + [d], answers) && Last(found + [d]) == Some(d.id)
  {
    ghost var ids := cluster.ids;
    deleted := Settle(cluster, indexes, snap, answers, d, Last(found));
    StreamsAfterDelete(indexes, snap, scan.done, scan.head, scan.pagers, ids, answers, cluster.ids);
    ReportsNext(indexes, snap, Last(found), found, d);
    FoundMore(found, d, answers);
  }

  lemma FoundMore(found: seq<Duplicate>, d: Duplicate, answers: string -> Answer)
    requires Uninterrupted(found, answers) && answers(d.id) != Interrupt
    ensures Uninterrupted(found + [d], answers) && Last(found + [d]) == Some(d.id)
    ensures Copies(found + [d], answers)
            == Copies(found, answers) + (if answers(d.id) == Yes then |d.indexes| - 1 else 0)
  {
    assert (found + [d])[..|found|] == found;
  }

  method StartScan(cluster: Cluster, indexes: seq<string>, batch: nat, answers: string -> Answer) returns (scan: Scan)
    requires batch > 0 && Distinct(indexes)
    requires forall i :: i in indexes ==> i in cluster.ids && StrictlySorted(cluster.ids[i])
    ensures fresh(scan) && Between(scan, cluster, indexes, cluster.ids, answers, [], 0) && scan.done == None
  {
    scan := new Scan(cluster, indexes, batch);
  }

  /** The loop over the reported duplicates. */
  method AskAll(scan: Scan, cluster: Cluster, indexes: seq<string>, ghost snap: Streams, answers: string -> Answer)
    returns (found: seq<Duplicate>, copiesDeleted: nat, stop: Option<string>)
    requires Between(scan, cluster, indexes, snap, answers, [], 0) && scan.done == None
    modifies cluster, scan
    ensures Outcome(indexes, snap, answers, cluster.ids, found, copiesDeleted, stop)
  {
    found, copiesDeleted, stop := [], 0, None;
    var going := true;
    while going
      invariant going ==> Going(scan, cluster, indexes, snap, answers, found, copiesDeleted)
      invariant !going ==> Outcome(indexes, snap, answers, cluster.ids, found, copiesDeleted, stop)
      decreases going, Remaining(indexes, snap, scan.head)
    {
      going, found, copiesDeleted, stop := AskNext(scan, cluster, indexes, snap, answers, found, copiesDeleted);
    }
  }

  /** The body of the loop. */
  method AskNext(scan: Scan, cluster: Cluster, indexes: seq<string>, ghost snap: Streams, answers: string -> Answer,
                 found: seq<Duplicate>, copiesDeleted: nat)
    returns (going: bool, foundNow: seq<Duplicate>, copiesNow: nat, stop: Option<string>)
    requires Going(scan, cluster, indexes, snap, answers, found, copiesDeleted)
    modifies cluster, scan
    ensures going ==>
      && Going(scan, cluster, indexes, snap, answers, foundNow, copiesNow)
      && Remaining(indexes, snap, scan.head) < Remaining(indexes, snap, old(scan.head))
    ensures !going ==> Outcome(indexes, snap, answers, cluster.ids, foundNow, copiesNow, stop)
  {
    var r, deleted := Ask(scan, cluster, indexes, snap, answers, found, copiesDeleted);
    if r.None? {
      return false, found, copiesDeleted, None;
    }
    if answers(r.value.id) == Interrupt {
      return false, found + [r.value], copiesDeleted, Some(r.value.id);
    }
    return true, found + [r.value], copiesDeleted + deleted, None;
  }

  /** The scan of one collection: every duplicate is reported once, and its stale copies are deleted when the
      operator says so, until the operator interrupts. */
  method Deduplicate(cluster: Cluster, indexes: seq<string>, batch: nat, answers: string -> Answer)
    returns (found: seq<Duplicate>, copiesDeleted: nat, stop: Option<string>)
    requires batch > 0 && Distinct(indexes)
    requires forall i :: i in indexes ==> i in cluster.ids && StrictlySorted(cluster.ids[i])
    modifies cluster
    ensures Outcome(indexes, old(cluster.ids), answers, cluster.ids, found, copiesDeleted, stop)
  {
    if |indexes| < 2 {
      FewIndexes(indexes, cluster.ids, answers);
      return [], 0, None;
    }
    var scan := StartScan(cluster, indexes, batch, answers);
    found, copiesDeleted, stop := AskAll(scan, cluster, indexes, cluster.ids, answers);
  }

  lemma FewIndexes(indexes: seq<string>, snap: Streams, answers: string -> Answer)
    requires |indexes| < 2 && forall i :: i in indexes ==> i in snap
    ensures Outcome(indexes, snap, answers, snap, [], 0, None)
  {
    assert forall x :: !IsDuplicate(indexes, snap, x);
  }

  // ---------------------------------------------------------------- what the deletions leave

  ghost predicate Somewhere(indexes: seq<string>, ids: Streams, x: string) {
    exists i :: i in indexes && Holds(ids, i, x)
  }

  /** No identifier disappears, whatever was answered and wherever the scan stopped. */
  lemma NoIdDisappears(indexes: seq<string>, snap: Streams, answers: string -> Answer, stop: Option<string>,
                       ids: Streams, x: string)
    requires Final(indexes, snap, answers, stop, ids)
    ensures Somewhere(indexes, snap, x) <==> Somewhere(indexes, ids, x)
  {
    if Somewhere(indexes, snap, x) {
      FirstHolderHolds(indexes, snap, x);
      var k := FirstHolder(indexes, snap, x).value;
      assert k in ids;
      assert Holds(ids, k, x);
    }
    if Somewhere(indexes, ids, x) {
      var i :| i in indexes && Holds(ids, i, x);
      assert Holds(snap, i, x);
    }
  }

  /** When every deletion is accepted, each identifier ends up in exactly one index: the first of the list. */
  lemma OneCopyLeft(indexes: seq<string>, snap: Streams, answers: string -> Answer, ids: Streams, x: string)
    requires Final(indexes, snap, answers, None, ids) && forall y :: answers(y) == Yes
    ensures forall i :: i in indexes ==> (Holds(ids, i, x) <==> FirstHolder(indexes, snap, x) == Some(i))
    ensures !IsDuplicate(indexes, ids, x)
  {
    FirstHolderHolds(indexes, snap, x);
    forall i | i in indexes ensures Holds(ids, i, x) <==> FirstHolder(indexes, snap, x) == Some(i) {
      assert i in ids || !Holds(snap, i, x);
      if Holds(snap, i, x) && FirstHolder(indexes, snap, x) != Some(i) {
        assert IsDuplicate(indexes, snap, x);
      }
    }
  }
}
