/** The duplicate finder: a lazy k-way merge over paged, sorted identifier streams, whose consumer
    deletes documents from the indexes being paged. */
module Duplicates {
  import opened Wrappers
  import opened Strings
  import opened IndexList

  // ---------------------------------------------------------------- sorted identifier lists

  /** The identifiers of a sorted index behind `x`. */
  function After(s: seq<string>, x: Option<string>): seq<string> {
    if x.Some? && s != [] && Le(s[0], x.value) then After(s[1..], x) else s
  }

  /** What a search for `size` identifiers behind `x` returns. */
  function Page(s: seq<string>, x: Option<string>, size: nat): seq<string> {
    var rest := After(s, x);
    if |rest| <= size then rest else rest[..size]
  }

  lemma {:induction false} AfterAt(s: seq<string>, k: nat)
    requires StrictlySorted(s) && k < |s|
    ensures After(s, Some(s[k])) == s[k + 1..]
  {
    LeTotal(s[0], s[k]);
    if k == 0 {
      if |s| > 1 {
        assert Lt(s[0], s[1]);
        LeTotal(s[0], s[1]);
      }
      assert After(s, Some(s[0])) == After(s[1..], Some(s[0]));
    } else {
      assert Lt(s[0], s[k]);
      AfterAt(s[1..], k - 1);
      assert s[1..][k - 1] == s[k];
    }
  }

  lemma {:induction false} AfterFacts(s: seq<string>, x: string)
    requires StrictlySorted(s)
    ensures StrictlySorted(After(s, Some(x)))
    ensures forall y :: y in After(s, Some(x)) <==> y in s && !Le(y, x)
  {
    if s != [] {
      assert s == [s[0]] + s[1..];
      if Le(s[0], x) {
        AfterFacts(s[1..], x);
      } else {
        forall y | y in s ensures !Le(y, x) {
          var k :| 0 <= k < |s| && s[k] == y;
          if k > 0 { assert Lt(s[0], s[k]); }
          if Le(y, x) {
            LeTotal(s[0], s[0]);
            LeTransitive(s[0], y, x);
          }
        }
      }
    }
  }

  lemma {:induction false} SortedSame(a: seq<string>, b: seq<string>)
    requires StrictlySorted(a) && StrictlySorted(b) && forall x :: x in a <==> x in b
    ensures a == b
  {
    if a != [] && b != [] {
      SortedHead(a, b);
      SortedHead(b, a);
      LeTotal(a[0], b[0]);
      forall x ensures x in a[1..] <==> x in b[1..] {
        SortedTail(a, x);
        SortedTail(b, x);
      }
      SortedSame(a[1..], b[1..]);
      assert a == [a[0]] + a[1..] && b == [b[0]] + b[1..];
    } else {
      FirstIsIn(a);
      FirstIsIn(b);
    }
  }

  lemma FirstIsIn(s: seq<string>)
    ensures s == [] || s[0] in s
  {
  }

  lemma SortedHead(a: seq<string>, b: seq<string>)
    requires StrictlySorted(a) && a != [] && b != [] && b[0] in a
    ensures Le(a[0], b[0])
  {
    var k :| 0 <= k < |a| && a[k] == b[0];
    LeTotal(a[0], a[0]);
    if k > 0 { assert Lt(a[0], a[k]); }
  }

  lemma SortedTail(a: seq<string>, x: string)
    requires StrictlySorted(a) && a != []
    ensures x in a[1..] <==> x in a && x != a[0]
  {
    assert a == [a[0]] + a[1..];
    if x in a[1..] {
      var k :| 0 <= k < |a[1..]| && a[1..][k] == x;
      assert Lt(a[0], a[k + 1]);
    }
  }

  // ---------------------------------------------------------------- the physical indexes

  /** The documents of every physical index, by identifier. */
  class Cluster {
    var ids: map<string, seq<string>>

    constructor (ids: map<string, seq<string>>)
      ensures this.ids == ids
    {
      this.ids := ids;
    }

    method Search(index: string, after: Option<string>, size: nat) returns (hits: seq<string>)
      requires index in ids
      ensures hits == Page(ids[index], after, size)
    {
      hits := Page(ids[index], after, size);
    }

    method Delete(index: string, id: string) returns (deleted: bool)
      requires index in ids
      modifies this
      ensures ids == old(ids)[index := Without(old(ids)[index], id)]
      ensures deleted <==> id in old(ids)[index]
    {
      deleted := id in ids[index];
      ids := ids[index := Without(ids[index], id)];
    }
  }

  // ---------------------------------------------------------------- the heap

  datatype Entry = Entry(id: string, index: string)

  /** Python's order on the heap's tuples. */
  predicate Before(a: Entry, b: Entry) {
    Lt(a.id, b.id) || (a.id == b.id && Lt(a.index, b.index))
  }

  predicate Ordered(h: seq<Entry>) {
    forall i, j :: 0 <= i < j < |h| ==> Before(h[i], h[j])
  }

  function Push(h: seq<Entry>, e: Entry): seq<Entry> {
    if h == [] || Before(e, h[0]) then [e] + h else [h[0]] + Push(h[1..], e)
  }

  lemma BeforeTotal(a: Entry, b: Entry)
    ensures Before(a, b) || Before(b, a) || a == b
    ensures !(Before(a, b) && Before(b, a))
  {
    LeTotal(a.id, b.id);
    LeTotal(a.index, b.index);
  }

  lemma BeforeTransitive(a: Entry, b: Entry, c: Entry)
    requires Before(a, b) && Before(b, c)
    ensures Before(a, c)
  {
    if Lt(a.id, b.id) {
      if Lt(b.id, c.id) { LtTransitive(a.id, b.id, c.id); }
    } else if !Lt(b.id, c.id) {
      LtTransitive(a.index, b.index, c.index);
    }
  }

  lemma {:induction false} PushFacts(h: seq<Entry>, e: Entry)
    requires Ordered(h) && e !in h
    ensures Ordered(Push(h, e))
    ensures forall x :: x in Push(h, e) <==> x in h || x == e
  {
    if h == [] {
    } else if Before(e, h[0]) {
      forall j | 0 <= j < |h| ensures Before(e, h[j]) {
        if j > 0 { BeforeTransitive(e, h[0], h[j]); }
      }
    } else {
      PushFacts(h[1..], e);
      assert h == [h[0]] + h[1..];
      BeforeTotal(e, h[0]);
      assert h[0] in h;
      var rest := Push(h[1..], e);
      forall j | 0 <= j < |rest| ensures Before(h[0], rest[j]) {
        assert rest[j] in rest;
        if rest[j] != e {
          var k :| 0 <= k < |h[1..]| && h[1..][k] == rest[j];
          assert Before(h[0], h[k + 1]);
        }
      }
    }
  }

  // ---------------------------------------------------------------- one paged stream

  /** The state of one `iter_index_ids` generator: the hits of its page not yet yielded, and the
      sort value of the page's last hit. */
  datatype Pager = Pager(searchAfter: Option<string>, page: seq<string>, finished: bool)

  /** The generator has yielded the first `n` identifiers of `s` and fetched ahead. */
  ghost predicate PagerAt(p: Pager, s: seq<string>, n: nat) {
    && n + |p.page| <= |s|
    && p.page == s[n..n + |p.page|]
    && (p.finished ==> n == |s|)
    && p.searchAfter == (if n + |p.page| == 0 then None else Some(s[n + |p.page| - 1]))
  }

  ghost predicate Behind(done: Option<string>, id: string) {
    done.None? || Lt(done.value, id)
  }

  /** What was deleted from an index since the snapshot lies at or below `done`. */
  ghost predicate AgreesBehind(current: seq<string>, snap: seq<string>, done: Option<string>) {
    StrictlySorted(current) && forall x :: Behind(done, x) ==> (x in current <==> x in snap)
  }

  lemma NextPage(current: seq<string>, snap: seq<string>, done: Option<string>, n: nat, size: nat)
    requires StrictlySorted(snap) && AgreesBehind(current, snap, done) && n <= |snap|
    requires if n == 0 then done.None? else done.None? || Le(done.value, snap[n - 1])
    ensures var after := if n == 0 then None else Some(snap[n - 1]);
            Page(current, after, size) == (if |snap| - n <= size then snap[n..] else snap[n..n + size])
  {
    if n > 0 {
      var last := snap[n - 1];
      AfterAt(snap, n - 1);
      AfterFacts(current, last);
      AfterFacts(snap, last);
      forall x ensures x in After(current, Some(last)) <==> x in After(snap, Some(last)) {
        LeTotal(x, last);
        if !Le(x, last) && done.Some? {
          LtTransitive(done.value, last, x);
        }
      }
      SortedSame(After(current, Some(last)), After(snap, Some(last)));
      var rest := snap[n..];
      if |rest| > size { assert rest[..size] == snap[n..n + size]; }
    } else {
      assert forall x :: Behind(done, x);
      SortedSame(current, snap);
    }
  }

  /** The pager after a fetch: the page and its last sort value, or the end of the stream. */
  function Refill(p: Pager, hits: seq<string>): Pager {
    if hits == [] then p.(finished := true) else Pager(Some(hits[|hits| - 1]), hits, false)
  }

  lemma RefillFacts(p: Pager, snap: seq<string>, n: nat, size: nat, hits: seq<string>)
    requires PagerAt(p, snap, n) && p.page == [] && size > 0
    requires hits == (if |snap| - n <= size then snap[n..] else snap[n..n + size])
    ensures PagerAt(Refill(p, hits), snap, n)
    ensures Refill(p, hits).page == [] <==> n == |snap|
  {
  }

  lemma TakeFacts(p: Pager, snap: seq<string>, n: nat)
    requires PagerAt(p, snap, n) && p.page != []
    ensures n < |snap| && p.page[0] == snap[n] && PagerAt(p.(page := p.page[1..]), snap, n + 1)
  {
  }

  // ---------------------------------------------------------------- the merge

  type Streams = map<string, seq<string>>

  ghost predicate Holds(snap: Streams, i: string, id: string) {
    i in snap && id in snap[i]
  }

  /** `list` names, in ascending order, exactly the indexes that hold `id`. */
  ghost predicate HoldersAre(indexes: seq<string>, snap: Streams, id: string, list: seq<string>) {
    && StrictlySorted(list)
    && forall i :: i in list <==> i in indexes && Holds(snap, i, id)
  }

  ghost predicate IsDuplicate(indexes: seq<string>, snap: Streams, id: string) {
    exists i, j :: i in indexes && j in indexes && i != j && Holds(snap, i, id) && Holds(snap, j, id)
  }

  /** `head[i]` identifiers of index `i` are processed; the next one, if any, is on the heap. */
  ghost predicate HeapIs(indexes: seq<string>, snap: Streams, head: map<string, nat>, heap: seq<Entry>) {
    && Ordered(heap)
    && (forall i :: i in indexes ==> i in snap && i in head && head[i] <= |snap[i]|)
    && (forall e :: e in heap ==>
         e.index in indexes && head[e.index] < |snap[e.index]| && e.id == snap[e.index][head[e.index]])
    && (forall i :: i in indexes && head[i] < |snap[i]| ==> Entry(snap[i][head[i]], i) in heap)
  }

  function Others(indexes: seq<string>, index: string): seq<string> {
    Without(indexes, index)
  }

  lemma OthersFacts(indexes: seq<string>, index: string)
    ensures forall i :: i in Others(indexes, index) <==> i in indexes && i != index
  {
    WithoutFacts(indexes, index);
  }

  lemma PopFacts(indexes: seq<string>, snap: Streams, head: map<string, nat>, heap: seq<Entry>)
    requires HeapIs(indexes, snap, head, heap) && heap != []
    ensures HeapIs(Others(indexes, heap[0].index), snap, head, heap[1..])
  {
    var e := heap[0];
    OthersFacts(indexes, e.index);
    assert heap == [e] + heap[1..];
    forall x | x in heap[1..] ensures x in heap && x.index != e.index {
      var k :| 0 <= k < |heap[1..]| && heap[1..][k] == x;
      assert Before(e, heap[k + 1]);
      assert x in heap;
      BeforeTotal(e, x);
    }
  }

  /** No two entries share an index, so comparing them never goes past the index name. */
  lemma OneEntryPerIndex(indexes: seq<string>, snap: Streams, head: map<string, nat>, heap: seq<Entry>)
    requires HeapIs(indexes, snap, head, heap)
    ensures forall j, k :: 0 <= j < k < |heap| ==> heap[j].index != heap[k].index
  {
    forall j, k | 0 <= j < k < |heap| ensures heap[j].index != heap[k].index {
      assert heap[j] in heap && heap[k] in heap;
      BeforeTotal(heap[j], heap[k]);
    }
  }

  lemma HeapOfAll(indexes: seq<string>, snap: Streams, head: map<string, nat>, heap: seq<Entry>, index: string)
    requires index in indexes && HeapIs(Others(indexes, index) + [index], snap, head, heap)
    ensures HeapIs(indexes, snap, head, heap)
  {
    OthersFacts(indexes, index);
  }

  /** Pushing the next identifier of one more stream, if it has one. */
  lemma PushedHeap(others: seq<string>, snap: Streams, head: map<string, nat>, heap: seq<Entry>, index: string, n: nat)
    requires HeapIs(others, snap, head, heap) && index !in others && index in snap && n <= |snap[index]|
    ensures var next := if n < |snap[index]| then Push(heap, Entry(snap[index][n], index)) else heap;
            HeapIs(others + [index], snap, head[index := n], next)
  {
    forall i ensures i in others + [index] <==> i in others || i == index {}
    if n < |snap[index]| {
      PushFacts(heap, Entry(snap[index][n], index));
      PushedEntries(others, snap, head, heap, index, n);
    } else {
      forall e | e in heap ensures e.index != index {}
    }
  }

  lemma PushedEntries(others: seq<string>, snap: Streams, head: map<string, nat>, heap: seq<Entry>, index: string,
                      n: nat)
    requires HeapIs(others, snap, head, heap) && index !in others && index in snap && n < |snap[index]|
    ensures var (now, next) := (head[index := n], Push(heap, Entry(snap[index][n], index)));
            && (forall e :: e in next ==>
                  (e.index in others || e.index == index) && now[e.index] < |snap[e.index]|
                    && e.id == snap[e.index][now[e.index]])
            && (forall i :: (i in others || i == index) && now[i] < |snap[i]| ==> Entry(snap[i][now[i]], i) in next)
  {
    var now, next := head[index := n], Push(heap, Entry(snap[index][n], index));
    PushFacts(heap, Entry(snap[index][n], index));
    forall e | e in next
      ensures (e.index in others || e.index == index) && now[e.index] < |snap[e.index]|
      ensures e.id == snap[e.index][now[e.index]]
    {
      assert e in heap || e == Entry(snap[index][n], index);
    }
    forall i | (i in others || i == index) && now[i] < |snap[i]| ensures Entry(snap[i][now[i]], i) in next {
      if i != index { assert Entry(snap[i][head[i]], i) in heap; }
    }
  }

  // ---------------------------------------------------------------- rounds of the merge

  /** Exactly the identifiers up to `bound` are processed, in every stream. */
  ghost predicate ProcessedTo(indexes: seq<string>, snap: Streams, head: map<string, nat>, bound: Option<string>) {
    forall i :: i in indexes ==>
      && i in snap && StrictlySorted(snap[i]) && i in head && head[i] <= |snap[i]|
      && (head[i] < |snap[i]| ==> Behind(bound, snap[i][head[i]]))
      && (head[i] > 0 ==> bound.Some? && Le(snap[i][head[i] - 1], bound.value))
  }

  /** All but the last processed identifier lies at or below `bound`. */
  ghost predicate PassedBefore(s: seq<string>, h: nat, bound: Option<string>)
    requires h <= |s|
  {
    h > 1 ==> bound.Some? && Le(s[h - 2], bound.value)
  }

  /** Of the streams holding `id` next, those in `dup` have passed it, in ascending order. */
  ghost predicate InRound(indexes: seq<string>, snap: Streams, head: map<string, nat>, bound: Option<string>,
                          id: string, dup: seq<string>)
  {
    && Behind(bound, id) && StrictlySorted(dup)
    && (forall i :: i in indexes ==>
          && i in snap && StrictlySorted(snap[i]) && i in head && head[i] <= |snap[i]|
          && (head[i] < |snap[i]| ==> Le(id, snap[i][head[i]]))
          && (if i in dup then head[i] > 0 && snap[i][head[i] - 1] == id && PassedBefore(snap[i], head[i], bound)
              else head[i] > 0 ==> bound.Some? && Le(snap[i][head[i] - 1], bound.value)))
    && (forall i :: i in dup ==> i in indexes)
    && (forall i, j :: i in indexes && i !in dup && head[i] < |snap[i]| && snap[i][head[i]] == id && j in dup ==>
         Lt(j, i))
  }

  lemma LeastOnTop(indexes: seq<string>, snap: Streams, head: map<string, nat>, heap: seq<Entry>, i: string)
    requires HeapIs(indexes, snap, head, heap) && i in indexes && head[i] < |snap[i]|
    ensures heap != [] && (i == heap[0].index || Before(heap[0], Entry(snap[i][head[i]], i)))
    ensures Le(heap[0].id, snap[i][head[i]])
  {
    var e := Entry(snap[i][head[i]], i);
    assert e in heap;
    var k :| 0 <= k < |heap| && heap[k] == e;
    LeTotal(heap[0].id, heap[0].id);
  }

  /** No stream has an identifier strictly between `bound` and `id`. */
  ghost predicate Clear(indexes: seq<string>, snap: Streams, bound: Option<string>, id: string) {
    forall x, i :: Behind(bound, x) && Lt(x, id) && i in indexes ==> !Holds(snap, i, x)
  }

  /** A round starts when the least entry is popped. */
  lemma RoundStarts(indexes: seq<string>, snap: Streams, head: map<string, nat>, heap: seq<Entry>,
                    bound: Option<string>)
    requires HeapIs(indexes, snap, head, heap) && heap != [] && ProcessedTo(indexes, snap, head, bound)
    ensures var e := heap[0];
            e in heap && e.index in indexes
              && InRound(indexes, snap, head[e.index := head[e.index] + 1], bound, e.id, [e.index])
  {
    var e := heap[0];
    TopEntry(indexes, snap, head, heap);
    TopIsLeast(indexes, snap, head, heap);
    NextIsBehind(indexes, snap, head, bound, e.index);
    RoundOpens(indexes, snap, head, bound, e.id, e.index);
  }

  lemma TopEntry(indexes: seq<string>, snap: Streams, head: map<string, nat>, heap: seq<Entry>)
    requires HeapIs(indexes, snap, head, heap) && heap != []
    ensures var e := heap[0];
            e in heap && e.index in indexes && e.index in snap && e.index in head
            && head[e.index] < |snap[e.index]| && e.id == snap[e.index][head[e.index]]
  {
    assert heap[0] in heap;
  }

  lemma NextIsBehind(indexes: seq<string>, snap: Streams, head: map<string, nat>, bound: Option<string>, index: string)
    requires ProcessedTo(indexes, snap, head, bound) && index in indexes && head[index] < |snap[index]|
    ensures var (s, h) := (snap[index], head[index]); h + 1 < |s| ==> Lt(s[h], s[h + 1])
  {
  }

  lemma TopIsLeast(indexes: seq<string>, snap: Streams, head: map<string, nat>, heap: seq<Entry>)
    requires HeapIs(indexes, snap, head, heap) && heap != []
    ensures forall i :: i in indexes && head[i] < |snap[i]| ==>
              Le(heap[0].id, snap[i][head[i]])
                && (i != heap[0].index && snap[i][head[i]] == heap[0].id ==> Lt(heap[0].index, i))
  {
    forall i | i in indexes && head[i] < |snap[i]|
      ensures Le(heap[0].id, snap[i][head[i]])
      ensures i != heap[0].index && snap[i][head[i]] == heap[0].id ==> Lt(heap[0].index, i)
    {
      LeastOnTop(indexes, snap, head, heap, i);
    }
  }

  lemma RoundOpens(indexes: seq<string>, snap: Streams, head: map<string, nat>, bound: Option<string>, id: string,
                   index: string)
    requires ProcessedTo(indexes, snap, head, bound) && index in indexes
    requires head[index] < |snap[index]| && snap[index][head[index]] == id
    requires head[index] + 1 < |snap[index]| ==> Lt(id, snap[index][head[index] + 1])
    requires forall i :: i in indexes && head[i] < |snap[i]| ==>
               Le(id, snap[i][head[i]]) && (i != index && snap[i][head[i]] == id ==> Lt(index, i))
    ensures InRound(indexes, snap, head[index := head[index] + 1], bound, id, [index])
  {
    assert Behind(bound, id);
  }

  /** A round goes on with the next entry of the same identifier. */
  lemma RoundContinues(indexes: seq<string>, snap: Streams, head: map<string, nat>, heap: seq<Entry>,
                       bound: Option<string>,
                       id: string, dup: seq<string>)
    requires HeapIs(indexes, snap, head, heap) && heap != [] && heap[0].id == id
    requires InRound(indexes, snap, head, bound, id, dup)
    ensures var e := heap[0];
            e in heap && e.index in indexes
            && InRound(indexes, snap, head[e.index := head[e.index] + 1], bound, id, dup + [e.index])
  {
    var e := heap[0];
    assert e in heap;
    var s, h := snap[e.index], head[e.index];
    assert h > 0 ==> Lt(s[h - 1], s[h]);
    assert e.index !in dup;
    forall j | 0 <= j < |dup| ensures Lt(dup[j], e.index) {
      assert dup[j] in dup;
    }
    assert h + 1 < |s| ==> Lt(s[h], s[h + 1]);
    forall i | i in indexes && i !in dup && i != e.index && head[i] < |snap[i]| && snap[i][head[i]] == id
      ensures Lt(e.index, i)
    {
      LeastOnTop(indexes, snap, head, heap, i);
    }
    RoundGrows(indexes, snap, head, bound, id, dup, e.index);
  }

  lemma RoundGrows(indexes: seq<string>, snap: Streams, head: map<string, nat>, bound: Option<string>,
                   id: string, dup: seq<string>, index: string)
    requires InRound(indexes, snap, head, bound, id, dup)
    requires index in indexes && index !in dup && head[index] < |snap[index]| && snap[index][head[index]] == id
    requires head[index] + 1 < |snap[index]| ==> Le(id, snap[index][head[index] + 1])
    requires forall j :: 0 <= j < |dup| ==> Lt(dup[j], index)
    requires forall i :: i in indexes && i !in dup && i != index && head[i] < |snap[i]| && snap[i][head[i]] == id ==>
      Lt(index, i)
    ensures InRound(indexes, snap, head[index := head[index] + 1], bound, id, dup + [index])
  {
  }

  /** A round ends when no stream is left at its identifier: `dup` names all its holders. */
  lemma RoundEnds(indexes: seq<string>, snap: Streams, head: map<string, nat>, heap: seq<Entry>, bound: Option<string>,
                  id: string, dup: seq<string>)
    requires HeapIs(indexes, snap, head, heap) && (heap == [] || heap[0].id != id)
    requires InRound(indexes, snap, head, bound, id, dup)
    ensures ProcessedTo(indexes, snap, head, Some(id))
    ensures HoldersAre(indexes, snap, id, dup)
    ensures Clear(indexes, snap, bound, id)
  {
    forall i | i in indexes && head[i] < |snap[i]| ensures Lt(id, snap[i][head[i]]) {
      LeastOnTop(indexes, snap, head, heap, i);
      assert heap[0] in heap;
      var e := heap[0];
      assert e.id == snap[e.index][head[e.index]];
      LtTransitive(id, e.id, snap[i][head[i]]);
    }
    LeTotal(id, id);
    forall i | i in indexes && i !in dup && head[i] > 0 ensures Lt(snap[i][head[i] - 1], id) {
      LtTransitive(snap[i][head[i] - 1], bound.value, id);
    }
    forall i, x | i in indexes && Holds(snap, i, x)
      ensures x == id ==> i in dup
      ensures Lt(x, id) ==> !Behind(bound, x)
    {
      HolderInRound(snap, head, bound, id, dup, i, x);
    }
    forall i | i in dup ensures Holds(snap, i, id) {
      assert snap[i][head[i] - 1] in snap[i];
    }
  }

  lemma HolderInRound(snap: Streams, head: map<string, nat>, bound: Option<string>, id: string, dup: seq<string>,
                      i: string, x: string)
    requires Holds(snap, i, x) && StrictlySorted(snap[i]) && i in head && head[i] <= |snap[i]|
    requires head[i] < |snap[i]| ==> Lt(id, snap[i][head[i]])
    requires i in dup ==> head[i] > 0 && snap[i][head[i] - 1] == id && PassedBefore(snap[i], head[i], bound)
    requires i !in dup && head[i] > 0 ==>
      bound.Some? && Le(snap[i][head[i] - 1], bound.value) && Lt(snap[i][head[i] - 1], id)
    requires Behind(bound, id)
    ensures x == id ==> i in dup
    ensures Lt(x, id) ==> !Behind(bound, x)
  {
    var s, h := snap[i], head[i];
    var k :| 0 <= k < |s| && s[k] == x;
    LeTotal(x, id);
    if k >= h {
      if k > h {
        assert Lt(s[h], s[k]);
        LtTransitive(id, s[h], x);
      }
    } else {
      if k < h - 1 { assert Lt(s[k], s[h - 1]); }
      LeTotal(x, x);
      if i !in dup {
        if k < h - 1 { LtTransitive(x, s[h - 1], bound.value); }
        LeTotal(x, bound.value);
      } else if k < h - 1 {
        if k < h - 2 {
          assert Lt(s[k], s[h - 2]);
          LtTransitive(x, s[h - 2], bound.value);
        }
        LeTotal(x, bound.value);
      }
    }
  }

  /** The generator of index `i` has yielded the processed identifiers and the one on the heap. */
  ghost predicate StreamAt(snap: Streams, done: Option<string>, head: map<string, nat>, pagers: map<string, Pager>,
                           ids: Streams, i: string)
  {
    && i in snap && StrictlySorted(snap[i]) && i in pagers && i in head && i in ids
    && AgreesBehind(ids[i], snap[i], done)
    && (head[i] < |snap[i]| ==> Behind(done, snap[i][head[i]]))
    && PagerAt(pagers[i], snap[i], if head[i] < |snap[i]| then head[i] + 1 else head[i])
  }

  /** Only the generator of one index has moved. */
  ghost predicate OnlyPager(a: map<string, Pager>, b: map<string, Pager>, index: string) {
    a.Keys == b.Keys && forall i :: i in b && i != index ==> b[i] == a[i]
  }

  ghost predicate AllStreams(indexes: seq<string>, snap: Streams, done: Option<string>, head: map<string, nat>,
                             pagers: map<string, Pager>, ids: Streams)
  {
    forall i :: i in indexes ==> StreamAt(snap, done, head, pagers, ids, i)
  }

  /** One more stream is open. */
  lemma OpenedMore(ready: seq<string>, index: string, snap: Streams, done: Option<string>, head: map<string, nat>,
                   pagers: map<string, Pager>, ids: Streams, headNow: map<string, nat>, pagersNow: map<string, Pager>)
    requires AllStreams(ready, snap, done, head, pagers, ids) && StreamAt(snap, done, headNow, pagersNow, ids, index)
    requires index !in ready && headNow == head[index := 0]
    requires OnlyPager(pagers[index := pagersNow[index]], pagersNow, index)
    ensures AllStreams(ready + [index], snap, done, headNow, pagersNow, ids)
  {
    forall i | i in ready ensures StreamAt(snap, done, headNow, pagersNow, ids, i) {
      assert StreamAt(snap, done, head, pagers, ids, i);
    }
  }

  lemma OtherStreams(snap: Streams, done: Option<string>, head: map<string, nat>, pagers: map<string, Pager>,
                     ids: Streams, indexes: seq<string>, index: string, n: nat, after: map<string, Pager>)
    requires AllStreams(indexes, snap, done, head, pagers, ids)
    requires OnlyPager(pagers, after, index)
    ensures forall i :: i in indexes && i != index ==> StreamAt(snap, done, head[index := n], after, ids, i)
  {
  }

  /** The heap and the streams after the entry of one index was replaced by its next one. */
  lemma Repushed(indexes: seq<string>, snap: Streams, done: Option<string>, head: map<string, nat>,
                 pagers: map<string, Pager>,
                 ids: Streams, index: string, headNow: map<string, nat>, pagersNow: map<string, Pager>,
                 heap: seq<Entry>)
    requires index in indexes && index in headNow && headNow == head[index := headNow[index]]
    requires AllStreams(indexes, snap, done, head, pagers, ids)
    requires OnlyPager(pagers, pagersNow, index)
    requires HeapIs(Others(indexes, index) + [index], snap, headNow, heap)
    requires StreamAt(snap, done, headNow, pagersNow, ids, index)
    ensures HeapIs(indexes, snap, headNow, heap) && AllStreams(indexes, snap, done, headNow, pagersNow, ids)
  {
    HeapOfAll(indexes, snap, headNow, heap, index);
    OtherStreams(snap, done, head, pagers, ids, indexes, index, headNow[index], pagersNow);
  }

  lemma StillBehind(s: seq<string>, n: nat, done: Option<string>)
    requires StrictlySorted(s) && n <= |s|
    requires if n == 0 then done.None? else Behind(done, s[n - 1])
    ensures n < |s| ==> Behind(done, s[n])
  {
    if n < |s| && done.Some? {
      assert Lt(s[n - 1], s[n]);
      LtTransitive(done.value, s[n - 1], s[n]);
    }
  }

  /** A stream whose `n` first identifiers are processed and whose next one, if any, is on the heap. */
  /** The generator of `index` can be asked for the identifier after the `n` it has yielded. */
  ghost predicate Ready(snap: Streams, done: Option<string>, pagers: map<string, Pager>, ids: Streams, index: string,
                        n: nat)
  {
    && index in pagers && index in snap && index in ids && StrictlySorted(snap[index])
    && AgreesBehind(ids[index], snap[index], done) && PagerAt(pagers[index], snap[index], n)
    && if n == 0 then done.None? else Behind(done, snap[index][n - 1])
  }

  lemma NewStream(snap: Streams, done: Option<string>, head: map<string, nat>, index: string, n: nat,
                  pagers: map<string, Pager>, ids: Streams)
    requires index in snap && StrictlySorted(snap[index]) && n <= |snap[index]| && index in pagers && index in ids
    requires AgreesBehind(ids[index], snap[index], done)
    requires if n == 0 then done.None? else Behind(done, snap[index][n - 1])
    requires PagerAt(pagers[index], snap[index], if n < |snap[index]| then n + 1 else n)
    ensures StreamAt(snap, done, head[index := n], pagers, ids, index)
  {
    StillBehind(snap[index], n, done);
  }

  /** The streams stay consistent when everything up to `id` counts as reported. */
  lemma StreamsMoveOn(indexes: seq<string>, snap: Streams, done: Option<string>, id: string, head: map<string, nat>,
                      pagers: map<string, Pager>, ids: Streams)
    requires AllStreams(indexes, snap, done, head, pagers, ids)
    requires Behind(done, id) && ProcessedTo(indexes, snap, head, Some(id))
    ensures AllStreams(indexes, snap, Some(id), head, pagers, ids)
  {
    BehindWeaker(done, id);
  }

  // ---------------------------------------------------------------- termination of the merge

  /** Identifiers not processed yet. */
  function Remaining(indexes: seq<string>, snap: Streams, head: map<string, nat>): nat {
    if indexes == [] then 0
    else
      var i := indexes[0];
      (if i in snap && i in head && head[i] <= |snap[i]| then |snap[i]| - head[i] else 0)
        + Remaining(indexes[1..], snap, head)
  }

  lemma {:induction false} RemainingDrops(indexes: seq<string>, snap: Streams, head: map<string, nat>, index: string)
    requires index in snap && index in head && head[index] < |snap[index]|
    ensures var next := Remaining(indexes, snap, head[index := head[index] + 1]);
            next <= Remaining(indexes, snap, head) && (index in indexes ==> next < Remaining(indexes, snap, head))
  {
    if indexes != [] {
      RemainingDrops(indexes[1..], snap, head, index);
      assert indexes == [indexes[0]] + indexes[1..];
    }
  }

  lemma RoundContinued(indexes: seq<string>, snap: Streams, head: map<string, nat>, heap: seq<Entry>,
                       bound: Option<string>, id: string, dup: seq<string>)
    requires HeapIs(indexes, snap, head, heap) && heap != [] && heap[0].id == id
    requires InRound(indexes, snap, head, bound, id, dup)
    ensures var index := heap[0].index;
            && index in head && InRound(indexes, snap, head[index := head[index] + 1], bound, id, dup + [index])
            && Remaining(indexes, snap, head[index := head[index] + 1]) < Remaining(indexes, snap, head)
  {
    RoundContinues(indexes, snap, head, heap, bound, id, dup);
    TopEntry(indexes, snap, head, heap);
    RemainingDrops(indexes, snap, head, heap[0].index);
  }

  lemma RoundStarted(indexes: seq<string>, snap: Streams, head: map<string, nat>, heap: seq<Entry>,
                     bound: Option<string>)
    requires HeapIs(indexes, snap, head, heap) && heap != [] && ProcessedTo(indexes, snap, head, bound)
    ensures var index := heap[0].index;
            && index in head && InRound(indexes, snap, head[index := head[index] + 1], bound, heap[0].id, [index])
            && Remaining(indexes, snap, head[index := head[index] + 1]) < Remaining(indexes, snap, head)
  {
    RoundStarts(indexes, snap, head, heap, bound);
    TopEntry(indexes, snap, head, heap);
    RemainingDrops(indexes, snap, head, heap[0].index);
  }

  // ---------------------------------------------------------------- what a scan has reported

  /** No duplicated identifier lies behind `from` and at or below `to`. */
  ghost predicate Quiet(indexes: seq<string>, snap: Streams, from: Option<string>, to: Option<string>) {
    forall x :: Behind(from, x) && !Behind(to, x) ==> !IsDuplicate(indexes, snap, x)
  }

  ghost predicate NoneBehind(indexes: seq<string>, snap: Streams, from: Option<string>) {
    forall x :: Behind(from, x) ==> !IsDuplicate(indexes, snap, x)
  }

  ghost predicate NoneBetween(indexes: seq<string>, snap: Streams, from: Option<string>, id: string) {
    forall x :: Behind(from, x) && Lt(x, id) ==> !IsDuplicate(indexes, snap, x)
  }

  lemma HoldersTell(indexes: seq<string>, snap: Streams, id: string, list: seq<string>)
    requires HoldersAre(indexes, snap, id, list)
    ensures IsDuplicate(indexes, snap, id) <==> |list| >= 2
  {
    if |list| >= 2 {
      assert Lt(list[0], list[1]) && list[0] in list && list[1] in list;
      assert Holds(snap, list[0], id) && Holds(snap, list[1], id);
    }
    if IsDuplicate(indexes, snap, id) {
      var i, j :| i in indexes && j in indexes && i != j && Holds(snap, i, id) && Holds(snap, j, id);
      TwoMembers(list, i, j);
    }
  }

  lemma TwoMembers(list: seq<string>, i: string, j: string)
    requires i in list && j in list && i != j
    ensures |list| >= 2
  {
    var a :| 0 <= a < |list| && list[a] == i;
    var b :| 0 <= b < |list| && list[b] == j;
    assert a != b;
  }

  lemma QuietRound(indexes: seq<string>, snap: Streams, from: Option<string>, bound: Option<string>, id: string)
    requires Quiet(indexes, snap, from, bound)
    requires Clear(indexes, snap, bound, id)
    ensures NoneBetween(indexes, snap, from, id)
    ensures !IsDuplicate(indexes, snap, id) ==> Quiet(indexes, snap, from, Some(id))
  {
    forall x | Behind(from, x) && !Behind(Some(id), x) && x != id ensures Lt(x, id) {
      LeTotal(x, id);
    }
  }

  lemma NothingLeft(indexes: seq<string>, snap: Streams, head: map<string, nat>, from: Option<string>,
                    bound: Option<string>)
    requires HeapIs(indexes, snap, head, []) && ProcessedTo(indexes, snap, head, bound)
    requires Quiet(indexes, snap, from, bound)
    ensures NoneBehind(indexes, snap, from)
  {
    forall i, x | i in indexes && Holds(snap, i, x) ensures !Behind(bound, x) {
      var s := snap[i];
      assert head[i] == |s|;
      var k :| 0 <= k < |s| && s[k] == x;
      if k < |s| - 1 {
        assert Lt(s[k], s[|s| - 1]);
        LtTransitive(x, s[|s| - 1], bound.value);
      }
      LeTotal(x, bound.value);
    }
  }

  lemma BehindWeaker(from: Option<string>, id: string)
    requires Behind(from, id)
    ensures forall x :: Behind(Some(id), x) ==> Behind(from, x)
  {
    if from.Some? {
      forall x | Lt(id, x) ensures Lt(from.value, x) { LtTransitive(from.value, id, x); }
    }
  }

  datatype Duplicate = Duplicate(id: string, indexes: seq<string>)

  /** `d` is the least duplicate behind `upto`. */
  ghost predicate NextDuplicate(indexes: seq<string>, snap: Streams, upto: Option<string>, d: Duplicate) {
    && Behind(upto, d.id) && NoneBetween(indexes, snap, upto, d.id)
    && IsDuplicate(indexes, snap, d.id) && HoldersAre(indexes, snap, d.id, d.indexes)
  }

  class Scan {
    const cluster: Cluster
    const indexes: seq<string>
    const batch: nat
    var heap: seq<Entry>
    var pagers: map<string, Pager>
    ghost var snap: Streams
    ghost var head: map<string, nat>
    ghost var done: Option<string>

    ghost predicate Valid()
      reads this, cluster
    {
      && batch > 0
      && HeapIs(indexes, snap, head, heap)
      && AllStreams(indexes, snap, done, head, pagers, cluster.ids)
    }

    /** Every stream is opened and its first identifier pushed. */
    constructor (cluster: Cluster, indexes: seq<string>, batch: nat)
      requires batch > 0
      requires forall i, j :: 0 <= i < j < |indexes| ==> indexes[i] != indexes[j]
      requires forall i :: i in indexes ==> i in cluster.ids && StrictlySorted(cluster.ids[i])
      ensures this.cluster == cluster && this.indexes == indexes && fresh(this)
      ensures Valid() && done == None && snap == cluster.ids
      ensures forall i :: i in indexes ==> head[i] == 0
    {
      this.cluster, this.indexes, this.batch := cluster, indexes, batch;
      heap, pagers := [], map[];
      snap, head, done := cluster.ids, map i | i in indexes :: 0, None;
      new;
      for k := 0 to |indexes|
        invariant Opened(k)
      {
        OpenStream(k);
      }
      assert indexes[..|indexes|] == indexes;
    }

    /** The first `k` streams are open and nothing was processed yet. */
    ghost predicate Opened(k: nat)
      requires k <= |indexes|
      reads this, cluster
    {
      && batch > 0 && snap == cluster.ids && done == None && (forall i :: i in indexes ==> i in head && head[i] == 0)
      && (forall i, j :: 0 <= i < j < |indexes| ==> indexes[i] != indexes[j])
      && (forall i :: i in indexes ==> i in cluster.ids && StrictlySorted(cluster.ids[i]))
      && HeapIs(indexes[..k], snap, head, heap)
      && AllStreams(indexes[..k], snap, done, head, pagers, cluster.ids)
    }

    method OpenStream(k: nat)
      requires k < |indexes| && Opened(k)
      modifies this`pagers, this`heap, this`head
      ensures Opened(k + 1)
    {
      var index := indexes[k];
      assert indexes[..k + 1] == indexes[..k] + [index];
      assert index !in indexes[..k];
      pagers := pagers[index := Pager(None, [], false)];
      PushNext(index, 0, indexes[..k]);
      OpenedMore(indexes[..k], index, snap, done, old(head), old(pagers), cluster.ids, head, pagers);
    }

    /** `_push_next_id`: the next identifier of `index`, after the `n` already yielded. */
    method PushNext(index: string, ghost n: nat, ghost others: seq<string>)
      requires batch > 0 && Ready(snap, done, pagers, cluster.ids, index, n)
      requires HeapIs(others, snap, head, heap) && index in head && index !in others
      modifies this`pagers, this`heap, this`head
      ensures head == old(head)[index := n]
      ensures OnlyPager(old(pagers), pagers, index)
      ensures HeapIs(others + [index], snap, head, heap)
      ensures StreamAt(snap, done, head, pagers, cluster.ids, index)
    {
      var r := Pull(index, n);
      PutEntry(r, index, n, others);
    }

    method PutEntry(r: Option<string>, index: string, ghost n: nat, ghost others: seq<string>)
      requires HeapIs(others, snap, head, heap) && index !in others && index in snap && n <= |snap[index]|
      requires r == if n < |snap[index]| then Some(snap[index][n]) else None
      modifies this`heap, this`head
      ensures head == old(head)[index := n] && HeapIs(others + [index], snap, head, heap)
    {
      PushedHeap(others, snap, head, heap, index, n);
      head := head[index := n];
      if r.Some? {
        heap := Push(heap, Entry(r.value, index));
      }
    }

    method Pull(index: string, ghost n: nat) returns (r: Option<string>)
      requires batch > 0 && Ready(snap, done, pagers, cluster.ids, index, n)
      modifies this`pagers
      ensures OnlyPager(old(pagers), pagers, index) && index in snap && n <= |snap[index]|
      ensures r == if n < |snap[index]| then Some(snap[index][n]) else None
      ensures StreamAt(snap, done, head[index := n], pagers, cluster.ids, index)
    {
      r := NextId(index, n);
      NewStream(snap, done, head, index, n, pagers, cluster.ids);
    }

    lemma TopStream(e: Entry)
      requires Valid() && heap != [] && e == heap[0]
      ensures e in heap && e.index in indexes && StreamAt(snap, done, head, pagers, cluster.ids, e.index)
      ensures head[e.index] < |snap[e.index]| && e.id == snap[e.index][head[e.index]] && Behind(done, e.id)
      ensures HeapIs(Others(indexes, e.index), snap, head, heap[1..])
      ensures e.index !in Others(indexes, e.index)
    {
      PopFacts(indexes, snap, head, heap);
      OthersFacts(indexes, e.index);
    }

    /** The generator of the least entry has yielded that entry and nothing behind it. */
    lemma TopReady(e: Entry)
      requires Valid() && heap != [] && e == heap[0]
      ensures e.index in indexes && e.index in head
      ensures Ready(snap, done, pagers, cluster.ids, e.index, head[e.index] + 1)
      ensures HeapIs(Others(indexes, e.index), snap, head, heap[1..]) && e.index !in Others(indexes, e.index)
    {
      TopStream(e);
    }

    /** Pop the least entry and push the next identifier of its index. */
    method PopPush() returns (e: Entry, ghost n: nat)
      requires Valid() && heap != []
      modifies this`pagers, this`heap, this`head
      ensures Valid()
      ensures e == old(heap)[0] && e.index in old(head) && n == old(head)[e.index] + 1
      ensures head == old(head)[e.index := n]
    {
      e := heap[0];
      TopReady(e);
      n := head[e.index] + 1;
      Replace(e.index, n);
    }

    /** The same, with the generator of the popped entry ready. */
    method Replace(index: string, ghost n: nat)
      requires batch > 0 && index in indexes && index in head && Ready(snap, done, pagers, cluster.ids, index, n)
      requires heap != [] && HeapIs(Others(indexes, index), snap, head, heap[1..]) && index !in Others(indexes, index)
      requires AllStreams(indexes, snap, done, head, pagers, cluster.ids)
      modifies this`pagers, this`heap, this`head
      ensures Valid() && head == old(head)[index := n]
    {
      heap := heap[1..];
      PushNext(index, n, Others(indexes, index));
      Repushed(indexes, snap, done, old(head), old(pagers), cluster.ids, index, head, pagers, heap);
    }

    /** The first pop of a round. */
    method StartRound(ghost bound: Option<string>) returns (e: Entry)
      requires Valid() && heap != [] && ProcessedTo(indexes, snap, head, bound)
      modifies this`pagers, this`heap, this`head
      ensures Valid() && InRound(indexes, snap, head, bound, e.id, [e.index]) && Behind(done, e.id)
      ensures Remaining(indexes, snap, head) < Remaining(indexes, snap, old(head))
    {
      RoundStarted(indexes, snap, head, heap, bound);
      TopStream(heap[0]);
      ghost var n: nat;
      e, n := PopPush();
    }

    /** A further pop of the round of `id`. */
    method ContinueRound(ghost bound: Option<string>, ghost id: string, ghost dup: seq<string>) returns (index: string)
      requires Valid() && heap != [] && heap[0].id == id && InRound(indexes, snap, head, bound, id, dup)
      modifies this`pagers, this`heap, this`head
      ensures Valid() && InRound(indexes, snap, head, bound, id, dup + [index])
      ensures Remaining(indexes, snap, head) < Remaining(indexes, snap, old(head))
    {
      RoundContinued(indexes, snap, head, heap, bound, id, dup);
      var e: Entry;
      ghost var n: nat;
      e, n := PopPush();
      index := e.index;
    }

    /** One round of the merge: every entry of the least identifier is popped. */
    method Round(ghost bound: Option<string>) returns (id: string, dup: seq<string>)
      requires Valid() && heap != [] && ProcessedTo(indexes, snap, head, bound)
      modifies this`pagers, this`heap, this`head
      ensures Valid() && ProcessedTo(indexes, snap, head, Some(id)) && Behind(bound, id) && Behind(done, id)
      ensures HoldersAre(indexes, snap, id, dup)
      ensures Clear(indexes, snap, bound, id)
      ensures Remaining(indexes, snap, head) < Remaining(indexes, snap, old(head))
    {
      var e := StartRound(bound);
      id, dup := e.id, [e.index];
      while heap != [] && heap[0].id == id
        invariant Valid() && InRound(indexes, snap, head, bound, id, dup)
        invariant Remaining(indexes, snap, head) < Remaining(indexes, snap, old(head))
        decreases Remaining(indexes, snap, head)
      {
        var index := ContinueRound(bound, id, dup);
        dup := dup + [index];
      }
      RoundEnds(indexes, snap, head, heap, bound, id, dup);
    }

    /** A round, and the duplicate it found. */
    method TryRound(ghost bound: Option<string>) returns (r: Option<Duplicate>, ghost id: string)
      requires Valid() && heap != [] && ProcessedTo(indexes, snap, head, bound) && Quiet(indexes, snap, done, bound)
      modifies this`pagers, this`heap, this`head, this`done
      ensures Valid() && ProcessedTo(indexes, snap, head, Some(id))
      ensures Remaining(indexes, snap, head) < Remaining(indexes, snap, old(head))
      ensures r.Some? ==> done == Some(id) && r.value.id == id && NextDuplicate(indexes, snap, old(done), r.value)
      ensures r.None? ==> done == old(done) && Quiet(indexes, snap, done, Some(id))
    {
      var least, dup := Round(bound);
      id := least;
      QuietRound(indexes, snap, done, bound, id);
      HoldersTell(indexes, snap, id, dup);
      if |dup| > 1 {
        StreamsMoveOn(indexes, snap, done, id, head, pagers, cluster.ids);
        done := Some(id);
        r := Some(Duplicate(least, dup));
      } else {
        r := None;
      }
    }

    /** The next duplicated identifier with the indexes that contain it, or the end of the scan. */
    method Next() returns (r: Option<Duplicate>)
      requires Valid() && ProcessedTo(indexes, snap, head, done)
      modifies this`pagers, this`heap, this`head, this`done
      ensures r.None? ==> NoneBehind(indexes, snap, old(done))
      ensures r.Some? ==>
        && Valid() && ProcessedTo(indexes, snap, head, done)
        && done == Some(r.value.id) && NextDuplicate(indexes, snap, old(done), r.value)
      ensures r.Some? ==> Remaining(indexes, snap, head) < Remaining(indexes, snap, old(head))
    {
      ghost var bound := done;
      while heap != []
        invariant Valid() && ProcessedTo(indexes, snap, head, bound) && Quiet(indexes, snap, done, bound)
        invariant done == old(done) && Remaining(indexes, snap, head) <= Remaining(indexes, snap, old(head))
        decreases Remaining(indexes, snap, head)
      {
        ghost var id: string;
        r, id := TryRound(bound);
        if r.Some? {
          return;
        }
        bound := Some(id);
      }
      NothingLeft(indexes, snap, head, done, bound);
      return None;
    }

    /** `next` on the generator of one index. */
    method NextId(index: string, ghost n: nat) returns (r: Option<string>)
      requires batch > 0 && index in pagers && index in snap && index in cluster.ids
      requires StrictlySorted(snap[index]) && AgreesBehind(cluster.ids[index], snap[index], done)
      requires PagerAt(pagers[index], snap[index], n)
      requires if n == 0 then done.None? else done.None? || Le(done.value, snap[index][n - 1])
      modifies this`pagers
      ensures OnlyPager(old(pagers), pagers, index)
      ensures r == if n < |snap[index]| then Some(snap[index][n]) else None
      ensures PagerAt(pagers[index], snap[index], if n < |snap[index]| then n + 1 else n)
    {
      var p := pagers[index];
      if p.finished {
        return None;
      }
      if p.page == [] {
        p := Fetch(index, p, n);
      }
      if p.page == [] {
        pagers := pagers[index := p];
        return None;
      }
      TakeFacts(p, snap[index], n);
      r := Some(p.page[0]);
      pagers := pagers[index := p.(page := p.page[1..])];
    }

    /** One search of a generator. */
    method Fetch(index: string, p: Pager, ghost n: nat) returns (next: Pager)
      requires batch > 0 && index in snap && index in cluster.ids && p.page == []
      requires StrictlySorted(snap[index]) && AgreesBehind(cluster.ids[index], snap[index], done)
      requires PagerAt(p, snap[index], n)
      requires if n == 0 then done.None? else done.None? || Le(done.value, snap[index][n - 1])
      ensures PagerAt(next, snap[index], n) && (next.page == [] <==> n == |snap[index]|)
    {
      NextPage(cluster.ids[index], snap[index], done, n, batch);
      var hits := cluster.Search(index, p.searchAfter, batch);
      next := Refill(p, hits);
      RefillFacts(p, snap[index], n, batch, hits);
    }
  }
}
