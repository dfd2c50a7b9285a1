/** The list of every physical index of a collection, and the sorted lists of names it rests on. */
module IndexList {
  import opened Strings

  predicate StrictlySorted(s: seq<string>) {
    forall i, j :: 0 <= i < j < |s| ==> Lt(s[i], s[j])
  }

  function Without(s: seq<string>, id: string): seq<string> {
    if s == [] then []
    else if s[0] == id then Without(s[1..], id)
    else [s[0]] + Without(s[1..], id)
  }

  lemma {:induction false} WithoutFacts(s: seq<string>, id: string)
    ensures forall x :: x in Without(s, id) <==> x in s && x != id
    ensures StrictlySorted(s) ==> StrictlySorted(Without(s, id))
    ensures id !in s ==> Without(s, id) == s
  {
    if s != [] {
      WithoutFacts(s[1..], id);
      assert s == [s[0]] + s[1..];
      var rest := Without(s[1..], id);
      if StrictlySorted(s) && s[0] != id {
        forall j | 0 <= j < |rest| ensures Lt(s[0], rest[j]) {
          assert rest[j] in rest;
          var k :| 0 <= k < |s[1..]| && s[1..][k] == rest[j];
          assert Lt(s[0], s[k + 1]);
        }
      }
    }
  }

  function Reversed(s: seq<string>): seq<string> {
    if s == [] then [] else Reversed(s[1..]) + [s[0]]
  }

  /** `dict.fromkeys`: the first occurrence of every element. */
  function FirstOccurrences(s: seq<string>): seq<string> {
    if s == [] then [] else [s[0]] + Without(FirstOccurrences(s[1..]), s[0])
  }

  /** Every physical index, the active one first and the others from the greatest name down. */
  function IndexListFull(active: string, others: seq<string>): seq<string> {
    FirstOccurrences([active] + Reversed(Sort(others)))
  }

  predicate Distinct(s: seq<string>) {
    forall i, j :: 0 <= i < j < |s| ==> s[i] != s[j]
  }

  predicate Descending(s: seq<string>) {
    forall i, j :: 0 <= i < j < |s| ==> Lt(s[j], s[i])
  }

  /** No element is below a later one. */
  predicate Falling(s: seq<string>) {
    forall i, j :: 0 <= i < j < |s| ==> Le(s[j], s[i])
  }

  predicate Rising(s: seq<string>) {
    forall i, j :: 0 <= i < j < |s| ==> Le(s[i], s[j])
  }

  lemma {:induction false} InsertRises(x: string, s: seq<string>)
    requires Rising(s)
    ensures Rising(InsertSorted(x, s))
  {
    if s == [] {
    } else if Le(x, s[0]) {
      forall j | 0 <= j < |s| ensures Le(x, s[j]) {
        if j > 0 { LeTransitive(x, s[0], s[j]); }
      }
    } else {
      InsertRises(x, s[1..]);
      LeTotal(x, s[0]);
      var rest := InsertSorted(x, s[1..]);
      InsertSortedMembers(x, s[1..]);
      forall j | 0 <= j < |rest| ensures Le(s[0], rest[j]) {
        assert rest[j] in multiset(rest);
        if rest[j] != x {
          assert rest[j] in s[1..];
          var k :| 0 <= k < |s[1..]| && s[1..][k] == rest[j];
          assert Le(s[0], s[k + 1]);
        }
      }
    }
  }

  lemma {:induction false} SortRises(s: seq<string>)
    ensures Rising(Sort(s))
  {
    if s != [] {
      SortRises(s[1..]);
      InsertRises(s[0], Sort(s[1..]));
    }
  }

  lemma {:induction false} ReversedFalls(s: seq<string>)
    requires Rising(s)
    ensures Falling(Reversed(s))
    ensures forall x :: x in Reversed(s) <==> x in s
  {
    if s != [] {
      ReversedFalls(s[1..]);
      assert s == [s[0]] + s[1..];
      var rest := Reversed(s[1..]);
      forall j | 0 <= j < |rest| ensures Le(s[0], rest[j]) {
        assert rest[j] in s[1..];
        var k :| 0 <= k < |s[1..]| && s[1..][k] == rest[j];
        assert Le(s[0], s[k + 1]);
      }
    }
  }

  lemma {:induction false} WithoutDistinct(s: seq<string>, x: string)
    ensures Distinct(s) ==> Distinct(Without(s, x))
    ensures Descending(s) ==> Descending(Without(s, x))
  {
    if s != [] {
      WithoutDistinct(s[1..], x);
      WithoutFacts(s[1..], x);
      var rest := Without(s[1..], x);
      forall j | 0 <= j < |rest| && Distinct(s)
        ensures rest[j] != s[0]
        ensures Descending(s) ==> Lt(rest[j], s[0])
      {
        assert rest[j] in rest;
        var k :| 0 <= k < |s[1..]| && s[1..][k] == rest[j];
        assert s[0] != s[k + 1];
      }
    }
  }

  lemma {:induction false} FirstOccurrencesFacts(s: seq<string>)
    ensures Distinct(FirstOccurrences(s))
    ensures forall x :: x in FirstOccurrences(s) <==> x in s
    ensures Falling(s) ==> Descending(FirstOccurrences(s))
  {
    if s != [] {
      var rest := FirstOccurrences(s[1..]);
      FirstOccurrencesFacts(s[1..]);
      WithoutFacts(rest, s[0]);
      WithoutDistinct(rest, s[0]);
      assert s == [s[0]] + s[1..];
      var kept := Without(rest, s[0]);
      forall j | 0 <= j < |kept|
        ensures kept[j] != s[0]
        ensures Falling(s) ==> Le(kept[j], s[0])
      {
        assert kept[j] in kept;
        var k :| 0 <= k < |s[1..]| && s[1..][k] == kept[j];
        assert Falling(s) ==> Le(s[k + 1], s[0]);
      }
    }
  }

  /** The list names every index once, the active one first and the others from the greatest name down. */
  lemma IndexListFacts(active: string, others: seq<string>)
    ensures Distinct(IndexListFull(active, others))
    ensures forall i :: i in IndexListFull(active, others) <==> i == active || i in others
    ensures IndexListFull(active, others) != [] && IndexListFull(active, others)[0] == active
    ensures Descending(IndexListFull(active, others)[1..])
  {
    var s := [active] + Reversed(Sort(others));
    FirstOccurrencesFacts(s);
    SortRises(others);
    ReversedFalls(Sort(others));
    SortMembers(others);
    forall i ensures i in Sort(others) <==> i in others {
      assert i in multiset(Sort(others)) <==> i in multiset(others);
    }
    var rest := s[1..];
    assert rest == Reversed(Sort(others));
    FirstOccurrencesFacts(rest);
    WithoutDistinct(FirstOccurrences(rest), active);
  }

  /** When the active index is the newest, as after the index name was refreshed, the list falls strictly. */
  lemma IndexListFalls(active: string, others: seq<string>)
    requires forall i :: i in others ==> Le(i, active)
    ensures Descending(IndexListFull(active, others))
  {
    var rest := Reversed(Sort(others));
    SortRises(others);
    ReversedFalls(Sort(others));
    SortMembers(others);
    forall i | i in rest ensures Le(i, active) {
      assert i in multiset(Sort(others)) <==> i in multiset(others);
    }
    FirstOccurrencesFacts([active] + rest);
  }
}
