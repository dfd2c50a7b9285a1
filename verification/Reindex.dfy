/** The reindex protocol and its recovery command, as runs over a cluster in which any call may raise and writers
    take turns between the calls. */
module Reindex {
  import opened Wrappers
  import opened IndexList
  import opened Elastic

  // ---------------------------------------------------------------- documents survive each destructive step

  lemma CopyCounts(part: Documents, whole: Documents)
    requires Part(part, whole) && |part| == |whole|
    ensures part == whole
  {
    assert part.Keys <= whole.Keys;
    SubsetOfEqualSize(part.Keys, whole.Keys);
  }

  lemma {:induction false} SubsetOfEqualSize(a: set<string>, b: set<string>)
    requires a <= b && |a| == |b|
    ensures a == b
  {
    if a != {} {
      var x :| x in a;
      SubsetOfEqualSize(a - {x}, b - {x});
    }
  }

  lemma DeleteSourceIsSafe(slots: set<Name>, seen: Indexes, ledger: map<Name, Documents>, n: Name)
    requires (forall m :: m in slots ==> !Temporary(m)) && SafeIn(slots, seen, ledger)
    requires n in seen && Temp(n) in seen && seen[Temp(n)].docs == seen[n].docs && n in slots
    ensures SafeIn(slots, seen - {n}, ledger)
  {
    forall m | m in slots && m in ledger ensures Content(seen - {n}, m) == ledger[m] {
      TempFacts(m);
      assert Content(seen, m) == ledger[m];
    }
  }

  lemma RestoreSourceIsSafe(slots: set<Name>, seen: Indexes, ledger: map<Name, Documents>, n: Name)
    requires (forall m :: m in slots ==> !Temporary(m)) && SafeIn(slots, seen, ledger)
    requires n !in seen && Temp(n) in seen && n in slots
    ensures SafeIn(slots, seen[n := seen[Temp(n)].(aliases := map[])], ledger)
  {
    var after := seen[n := seen[Temp(n)].(aliases := map[])];
    forall m | m in slots && m in ledger ensures Content(after, m) == ledger[m] {
      TempFacts(m);
      assert Content(seen, m) == ledger[m];
    }
  }

  /** A step that changes no document and removes at most the target of an existing source. */
  lemma RemoveTargetIsSafe(slots: set<Name>, seen: Indexes, ledger: map<Name, Documents>, n: Name, after: Indexes)
    requires (forall m :: m in slots ==> !Temporary(m)) && SafeIn(slots, seen, ledger)
    requires n in seen && n in slots && n in after
    requires forall m :: m != Temp(n) ==>
      (m in after <==> m in seen) && (m in after && m in seen ==> after[m].docs == seen[m].docs)
    ensures SafeIn(slots, after, ledger)
  {
    forall m | m in slots && m in ledger ensures Content(after, m) == ledger[m] {
      TempFacts(m);
      TempFacts(n);
      assert Content(seen, m) == ledger[m];
    }
  }

  // ---------------------------------------------------------------- lists of alias actions

  /** The actions that give `index` every alias of `aliases` with its data. */
  ghost predicate AddsFor(index: Name, aliases: Aliases, actions: seq<Action>) {
    && (forall a :: a in actions ==> a.Add? && a.index == index && a.alias in aliases && a.data == aliases[a.alias])
    && (forall k :: k in aliases ==> Add(index, k, aliases[k]) in actions)
  }

  function Mentioned(index: Name, aliases: Aliases, actions: seq<Action>): Aliases {
    map k | k in aliases && Add(index, k, aliases[k]) in actions :: aliases[k]
  }

  lemma MentionedMore(index: Name, aliases: Aliases, init: seq<Action>, last: Action, base: Aliases)
    requires last.Add? && last.index == index && last.alias in aliases && last.data == aliases[last.alias]
    ensures base + Mentioned(index, aliases, init + [last])
            == (base + Mentioned(index, aliases, init))[last.alias := last.data]
  {
    assert last == Add(index, last.alias, aliases[last.alias]);
    assert forall k :: k in aliases ==>
      (Add(index, k, aliases[k]) in init + [last] <==> Add(index, k, aliases[k]) in init || k == last.alias);
  }

  lemma ActAdd(m: Indexes, index: Name, aliases: Aliases, a: Action)
    requires index in m && a.Add? && a.index == index
    ensures Act(m[index := m[index].(aliases := aliases)], a)
            == Some(m[index := m[index].(aliases := aliases[a.alias := a.data])])
  {
    var before := m[index := m[index].(aliases := aliases)];
    assert before[index := before[index].(aliases := aliases[a.alias := a.data])]
        == m[index := m[index].(aliases := aliases[a.alias := a.data])];
  }

  lemma {:induction false} ActAdds(m: Indexes, index: Name, aliases: Aliases, actions: seq<Action>)
    requires index in m
    requires forall a :: a in actions ==> a.Add? && a.index == index && a.alias in aliases && a.data == aliases[a.alias]
    ensures ActAll(m, actions)
            == Some(m[index := m[index].(aliases := m[index].aliases + Mentioned(index, aliases, actions))])
  {
    if actions == [] {
      assert m[index].aliases + Mentioned(index, aliases, actions) == m[index].aliases;
      assert m[index := m[index]] == m;
    } else {
      var init, last := actions[..|actions| - 1], actions[|actions| - 1];
      assert actions == init + [last] && last in actions;
      ActAdds(m, index, aliases, init);
      MentionedMore(index, aliases, init, last, m[index].aliases);
      ActAdd(m, index, m[index].aliases + Mentioned(index, aliases, init), last);
    }
  }

  lemma ActAddsAll(m: Indexes, index: Name, aliases: Aliases, actions: seq<Action>)
    requires index in m && AddsFor(index, aliases, actions) && m[index].aliases.Keys <= aliases.Keys
    ensures ActAll(m, actions) == Some(m[index := m[index].(aliases := aliases)])
  {
    ActAdds(m, index, aliases, actions);
    assert m[index].aliases + Mentioned(index, aliases, actions) == aliases;
  }

  lemma {:induction false} ActRemoves(m: Indexes, index: Name, actions: seq<Action>)
    requires index in m && forall a :: a in actions ==> a.Remove? && a.index == index
    ensures var after := ActAll(m, actions);
            after.Some? ==>
              index in after.value && after.value == m[index := m[index].(aliases := after.value[index].aliases)]
  {
    if actions != [] {
      ActRemoves(m, index, actions[..|actions| - 1]);
    }
  }

  function Dropped(actions: seq<Action>): set<string> {
    set a | a in actions && a.Remove? :: a.alias
  }

  lemma ActRemove(m: Indexes, index: Name, gone: set<string>, a: Action)
    requires index in m && a.Remove? && a.index == index && a.alias in m[index].aliases && a.alias !in gone
    ensures Act(m[index := m[index].(aliases := m[index].aliases - gone)], a)
            == Some(m[index := m[index].(aliases := m[index].aliases - (gone + {a.alias}))])
  {
    var before := m[index := m[index].(aliases := m[index].aliases - gone)];
    assert (m[index].aliases - gone) - {a.alias} == m[index].aliases - (gone + {a.alias});
    assert before[index := before[index].(aliases := m[index].aliases - (gone + {a.alias}))]
        == m[index := m[index].(aliases := m[index].aliases - (gone + {a.alias}))];
  }

  lemma DroppedMore(index: Name, init: seq<Action>, last: Action)
    requires forall a :: a in init + [last] ==> a.Remove? && a.index == index
    requires last !in init
    ensures last.alias !in Dropped(init) && Dropped(init + [last]) == Dropped(init) + {last.alias}
  {
    assert last in init + [last];
    forall a | a in init ensures a.alias != last.alias {
      assert a in init + [last];
    }
    assert forall a :: a in init + [last] <==> a in init || a == last;
  }

  lemma {:induction false} ActRemovesAll(m: Indexes, index: Name, actions: seq<Action>)
    requires index in m && forall a :: a in actions ==> a.Remove? && a.index == index && a.alias in m[index].aliases
    requires forall i, j :: 0 <= i < j < |actions| ==> actions[i] != actions[j]
    ensures ActAll(m, actions)
            == Some(m[index := m[index].(aliases := m[index].aliases - Dropped(actions))])
  {
    if actions == [] {
      assert m[index].aliases - Dropped(actions) == m[index].aliases && m[index := m[index]] == m;
    } else {
      var init, last := actions[..|actions| - 1], actions[|actions| - 1];
      assert actions == init + [last] && last in actions;
      ActRemovesAll(m, index, init);
      DroppedMore(index, init, last);
      ActRemove(m, index, Dropped(init), last);
    }
  }

  lemma {:induction false} ActAllConcat(m: Indexes, first: seq<Action>, second: seq<Action>)
    ensures ActAll(m, first + second)
         == (var after := ActAll(m, first); if after.None? then None else ActAll(after.value, second))
  {
    var all := first + second;
    if second == [] {
      assert all == first;
    } else {
      assert all[..|all| - 1] == first + second[..|second| - 1];
      ActAllConcat(m, first, second[..|second| - 1]);
    }
  }

  /** One `add` per alias of the saved index description. */
  method AliasAdds(index: Name, aliases: Aliases) returns (actions: seq<Action>)
    ensures AddsFor(index, aliases, actions)
  {
    actions := [];
    var rest := aliases.Keys;
    while rest != {}
      invariant rest <= aliases.Keys
      invariant forall a :: a in actions ==>
        a.Add? && a.index == index && a.alias in aliases && a.data == aliases[a.alias]
      invariant forall k :: k in aliases && k !in rest ==> Add(index, k, aliases[k]) in actions
      decreases |rest|
    {
      var k :| k in rest;
      actions := actions + [Add(index, k, aliases[k])];
      rest := rest - {k};
    }
  }

  // ---------------------------------------------------------------- validation

  /** `_validate_reindex_result`. */
  method ValidateResult(report: Report, allowFailures: bool) returns (r: Status)
    ensures r.Ok? <==> allowFailures || (report.failures == 0 && report.conflicts == 0)
  {
    if report.failures == 0 && report.conflicts == 0 {
      return Ok;
    }
    return if allowFailures then Ok else Raised;
  }

  /** `_validate_reindex_counts`. */
  method ValidateCounts(source: nat, target: nat, allowFailures: bool) returns (r: Status)
    ensures r.Ok? <==> allowFailures || source == target
  {
    if source == target {
      return Ok;
    }
    return if allowFailures then Ok else Raised;
  }

  // ---------------------------------------------------------------- one index

  /** `index` is still the index it was at `start`, with its aliases, and may have been blocked. */
  ghost predicate SourceIntact(start: Indexes, now: Indexes, index: Name) {
    && index in start && index in now && now[index].aliases == start[index].aliases
    && Kept(start, now, {index, Temp(index)})
  }

  lemma StillIntact(slots: set<Name>, start: Indexes, mid: Indexes, now: Indexes, index: Name)
    requires SourceIntact(start, mid, index) && Interfered(slots, mid, now)
    ensures SourceIntact(start, now, index) && now[index].blocked == mid[index].blocked
    ensures Temp(index) in now <==> Temp(index) in mid
    ensures mid[index].blocked ==> now[index] == mid[index]
    ensures Temp(index) in mid && Temp(index) !in slots ==> now[Temp(index)] == mid[Temp(index)]
  {
  }

  lemma BlockedIntact(slots: set<Name>, a: Indexes, b: Indexes, c: Indexes, index: Name)
    requires Interfered(slots, a, b) && index in b && c == b[index := b[index].(blocked := true)]
    ensures SourceIntact(a, c, index) && c[index].blocked
    ensures Temp(index) in c <==> Temp(index) in a
  {
    TempFacts(index);
  }

  /** It raises only when one of its calls does, or when a copy it must not accept leaves something out. */
  twostate predicate OnlyFaultsOrLosses(es: Elastic, raised: bool, allowFailures: bool)
    reads es
  {
    && es.faults >= old(es.faults) && es.losses >= old(es.losses)
    && if raised then es.faults > old(es.faults) || (!allowFailures && es.losses > old(es.losses))
       else es.faults == old(es.faults) && (allowFailures || es.losses == old(es.losses))
  }

  /** `refresh` and `count`. */
  method DocCount(es: Elastic, index: Name) returns (r: Reply<nat>)
    requires es.Valid()
    modifies es
    ensures es.Valid() && Interfered(es.slots, old(es.indexes), es.indexes)
    ensures old(es.Sound()) ==> es.Sound()
    ensures es.frozen == old(es.frozen) && es.losses == old(es.losses) && es.faults >= old(es.faults)
    ensures index in old(es.indexes) ==> OnlyFaults(es, r.Error?)
    ensures r.Done? ==> index in es.indexes && r.value == |es.indexes[index].docs|
  {
    ghost var start := es.indexes;
    var refreshed := es.Touch();
    if refreshed.Raised? { return Error; }
    ghost var mid := es.indexes;
    r := es.Count(index);
    InterferedTwice(es.slots, start, mid, es.indexes);
  }

  /** Save the source's description, block it, and count its documents. */
  method BlockSource(es: Elastic, index: Name)
    returns (r: Status, aliases: Aliases, sourceWritesBlocked: bool, sourceCount: nat)
    requires es.Valid() && index in es.slots && index in es.indexes && Temp(index) !in es.indexes
    modifies es
    ensures es.Valid() && SourceIntact(old(es.indexes), es.indexes, index) && Temp(index) !in es.indexes
    ensures old(es.Sound()) ==> es.Sound()
    ensures es.indexes[index].blocked == (sourceWritesBlocked || old(es.indexes)[index].blocked)
    ensures OnlyFaults(es, r.Raised?)
    ensures r.Ok? ==>
      && sourceWritesBlocked && aliases == es.indexes[index].aliases && sourceCount == |es.indexes[index].docs|
      && es.frozen == old(es.frozen)[index := es.indexes[index].docs]
  {
    ghost var start := es.indexes;
    aliases, sourceWritesBlocked, sourceCount := map[], false, 0;
    aliases :- es.GetAliases(index);
    ghost var mid := es.indexes;
    r := es.PutBlock(index, true);
    InterferedTwice(es.slots, start, mid, es.seen);
    if r.Raised? { return; }
    sourceWritesBlocked := true;
    mid := es.indexes;
    BlockedIntact(es.slots, start, es.seen, mid, index);
    var count := DocCount(es, index);
    StillIntact(es.slots, start, mid, es.indexes, index);
    if count.Error? { return Raised, aliases, sourceWritesBlocked, 0; }
    sourceCount := count.value;
  }

  method CreateTarget(es: Elastic, index: Name, shards: nat) returns (r: Status)
    requires es.Valid() && index in es.slots && index in es.indexes && Temp(index) !in es.indexes
    requires es.indexes[index].blocked
    modifies es
    ensures es.Valid() && SourceIntact(old(es.indexes), es.indexes, index)
    ensures es.indexes[index] == old(es.indexes)[index]
    ensures old(es.Sound()) ==> es.Sound()
    ensures es.frozen == old(es.frozen) && OnlyFaults(es, r.Raised?)
    ensures if r.Ok? then Temp(index) in es.indexes && es.indexes[Temp(index)] == Index(map[], false, map[], shards)
            else Temp(index) !in es.indexes
  {
    TempFacts(index);
    r := es.Create(Temp(index), shards);
  }

  /** Create the target and copy the blocked source into it. */
  method CopySource(es: Elastic, index: Name, shards: nat) returns (r: Reply<Report>)
    requires es.Valid() && index in es.slots && index in es.indexes && Temp(index) !in es.indexes
    requires es.indexes[index].blocked
    modifies es
    ensures es.Valid() && SourceIntact(old(es.indexes), es.indexes, index)
    ensures es.indexes[index] == old(es.indexes)[index]
    ensures old(es.Sound()) ==> es.Sound()
    ensures es.frozen == old(es.frozen) && es.losses >= old(es.losses)
    ensures if r.Error? then OnlyFaults(es, true) else es.faults == old(es.faults)
    ensures Temp(index) in es.indexes ==> es.indexes[Temp(index)].aliases == map[]
    ensures r.Done? ==>
      && Temp(index) in es.indexes && Part(es.indexes[Temp(index)].docs, es.indexes[index].docs)
      && es.indexes[Temp(index)].shards == shards
      && (es.losses > old(es.losses) <==>
           r.value != Report(0, 0) || es.indexes[Temp(index)].docs != es.indexes[index].docs)
  {
    TempFacts(index);
    ghost var start := es.indexes;
    var created := CreateTarget(es, index, shards);
    if created.Raised? { return Error; }
    ghost var mid := es.indexes;
    r := es.Copy(index, Temp(index));
    CopiedIntact(es.slots, start, mid, es.seen, index);
  }

  lemma CopiedIntact(slots: set<Name>, start: Indexes, mid: Indexes, seen: Indexes, index: Name)
    requires SourceIntact(start, mid, index) && start[index].blocked && mid[index] == start[index]
    requires Temp(index) in mid && Temp(index) !in slots && mid[Temp(index)].aliases == map[]
    requires mid[Temp(index)].docs == map[]
    requires Interfered(slots, mid, seen)
    ensures SourceIntact(start, seen, index) && seen[index] == start[index] && seen[Temp(index)] == mid[Temp(index)]
  {
  }

  ghost predicate Part(part: Documents, whole: Documents) {
    forall k :: k in part ==> k in whole && part[k] == whole[k]
  }

  /** Wait for the task, and compare its report and the counts. */
  method CheckCopy(es: Elastic, index: Name, report: Report, allowFailures: bool, sourceCount: nat) returns (r: Status)
    requires es.Valid() && Temp(index) !in es.slots
    modifies es
    ensures es.Valid() && Interfered(es.slots, old(es.indexes), es.indexes)
    ensures old(es.Sound()) ==> es.Sound()
    ensures es.frozen == old(es.frozen) && es.losses == old(es.losses) && es.faults >= old(es.faults)
    ensures r.Ok? ==> es.faults == old(es.faults)
    ensures r.Ok? && !allowFailures ==>
      Temp(index) in es.indexes && |es.indexes[Temp(index)].docs| == sourceCount && report == Report(0, 0)
    ensures r.Raised? && es.faults == old(es.faults) && Temp(index) in old(es.indexes) ==>
      !allowFailures && (report != Report(0, 0) || |old(es.indexes)[Temp(index)].docs| != sourceCount)
  {
    ghost var start := es.indexes;
    r := es.Touch();
    if r.Raised? { return; }
    r := ValidateResult(report, allowFailures);
    if r.Raised? { return; }
    ghost var mid := es.indexes;
    r := es.Touch();
    InterferedTwice(es.slots, start, mid, es.indexes);
    if r.Raised? { return; }
    mid := es.indexes;
    r := es.Touch();
    InterferedTwice(es.slots, start, mid, es.indexes);
    if r.Raised? { return; }
    mid := es.indexes;
    var targetCount := DocCount(es, Temp(index));
    InterferedTwice(es.slots, start, mid, es.indexes);
    if targetCount.Error? { return Raised; }
    r := ValidateCounts(sourceCount, targetCount.value, allowFailures);
  }

  /** Copy the blocked source into a new index and check the copy. */
  method CopyAndCheck(es: Elastic, index: Name, shards: nat, allowFailures: bool, sourceCount: nat) returns (r: Status)
    requires es.Valid() && index in es.slots && index in es.indexes && Temp(index) !in es.indexes
    requires es.indexes[index].blocked && sourceCount == |es.indexes[index].docs|
    modifies es
    ensures es.Valid() && SourceIntact(old(es.indexes), es.indexes, index) && es.indexes[index].blocked
    ensures old(es.Sound()) ==> es.Sound()
    ensures Temp(index) in es.indexes ==> es.indexes[Temp(index)].aliases == map[]
    ensures es.indexes[index].docs == old(es.indexes)[index].docs && es.frozen == old(es.frozen)
    ensures OnlyFaultsOrLosses(es, r.Raised?, allowFailures)
    ensures r.Ok? ==>
      && Temp(index) in es.indexes && es.indexes[Temp(index)].shards == shards
      && Part(es.indexes[Temp(index)].docs, es.indexes[index].docs)
    ensures r.Ok? && !allowFailures ==> es.indexes[Temp(index)].docs == es.indexes[index].docs
  {
    TempFacts(index);
    ghost var start := es.indexes;
    var report :- CopySource(es, index, shards);
    ghost var mid := es.indexes;
    r := CheckCopy(es, index, report, allowFailures, sourceCount);
    StillIntact(es.slots, start, mid, es.indexes, index);
    if r.Ok? && !allowFailures {
      CopyCounts(mid[Temp(index)].docs, mid[index].docs);
    }
  }

  /** Every index under the two names has this shard count, and there is one. */
  ghost predicate OnlyWith(now: Indexes, index: Name, shards: nat) {
    && (index in now || Temp(index) in now)
    && (index in now ==> now[index].shards == shards)
    && (Temp(index) in now ==> now[Temp(index)].shards == shards)
  }

  /** Clone the target back under the source's name, restore the aliases and remove the target. */
  method Restore(es: Elastic, index: Name, aliases: Aliases) returns (r: Status)
    requires es.Valid() && index in es.slots && index !in es.indexes && Temp(index) in es.indexes
    requires es.indexes[Temp(index)].blocked
    modifies es
    ensures OnlyWith(es.indexes, index, old(es.indexes)[Temp(index)].shards)
    ensures es.Valid() && Kept(old(es.indexes), es.indexes, {index, Temp(index)})
    ensures old(es.Sound()) ==> es.Sound()
    ensures es.frozen == old(es.frozen) && OnlyFaults(es, r.Raised?)
    ensures r.Ok? ==>
      index in es.indexes && es.indexes[index] == old(es.indexes)[Temp(index)].(aliases := aliases)
      && Temp(index) !in es.indexes
  {
    TempFacts(index);
    var newName := Temp(index);
    ghost var start := es.indexes;
    :- CloneBack(es, index);
    :- es.Touch();
    assert Kept(start, es.indexes, {index, newName});
    :- MoveAliases(es, index, aliases);
    assert Kept(start, es.indexes, {index, newName});
    var left :- es.Exists(newName);
    if left {
      // the alias update has removed it
      assert false;
    }
    return Ok;
  }

  method CloneBack(es: Elastic, index: Name) returns (r: Status)
    requires es.Valid() && index in es.slots && index !in es.indexes && Temp(index) in es.indexes
    requires es.indexes[Temp(index)].blocked
    modifies es
    ensures OnlyWith(es.indexes, index, old(es.indexes)[Temp(index)].shards)
    ensures es.Valid() && Kept(old(es.indexes), es.indexes, {index}) && (old(es.Sound()) ==> es.Sound())
    ensures es.frozen == old(es.frozen) && OnlyFaults(es, r.Raised?)
    ensures r.Ok? ==>
      && index in es.indexes && es.indexes[index] == old(es.indexes)[Temp(index)].(aliases := map[])
      && Temp(index) in es.indexes
  {
    TempFacts(index);
    r := es.Clone(Temp(index), index);
    if old(es.Sound()) && r.Ok? {
      RestoreSourceIsSafe(es.slots, es.seen, es.ledger, index);
    }
  }

  method MoveAliases(es: Elastic, index: Name, aliases: Aliases) returns (r: Status)
    requires es.Valid() && index in es.slots && index in es.indexes && es.indexes[index].aliases == map[]
    modifies es
    ensures index in es.indexes && es.indexes[index].shards == old(es.indexes)[index].shards
    ensures Temp(index) in es.indexes ==>
      Temp(index) in old(es.indexes) && es.indexes[Temp(index)].shards == old(es.indexes)[Temp(index)].shards
    ensures es.Valid() && Kept(old(es.indexes), es.indexes, {index, Temp(index)}) && (old(es.Sound()) ==> es.Sound())
    ensures es.frozen == old(es.frozen) && (Temp(index) in old(es.indexes) ==> OnlyFaults(es, r.Raised?))
    ensures r.Ok? ==>
      && index in es.indexes && Temp(index) !in es.indexes
      && es.indexes[index] == old(es.indexes)[index].(aliases := aliases, docs := es.indexes[index].docs)
      && (old(es.indexes)[index].blocked ==> es.indexes[index].docs == old(es.indexes)[index].docs)
  {
    TempFacts(index);
    var adds := AliasAdds(index, aliases);
    r := es.UpdateAliases(adds + [RemoveIndex(Temp(index))]);
    ActMove(es.seen, index, aliases, adds);
    if r.Ok? && old(es.Sound()) {
      RemoveTargetIsSafe(es.slots, es.seen, es.ledger, index, es.indexes);
    }
  }

  lemma ActMove(m: Indexes, index: Name, aliases: Aliases, adds: seq<Action>)
    requires index in m && index != Temp(index)
    requires AddsFor(index, aliases, adds) && m[index].aliases.Keys <= aliases.Keys
    ensures ActAll(m, adds + [RemoveIndex(Temp(index))])
         == if Temp(index) in m then Some(m[index := m[index].(aliases := aliases)] - {Temp(index)}) else None
  {
    ActAllConcat(m, adds, [RemoveIndex(Temp(index))]);
    ActAddsAll(m, index, aliases, adds);
    ActOne(m[index := m[index].(aliases := aliases)], RemoveIndex(Temp(index)));
  }

  lemma ActOne(m: Indexes, action: Action)
    ensures ActAll(m, [action]) == Act(m, action)
  {
    assert [action][..0] == [];
    assert ActAll(m, []) == Some(m);
  }

  method DeleteSource(es: Elastic, index: Name, ghost lossless: bool) returns (r: Status)
    requires es.Valid() && index in es.slots && index in es.indexes && Temp(index) in es.indexes
    requires es.indexes[index].blocked
    requires lossless ==> es.indexes[Temp(index)].docs == es.indexes[index].docs
    modifies es
    ensures es.Valid() && Kept(old(es.indexes), es.indexes, {index}) && (lossless && old(es.Sound()) ==> es.Sound())
    ensures es.frozen == old(es.frozen) && OnlyFaults(es, r.Raised?)
    ensures r.Ok? ==> index !in es.indexes
    ensures r.Raised? ==> SourceIntact(old(es.indexes), es.indexes, index)
    ensures Temp(index) in es.indexes && es.indexes[Temp(index)] == old(es.indexes)[Temp(index)]
  {
    TempFacts(index);
    r := es.Delete(index);
    if r.Ok? && lossless && old(es.Sound()) {
      DeleteSourceIsSafe(es.slots, es.seen, es.ledger, index);
    }
  }

  /** Delete the checked source and rename the target to it; the write block is lifted whatever happens. */
  method Commit(es: Elastic, index: Name, aliases: Aliases, ghost lossless: bool)
    returns (r: Status, sourceWritesBlocked: bool)
    requires es.Valid() && index in es.slots && index in es.indexes && Temp(index) in es.indexes
    requires es.indexes[index].blocked
    requires lossless ==> es.indexes[Temp(index)].docs == es.indexes[index].docs
    requires es.indexes[Temp(index)].aliases == map[]
    modifies es
    ensures es.Valid() && Kept(old(es.indexes), es.indexes, {index, Temp(index)})
    ensures lossless && old(es.Sound()) ==> es.Sound()
    ensures OnlyFaults(es, r.Raised?)
    ensures r.Ok? ==>
      && index in es.indexes && Temp(index) !in es.indexes
      && es.indexes[index] == old(es.indexes)[Temp(index)].(aliases := aliases, blocked := false)
    ensures r.Ok? && index in old(es.frozen) ==> index in es.frozen && es.frozen[index] == old(es.frozen)[index]
    ensures !sourceWritesBlocked && index in es.indexes && es.indexes[index].blocked ==>
      es.faults > old(es.faults) + if Temp(index) in es.indexes then 1 else 0
    ensures !sourceWritesBlocked ==> OnlyWith(es.indexes, index, old(es.indexes)[Temp(index)].shards)
    ensures sourceWritesBlocked ==>
      && r.Raised? && SourceIntact(old(es.indexes), es.indexes, index)
      && Temp(index) in es.indexes && es.indexes[Temp(index)].aliases == map[]
  {
    TempFacts(index);
    ghost var start := es.indexes;
    sourceWritesBlocked := true;
    :- DeleteSource(es, index, lossless);
    sourceWritesBlocked := false;
    assert Kept(start, es.indexes, {index, Temp(index)});
    r := Rename(es, index, aliases);
    assert Kept(start, es.indexes, {index, Temp(index)});
  }

  /** The target takes the name of its deleted source. */
  method Rename(es: Elastic, index: Name, aliases: Aliases) returns (r: Status)
    requires es.Valid() && index in es.slots && index !in es.indexes && Temp(index) in es.indexes
    modifies es
    ensures OnlyWith(es.indexes, index, old(es.indexes)[Temp(index)].shards)
    ensures es.Valid() && Kept(old(es.indexes), es.indexes, {index, Temp(index)})
    ensures old(es.Sound()) ==> es.Sound()
    ensures OnlyFaults(es, r.Raised?)
    ensures r.Ok? ==>
      && index in es.indexes && Temp(index) !in es.indexes
      && es.indexes[index] == old(es.indexes)[Temp(index)].(aliases := aliases, blocked := false)
    ensures index in es.indexes && es.indexes[index].blocked ==>
      es.faults > old(es.faults) + if Temp(index) in es.indexes then 1 else 0
    ensures index in old(es.frozen) ==> index in es.frozen && es.frozen[index] == old(es.frozen)[index]
  {
    TempFacts(index);
    ghost var start := es.indexes;
    :- es.PutBlock(Temp(index), true);
    assert Kept(start, es.indexes, {index, Temp(index)});
    r := RestoreAndUnblock(es, index, aliases);
    assert Kept(start, es.indexes, {index, Temp(index)});
  }

  /** `Restore`, and then, whether it raised or not, `Unblock`. */
  method RestoreAndUnblock(es: Elastic, index: Name, aliases: Aliases) returns (r: Status)
    requires es.Valid() && index in es.slots && index !in es.indexes && Temp(index) in es.indexes
    requires es.indexes[Temp(index)].blocked
    modifies es
    ensures OnlyWith(es.indexes, index, old(es.indexes)[Temp(index)].shards)
    ensures es.Valid() && Kept(old(es.indexes), es.indexes, {index, Temp(index)})
    ensures old(es.Sound()) ==> es.Sound()
    ensures es.frozen == old(es.frozen) && OnlyFaults(es, r.Raised?)
    ensures r.Ok? ==>
      && index in es.indexes && Temp(index) !in es.indexes
      && es.indexes[index] == old(es.indexes)[Temp(index)].(aliases := aliases, blocked := false)
    ensures index in es.indexes && es.indexes[index].blocked ==>
      es.faults > old(es.faults) + if Temp(index) in es.indexes then 1 else 0
  {
    ghost var start := es.indexes;
    r := Restore(es, index, aliases);
    assert Kept(start, es.indexes, {index, Temp(index)});
    :- Unblock(es, index);
    assert Kept(start, es.indexes, {index, Temp(index)});
  }

  /** Lift the write block of an index, if it is there. */
  method Unblock(es: Elastic, index: Name) returns (r: Status)
    requires es.Valid()
    modifies es
    ensures es.Valid() && Kept(old(es.indexes), es.indexes, {index}) && (old(es.Sound()) ==> es.Sound())
    ensures es.frozen == old(es.frozen) && OnlyFaults(es, r.Raised?)
    ensures index in es.indexes <==> index in old(es.indexes)
    ensures index in es.indexes && index in old(es.indexes) ==>
      && es.indexes[index].aliases == old(es.indexes)[index].aliases
      && es.indexes[index].shards == old(es.indexes)[index].shards
      && (r.Ok? ==> !es.indexes[index].blocked)
      && (r.Ok? && old(es.indexes)[index].blocked ==> es.indexes[index] == old(es.indexes)[index].(blocked := false))
  {
    var there :- es.Exists(index);
    if there {
      :- es.PutBlock(index, false);
    }
    return Ok;
  }

  /** The index holds what was in its source when that was blocked, or, with failures allowed, a part of it. */
  ghost predicate Rebuilt(es: Elastic, index: Name, allowFailures: bool)
    reads es
  {
    && index in es.frozen && index in es.indexes
    && Part(es.indexes[index].docs, es.frozen[index])
    && (!allowFailures ==> es.indexes[index].docs == es.frozen[index])
  }

  /** Writes to the index were possible, and are not any more. */
  ghost predicate LeftBlocked(start: Indexes, now: Indexes, index: Name) {
    index in start && index in now && !start[index].blocked && now[index].blocked
  }

  /** A run that leaves an index blocked has met two calls that raised, the one that stopped it and the one that was
      to lift the block; only the latter when it was stopped by what a copy left out, or when the index had been
      renamed already. */
  twostate predicate BlockExcused(es: Elastic, allowFailures: bool, renamed: bool)
    reads es
  {
    es.faults > old(es.faults) + if renamed || (!allowFailures && es.losses > old(es.losses)) then 0 else 1
  }

  /** The guarded part of one index. `sourceWritesBlocked` tells the handler whether the source is still there,
      blocked. */
  method Migrate(es: Elastic, index: Name, shards: nat, allowFailures: bool)
    returns (r: Status, sourceWritesBlocked: bool, ghost sourceDeleted: bool)
    requires es.Valid() && index in es.slots && index in es.indexes && Temp(index) !in es.indexes
    modifies es
    ensures es.Valid() && Kept(old(es.indexes), es.indexes, {index, Temp(index)})
    ensures !allowFailures && old(es.Sound()) ==> es.Sound()
    ensures r.Ok? ==>
      && index in es.indexes && es.indexes[index].aliases == old(es.indexes)[index].aliases
      && !es.indexes[index].blocked && es.indexes[index].shards == shards
      && Temp(index) !in es.indexes
      && Rebuilt(es, index, allowFailures)
    ensures OnlyFaultsOrLosses(es, r.Raised?, allowFailures)
    ensures !sourceWritesBlocked && LeftBlocked(old(es.indexes), es.indexes, index) ==>
      sourceDeleted && es.faults > old(es.faults) + if Temp(index) in es.indexes then 1 else 0
    ensures sourceDeleted ==> OnlyWith(es.indexes, index, shards)
    ensures !sourceDeleted ==>
      && SourceIntact(old(es.indexes), es.indexes, index)
      && (Temp(index) in es.indexes ==> es.indexes[Temp(index)].aliases == map[])
    ensures sourceWritesBlocked ==> !sourceDeleted
  {
    var aliases: Aliases, sourceCount: nat;
    sourceDeleted := false;
    r, aliases, sourceWritesBlocked, sourceCount := BlockSource(es, index);
    if r.Raised? { return; }
    r := CopyAndCheck(es, index, shards, allowFailures, sourceCount);
    if r.Raised? { return; }
    r, sourceWritesBlocked := Commit(es, index, aliases, !allowFailures);
    sourceDeleted := !sourceWritesBlocked;
  }

  /** One round of the reindex loop. */
  method ReindexOne(es: Elastic, index: Name, shards: nat, allowFailures: bool)
    returns (r: Status, ghost sourceDeleted: bool)
    requires es.Valid() && index in es.slots
    modifies es
    ensures es.Valid() && Kept(old(es.indexes), es.indexes, {index, Temp(index)})
    ensures !allowFailures && old(es.Sound()) ==> es.Sound()
    ensures r.Ok? ==> Completed(old(es.indexes), es.indexes, index, shards)
    ensures r.Ok? && index in old(es.indexes) ==> Rebuilt(es, index, allowFailures)
    ensures Temp(index) !in old(es.indexes) ==> OnlyFaultsOrLosses(es, r.Raised?, allowFailures)
    ensures es.faults >= old(es.faults) && es.losses >= old(es.losses)
    ensures LeftBlocked(old(es.indexes), es.indexes, index) ==>
      BlockExcused(es, allowFailures, sourceDeleted && Temp(index) !in es.indexes)
    ensures sourceDeleted ==> OnlyWith(es.indexes, index, shards)
    ensures !sourceDeleted ==> Recoverable(old(es.indexes), es.indexes, index)
    ensures Temp(index) in old(es.indexes) ==> r.Raised? && Interfered(es.slots, old(es.indexes), es.indexes)
  {
    TempFacts(index);
    var newName := Temp(index);
    sourceDeleted := false;
    var sourceExists :- es.Exists(index);
    var targetExists :- es.Exists(newName);
    if targetExists {
      return Raised, false;
    }
    if !sourceExists {
      return Ok, false;
    }
    assert Kept(old(es.indexes), es.indexes, {});
    r, sourceDeleted := MigrateOrRelease(es, index, shards, allowFailures);
  }

  /** `Migrate`; when it raises with its source still blocked, the block is lifted. */
  method MigrateOrRelease(es: Elastic, index: Name, shards: nat, allowFailures: bool)
    returns (r: Status, ghost sourceDeleted: bool)
    requires es.Valid() && index in es.slots && index in es.indexes && Temp(index) !in es.indexes
    modifies es
    ensures es.Valid() && Kept(old(es.indexes), es.indexes, {index, Temp(index)})
    ensures !allowFailures && old(es.Sound()) ==> es.Sound()
    ensures r.Ok? ==>
      Completed(old(es.indexes), es.indexes, index, shards) && Rebuilt(es, index, allowFailures)
    ensures OnlyFaultsOrLosses(es, r.Raised?, allowFailures)
    ensures LeftBlocked(old(es.indexes), es.indexes, index) ==>
      BlockExcused(es, allowFailures, sourceDeleted && Temp(index) !in es.indexes)
    ensures sourceDeleted ==> OnlyWith(es.indexes, index, shards)
    ensures !sourceDeleted ==> Recoverable(old(es.indexes), es.indexes, index)
  {
    TempFacts(index);
    var sourceWritesBlocked: bool;
    r, sourceWritesBlocked, sourceDeleted := Migrate(es, index, shards, allowFailures);
    if r.Raised? && sourceWritesBlocked {
      :- Unblock(es, index);
    }
  }

  /** The index was rebuilt with the shard count asked for, has its aliases and accepts writes, and no target is
      left; a missing index stays missing. */
  ghost predicate Completed(start: Indexes, now: Indexes, index: Name, shards: nat) {
    && Temp(index) !in start && Temp(index) !in now
    && (index in start <==> index in now)
    && (index in start && index in now ==>
         now[index].aliases == start[index].aliases && !now[index].blocked && now[index].shards == shards)
  }

  /** The index has its aliases; a target is as it was, or new and without aliases. */
  ghost predicate Recoverable(start: Indexes, now: Indexes, index: Name) {
    && (index in start <==> index in now)
    && (index in start && index in now ==> now[index].aliases == start[index].aliases)
    && (Temp(index) in start ==> Temp(index) in now && now[Temp(index)].aliases == start[Temp(index)].aliases)
    && (Temp(index) in now && Temp(index) !in start ==> now[Temp(index)].aliases == map[])
  }

  // ---------------------------------------------------------------- the whole collection

  ghost predicate AllCompleted(start: Indexes, now: Indexes, list: seq<Name>, shards: nat) {
    forall n :: n in list ==> Completed(start, now, n, shards)
  }

  /** A target is left over from an earlier run. */
  ghost predicate AnyTarget(indexes: Indexes, list: seq<Name>) {
    exists n :: n in list && Temp(n) in indexes
  }

  /** Only the round that raised can leave its index blocked. */
  lemma BlockLeftByLast(start: Indexes, mid: Indexes, now: Indexes, list: seq<Name>, k: nat, shards: nat)
    requires k < |list| && Distinct(list) && forall m :: m in list ==> !Temporary(m)
    requires Kept(start, mid, Touched(list[..k])) && Kept(start, now, Touched(list[..k + 1]))
    requires AllCompleted(start, now, list[..k], shards)
    ensures forall n :: n in list && LeftBlocked(start, now, n) ==> n == list[k] && LeftBlocked(mid, now, n)
  {
    forall m | m in list[..k + 1] ensures !Temporary(m) { assert m in list; }
    forall n | n in list && n != list[k] ensures !LeftBlocked(start, now, n) {
      if n in list[..k] {
        assert Completed(start, now, n, shards);
      } else {
        assert list[..k + 1] == list[..k] + [list[k]];
        NotTouched(list[..k + 1], n);
      }
    }
    assert list[k] in list && list[k] !in list[..k];
    forall m | m in list[..k] ensures !Temporary(m) { assert m in list; }
    NotTouched(list[..k], list[k]);
  }

  /** One index of the list is on its way from target to index. */
  ghost predicate Halfway(now: Indexes, list: seq<Name>, shards: nat) {
    exists n :: n in list && OnlyWith(now, n, shards)
  }

  ghost predicate AllRecoverable(start: Indexes, now: Indexes, list: seq<Name>) {
    forall n :: n in list ==> Recoverable(start, now, n)
  }

  ghost predicate AllCleaned(start: Indexes, now: Indexes, list: seq<Name>) {
    forall n :: n in list ==> Cleaned(start, now, n)
  }

  lemma UntouchedAreRecoverable(start: Indexes, now: Indexes, list: seq<Name>)
    requires Kept(start, now, {}) && forall m :: m in list ==> !Temporary(m)
    ensures AllRecoverable(start, now, list)
  {
    forall n | n in list ensures Recoverable(start, now, n) {
      KeptIsRecoverable(start, now, [], n);
    }
  }

  /** The names the rounds over `list` may touch. */
  function Touched(list: seq<Name>): set<Name> {
    (set n | n in list) + (set n | n in list :: Temp(n))
  }

  lemma NotTouched(list: seq<Name>, n: Name)
    requires !Temporary(n) && n !in list && forall m :: m in list ==> !Temporary(m)
    ensures n !in Touched(list) && Temp(n) !in Touched(list)
  {
    TempFacts(n);
    forall m | m in list ensures Temp(m) != n && m != Temp(n) && Temp(m) != Temp(n) {
      TempFacts(m);
    }
  }

  lemma TouchedMore(a: Indexes, b: Indexes, c: Indexes, list: seq<Name>, n: Name)
    requires Kept(a, b, Touched(list)) && Kept(b, c, {n, Temp(n)})
    ensures Kept(a, c, Touched(list + [n]))
  {
    assert n in list + [n];
    assert Touched(list) <= Touched(list + [n]) && Temp(n) in Touched(list + [n]);
  }

  lemma CompletedLater(start: Indexes, mid: Indexes, now: Indexes, n: Name, m: Name, shards: nat)
    requires !Temporary(n) && !Temporary(m) && n != m && Kept(mid, now, {m, Temp(m)})
    ensures Completed(start, mid, n, shards) ==> Completed(start, now, n, shards)
    ensures Cleaned(start, mid, n) ==> Cleaned(start, now, n)
  {
    NotTouched([m], n);
    assert n !in {m, Temp(m)} && Temp(n) !in {m, Temp(m)} by { assert m in [m]; }
  }

  lemma CompletedSinceStart(start: Indexes, mid: Indexes, now: Indexes, list: seq<Name>, n: Name, shards: nat)
    requires (forall m :: m in list ==> !Temporary(m)) && !Temporary(n) && n !in list && Kept(start, mid, Touched(list))
    ensures Completed(mid, now, n, shards) ==> Completed(start, now, n, shards)
    ensures Recoverable(mid, now, n) ==> Recoverable(start, now, n)
    ensures Temp(n) in mid <==> Temp(n) in start
    ensures n in mid <==> n in start
  {
    NotTouched(list, n);
  }

  lemma CleanedSinceStart(start: Indexes, mid: Indexes, now: Indexes, list: seq<Name>, n: Name)
    requires (forall m :: m in list ==> !Temporary(m)) && !Temporary(n) && n !in list && Kept(start, mid, Touched(list))
    ensures Cleaned(mid, now, n) ==> Cleaned(start, now, n)
    ensures Temp(n) in mid <==> Temp(n) in start
    ensures n in mid <==> n in start
  {
    NotTouched(list, n);
  }

  lemma KeptIsRecoverable(start: Indexes, now: Indexes, list: seq<Name>, n: Name)
    requires (forall m :: m in list ==> !Temporary(m)) && !Temporary(n) && n !in list && Kept(start, now, Touched(list))
    ensures Recoverable(start, now, n)
  {
    NotTouched(list, n);
  }

  /** `reindex`. `midway` tells that the run raised after it had deleted the source of its last index. */
  method Reindex(es: Elastic, active: Name, others: seq<Name>, shards: nat, allowFailures: bool)
    returns (r: Status, ghost midway: bool)
    requires es.Valid() && active in es.slots && forall n :: n in others ==> n in es.slots
    modifies es
    ensures es.Valid() && Kept(old(es.indexes), es.indexes, Touched(IndexListFull(active, others)))
    ensures !allowFailures && old(es.Sound()) ==> es.Sound()
    ensures r.Ok? ==> AllCompleted(old(es.indexes), es.indexes, IndexListFull(active, others), shards)
    ensures !AnyTarget(old(es.indexes), IndexListFull(active, others)) ==>
      OnlyFaultsOrLosses(es, r.Raised?, allowFailures)
    ensures forall n :: n in IndexListFull(active, others) && LeftBlocked(old(es.indexes), es.indexes, n) ==>
      BlockExcused(es, allowFailures, midway && Temp(n) !in es.indexes)
    ensures midway ==> Halfway(es.indexes, IndexListFull(active, others), shards)
    ensures !midway ==> AllRecoverable(old(es.indexes), es.indexes, IndexListFull(active, others))
  {
    ghost var start := es.indexes;
    var list := IndexListFull(active, others);
    IndexListFacts(active, others);
    midway := false;
    r := es.Touch();
    if r.Raised? {
      UntouchedAreRecoverable(start, es.indexes, list);
      return;
    }
    r, midway := ReindexAll(es, list, shards, allowFailures, start);
  }

  /** The rounds of `reindex`, in order, up to the first that raises. */
  method ReindexAll(es: Elastic, list: seq<Name>, shards: nat, allowFailures: bool, ghost start: Indexes)
    returns (r: Status, ghost midway: bool)
    requires es.Valid() && Distinct(list) && (forall n :: n in list ==> n in es.slots) && Kept(start, es.indexes, {})
    modifies es
    ensures es.Valid() && Kept(start, es.indexes, Touched(list))
    ensures !allowFailures && old(es.Sound()) ==> es.Sound()
    ensures r.Ok? ==> AllCompleted(start, es.indexes, list, shards)
    ensures !AnyTarget(start, list) ==> OnlyFaultsOrLosses(es, r.Raised?, allowFailures)
    ensures forall n :: n in list && LeftBlocked(start, es.indexes, n) ==>
      BlockExcused(es, allowFailures, midway && Temp(n) !in es.indexes)
    ensures midway ==> Halfway(es.indexes, list, shards)
    ensures !midway ==> AllRecoverable(start, es.indexes, list)
  {
    for k := 0 to |list|
      invariant es.Valid() && Kept(start, es.indexes, Touched(list[..k]))
      invariant !allowFailures && old(es.Sound()) ==> es.Sound()
      invariant AllCompleted(start, es.indexes, list[..k], shards)
      invariant OnlyFaultsOrLosses(es, false, allowFailures)
    {
      ghost var mid := es.indexes;
      assert list[k] in list;
      r, midway := ReindexOne(es, list[k], shards, allowFailures);
      RoundDone(start, mid, es.indexes, list, k, shards);
      if r.Raised? {
        WholeList(start, es.indexes, list, k, shards);
        BlockLeftByLast(start, mid, es.indexes, list, k, shards);
        return;
      }
    }
    assert list[..|list|] == list;
    return Ok, false;
  }

  lemma RoundKept(start: Indexes, mid: Indexes, now: Indexes, list: seq<Name>, k: nat)
    requires k < |list| && Distinct(list)
    requires Kept(start, mid, Touched(list[..k])) && Kept(mid, now, {list[k], Temp(list[k])})
    ensures Kept(start, now, Touched(list[..k + 1]))
    ensures list[..k + 1] == list[..k] + [list[k]] && list[k] !in list[..k]
  {
    assert list[..k + 1] == list[..k] + [list[k]];
    TouchedMore(start, mid, now, list[..k], list[k]);
  }

  /** What one more round adds to the rounds before it. */
  lemma RoundDone(start: Indexes, mid: Indexes, now: Indexes, list: seq<Name>, k: nat, shards: nat)
    requires k < |list| && Distinct(list) && forall m :: m in list ==> !Temporary(m)
    requires Kept(start, mid, Touched(list[..k])) && Kept(mid, now, {list[k], Temp(list[k])})
    ensures Kept(start, now, Touched(list[..k + 1]))
    ensures AllCompleted(start, mid, list[..k], shards) ==> AllCompleted(start, now, list[..k], shards)
    ensures AllCompleted(start, mid, list[..k], shards) && Completed(mid, now, list[k], shards) ==>
      AllCompleted(start, now, list[..k + 1], shards)
    ensures Recoverable(mid, now, list[k]) ==> Recoverable(start, now, list[k])
    ensures Temp(list[k]) in mid <==> Temp(list[k]) in start
  {
    var n := list[k];
    RoundKept(start, mid, now, list, k);
    assert n in list;
    forall m | m in list[..k] ensures Completed(start, mid, m, shards) ==> Completed(start, now, m, shards) {
      assert m in list && m != n;
      CompletedLater(start, mid, now, m, n, shards);
    }
    forall m | m in list[..k] ensures !Temporary(m) { assert m in list; }
    CompletedSinceStart(start, mid, now, list[..k], n, shards);
  }

  /** The same for the rounds of the cleanup. */
  lemma CleanupRoundDone(start: Indexes, mid: Indexes, now: Indexes, list: seq<Name>, k: nat)
    requires k < |list| && Distinct(list) && forall m :: m in list ==> !Temporary(m)
    requires Kept(start, mid, Touched(list[..k])) && Kept(mid, now, {list[k], Temp(list[k])})
    requires AllCleaned(start, mid, list[..k])
    ensures Kept(start, now, Touched(list[..k + 1]))
    ensures Cleaned(mid, now, list[k]) ==> AllCleaned(start, now, list[..k + 1])
    ensures (Temp(list[k]) in mid <==> Temp(list[k]) in start) && (list[k] in mid <==> list[k] in start)
  {
    var n := list[k];
    RoundKept(start, mid, now, list, k);
    assert n in list;
    forall m | m in list[..k] ensures Cleaned(start, now, m) {
      assert m in list && m != n;
      CompletedLater(start, mid, now, m, n, 0);
    }
    forall m | m in list[..k] ensures !Temporary(m) { assert m in list; }
    CleanedSinceStart(start, mid, now, list[..k], n);
  }

  /** Completed rounds, one recoverable round and untouched rounds are all recoverable. */
  lemma WholeList(start: Indexes, now: Indexes, list: seq<Name>, k: nat, shards: nat)
    requires k < |list| && Distinct(list) && forall m :: m in list ==> !Temporary(m)
    requires Kept(start, now, Touched(list[..k + 1]))
    requires AllCompleted(start, now, list[..k], shards)
    ensures Recoverable(start, now, list[k]) ==> AllRecoverable(start, now, list)
    ensures Kept(start, now, Touched(list))
  {
    forall n | n in list && n !in list[..k + 1] ensures Recoverable(start, now, n) {
      forall m | m in list[..k + 1] ensures !Temporary(m) { assert m in list; }
      KeptIsRecoverable(start, now, list[..k + 1], n);
    }
    assert list[..k + 1] == list[..k] + [list[k]];
    forall n | n in list[..k + 1] ensures n in list {}
    assert Touched(list[..k + 1]) <= Touched(list);
  }

  // ---------------------------------------------------------------- recovery

  /** The aliases cleanup gives the source: its own, and those only the target has without their data; the write
      index flag of either. */
  function Merged(source: Aliases, target: Aliases): Aliases {
    map k | k in source.Keys + target.Keys ::
      Alias((k in source && source[k].isWriteIndex) || (k in target && target[k].isWriteIndex),
            if k in source then source[k].settings else "")
  }

  /** The aliases of either and no others; the source's settings where it has the alias, and none elsewhere; a write
      index if it is one in either. */
  ghost predicate Combine(merged: Aliases, source: Aliases, target: Aliases) {
    && merged.Keys == source.Keys + target.Keys
    && (forall k :: k in merged ==>
          merged[k].settings == if k in source then source[k].settings else "")
    && forall k :: k in merged ==>
         (merged[k].isWriteIndex <==>
            (k in source && source[k].isWriteIndex) || (k in target && target[k].isWriteIndex))
  }

  lemma CombineWithNone(merged: Aliases, source: Aliases)
    requires Combine(merged, source, map[])
    ensures merged == source
  {
    forall k | k in merged ensures merged[k] == source[k] {
      assert merged[k] == Alias(source[k].isWriteIndex, source[k].settings);
    }
  }

  /** After cleanup: no target; a source that had one has the merged aliases and accepts writes, another is as it
      was. */
  ghost predicate Cleaned(start: Indexes, now: Indexes, index: Name) {
    && Temp(index) !in now
    && (Temp(index) !in start ==> (index in start <==> index in now))
    && (Temp(index) !in start && index in start && index in now ==>
         now[index] == start[index].(docs := now[index].docs))
    && (Temp(index) in start ==>
          && index in start && index in now && !now[index].blocked
          && Combine(now[index].aliases, start[index].aliases, start[Temp(index)].aliases))
  }

  /** One round of the cleanup loop. */
  method CleanupOne(es: Elastic, index: Name) returns (r: Status)
    requires es.Valid() && index in es.slots
    modifies es
    ensures es.Valid() && Kept(old(es.indexes), es.indexes, {index, Temp(index)})
    ensures old(es.Sound()) ==> es.Sound()
    ensures Temp(index) !in old(es.indexes) || index in old(es.indexes) ==> OnlyFaults(es, r.Raised?)
    ensures r.Ok? ==> Cleaned(old(es.indexes), es.indexes, index)
    ensures Temp(index) in old(es.indexes) && index !in old(es.indexes) ==>
      r.Raised? && Interfered(es.slots, old(es.indexes), es.indexes)
  {
    TempFacts(index);
    var newName := Temp(index);
    var left :- es.Exists(newName);
    if !left {
      return Ok;
    }
    var there :- es.Exists(index);
    if !there {
      return Raised;
    }
    r := Reconcile(es, index);
  }

  /** The source takes over the aliases, the target goes, and writes are unblocked. */
  method Reconcile(es: Elastic, index: Name) returns (r: Status)
    requires es.Valid() && index in es.slots && index in es.indexes && Temp(index) in es.indexes
    modifies es
    ensures es.Valid() && Kept(old(es.indexes), es.indexes, {index, Temp(index)})
    ensures old(es.Sound()) ==> es.Sound()
    ensures OnlyFaults(es, r.Raised?)
    ensures r.Ok? ==> Cleaned(old(es.indexes), es.indexes, index)
  {
    TempFacts(index);
    ghost var start := es.indexes;
    var source :- es.GetAliases(index);
    var target :- es.GetAliases(Temp(index));
    :- RestoreAliases(es, index, source, target);
    assert Kept(start, es.indexes, {index, Temp(index)});
    :- DeleteTarget(es, index);
    assert Kept(start, es.indexes, {index, Temp(index)});
    :- es.PutBlock(index, false);
    return Ok;
  }

  method RestoreAliases(es: Elastic, index: Name, source: Aliases, target: Aliases) returns (r: Status)
    requires es.Valid() && index in es.slots && index in es.indexes && Temp(index) in es.indexes
    requires source == es.indexes[index].aliases && target == es.indexes[Temp(index)].aliases
    modifies es
    ensures es.Valid() && Kept(old(es.indexes), es.indexes, {index, Temp(index)}) && (old(es.Sound()) ==> es.Sound())
    ensures index in es.indexes && Temp(index) in es.indexes
    ensures OnlyFaults(es, r.Raised?)
    ensures r.Ok? ==> Combine(es.indexes[index].aliases, source, target)
  {
    TempFacts(index);
    var merged := Merged(source, target);
    var adds := AliasAdds(index, merged);
    var removes := AliasRemoves(Temp(index), target);
    if adds + removes == [] {
      NoAliases(index, merged, adds);
      assert source == merged;
      return Ok;
    }
    ghost var start := es.indexes;
    r := es.UpdateAliases(adds + removes);
    AliasActionsWork(start, es.seen, es.slots, index, merged, adds, removes);
    if r.Ok? {
      AliasesRestored(start, es.seen, es.indexes, es.slots, index, merged, adds, removes);
    }
    if old(es.Sound()) {
      RemoveTargetIsSafe(es.slots, es.seen, es.ledger, index, es.indexes);
    }
  }

  /** No action of the list lacks what it needs. */
  lemma AliasActionsWork(start: Indexes, seen: Indexes, slots: set<Name>, index: Name, merged: Aliases,
                         adds: seq<Action>, removes: seq<Action>)
    requires Interfered(slots, start, seen) && index in start && Temp(index) in start && index != Temp(index)
    requires AddsFor(index, merged, adds) && start[index].aliases.Keys <= merged.Keys
    requires forall a :: a in removes ==> a.Remove? && a.index == Temp(index) && a.alias in start[Temp(index)].aliases
    requires forall i, j :: 0 <= i < j < |removes| ==> removes[i] != removes[j]
    ensures ActAll(seen, adds + removes).Some?
  {
    ActAllConcat(seen, adds, removes);
    ActAddsAll(seen, index, merged, adds);
    ActRemovesAll(seen[index := seen[index].(aliases := merged)], Temp(index), removes);
  }

  lemma AliasesRestored(start: Indexes, seen: Indexes, now: Indexes, slots: set<Name>, index: Name, merged: Aliases,
                        adds: seq<Action>, removes: seq<Action>)
    requires Interfered(slots, start, seen) && index in start && Temp(index) in start && index != Temp(index)
    requires ActAll(seen, adds + removes) == Some(now) && AddsFor(index, merged, adds)
    requires start[index].aliases.Keys <= merged.Keys
    requires forall a :: a in removes ==> a.Remove? && a.index == Temp(index)
    ensures index in now && Temp(index) in now && now[index].aliases == merged
    ensures Kept(start, now, {index, Temp(index)})
    ensures forall m :: (m in now <==> m in seen) && (m in now && m in seen ==> now[m].docs == seen[m].docs)
  {
    ActAllConcat(seen, adds, removes);
    ActAddsAll(seen, index, merged, adds);
    ActRemoves(seen[index := seen[index].(aliases := merged)], Temp(index), removes);
  }

  lemma NoAliases(index: Name, aliases: Aliases, actions: seq<Action>)
    requires AddsFor(index, aliases, actions) && actions == []
    ensures aliases == map[]
  {
    assert forall k :: k in aliases ==> Add(index, k, aliases[k]) in actions;
  }

  /** One `remove` per alias of the target. */
  method AliasRemoves(index: Name, aliases: Aliases) returns (actions: seq<Action>)
    ensures forall a :: a in actions <==> a.Remove? && a.index == index && a.alias in aliases
    ensures forall i, j :: 0 <= i < j < |actions| ==> actions[i] != actions[j]
  {
    actions := [];
    var rest := aliases.Keys;
    while rest != {}
      invariant rest <= aliases.Keys
      invariant forall a :: a in actions <==> a.Remove? && a.index == index && a.alias in aliases.Keys - rest
      invariant forall i, j :: 0 <= i < j < |actions| ==> actions[i] != actions[j]
      decreases |rest|
    {
      var k :| k in rest;
      assert Remove(index, k) !in actions;
      actions := actions + [Remove(index, k)];
      rest := rest - {k};
    }
  }

  method DeleteTarget(es: Elastic, index: Name) returns (r: Status)
    requires es.Valid() && index in es.slots && index in es.indexes && Temp(index) in es.indexes
    modifies es
    ensures es.Valid() && Kept(old(es.indexes), es.indexes, {Temp(index)}) && (old(es.Sound()) ==> es.Sound())
    ensures OnlyFaults(es, r.Raised?)
    ensures r.Ok? ==> Temp(index) !in es.indexes
  {
    TempFacts(index);
    r := es.Delete(Temp(index));
    if old(es.Sound()) {
      RemoveTargetIsSafe(es.slots, es.seen, es.ledger, index, es.indexes);
    }
  }

  /** A target is there without its source. */
  ghost predicate AnyOrphan(indexes: Indexes, list: seq<Name>) {
    exists n :: n in list && Temp(n) in indexes && n !in indexes
  }

  /** `reindex_cleanup`. */
  method ReindexCleanup(es: Elastic, active: Name, others: seq<Name>) returns (r: Status)
    requires es.Valid() && active in es.slots && forall n :: n in others ==> n in es.slots
    modifies es
    ensures es.Valid()
    ensures old(es.Sound()) ==> es.Sound()
    ensures !AnyOrphan(old(es.indexes), IndexListFull(active, others)) ==> OnlyFaults(es, r.Raised?)
    ensures r.Ok? ==> AllCleaned(old(es.indexes), es.indexes, IndexListFull(active, others))
  {
    ghost var start := es.indexes;
    var list := IndexListFull(active, others);
    IndexListFacts(active, others);
    :- es.Touch();
    r := CleanupAll(es, list, start);
  }

  /** The rounds of the cleanup, in order, up to the first that raises. */
  method CleanupAll(es: Elastic, list: seq<Name>, ghost start: Indexes) returns (r: Status)
    requires es.Valid() && Distinct(list) && (forall n :: n in list ==> n in es.slots) && Kept(start, es.indexes, {})
    modifies es
    ensures es.Valid()
    ensures old(es.Sound()) ==> es.Sound()
    ensures !AnyOrphan(start, list) ==> OnlyFaults(es, r.Raised?)
    ensures r.Ok? ==> AllCleaned(start, es.indexes, list)
  {
    for k := 0 to |list|
      invariant es.Valid() && Kept(start, es.indexes, Touched(list[..k]))
      invariant old(es.Sound()) ==> es.Sound()
      invariant !AnyOrphan(start, list) ==> OnlyFaults(es, false)
      invariant AllCleaned(start, es.indexes, list[..k])
    {
      ghost var mid := es.indexes;
      assert list[k] in list;
      r := CleanupOne(es, list[k]);
      CleanupRoundDone(start, mid, es.indexes, list, k);
      if r.Raised? { return; }
    }
    assert list[..|list|] == list;
    return Ok;
  }

  // ---------------------------------------------------------------- protocol guarantees

  /** The collection is as it was before a reindex that failed: aliases with their data, no target. It is still
      blocked exactly when it was left blocked without a target, which cleanup takes for nothing to do. */
  ghost predicate Recovered(start: Indexes, failed: Indexes, now: Indexes, n: Name) {
    && n in start && n in now && n in failed && now[n].aliases == start[n].aliases && Temp(n) !in now
    && (now[n].blocked <==> failed[n].blocked && Temp(n) !in failed)
  }

  lemma CleanupRecovers(start: Indexes, failed: Indexes, now: Indexes, n: Name)
    requires n in start && (Temp(n) in start ==> start[Temp(n)].aliases == map[])
    requires Recoverable(start, failed, n) && Cleaned(failed, now, n)
    ensures Recovered(start, failed, now, n)
  {
    if Temp(n) in failed {
      CombineWithNone(now[n].aliases, failed[n].aliases);
    }
  }

  /** A reindex that raises before it deletes a source, then cleanup: every index of the collection is recovered,
      and its documents are the acknowledged ones. */
  method ReindexThenCleanup(es: Elastic, active: Name, others: seq<Name>, shards: nat)
    returns (first: Status, second: Status, ghost midway: bool, ghost failed: Indexes)
    requires es.Valid() && es.Sound() && active in es.slots && forall n :: n in others ==> n in es.slots
    modifies es
    ensures es.Valid() && es.Sound()
    ensures first.Raised? && !midway && second.Ok? ==>
      forall n :: n in IndexListFull(active, others) && n in old(es.indexes)
        && (Temp(n) in old(es.indexes) ==> old(es.indexes)[Temp(n)].aliases == map[])
        ==> Recovered(old(es.indexes), failed, es.indexes, n)
  {
    ghost var start := es.indexes;
    second := Ok;
    first, midway := Reindex(es, active, others, shards, false);
    failed := es.indexes;
    if first.Raised? {
      second := ReindexCleanup(es, active, others);
      if !midway && second.Ok? {
        forall n | n in IndexListFull(active, others) && n in start
          && (Temp(n) in start ==> start[Temp(n)].aliases == map[])
          ensures Recovered(start, failed, es.indexes, n)
        {
          CleanupRecovers(start, failed, es.indexes, n);
        }
      }
    }
  }

  /** A round that stops when it has blocked its source, every later call raising, then cleanup: the source stays
      blocked, and its aliases are the ones from before. */
  method BlockStays(es: Elastic, index: Name) returns (first: Status, second: Status)
    requires es.Valid() && es.Sound() && index in es.slots && index in es.indexes && Temp(index) !in es.indexes
    modifies es
    ensures es.Valid() && es.Sound()
    ensures OnlyFaults(es, first.Raised? || second.Raised?)
    ensures first.Ok? && second.Ok? ==>
      index in es.indexes && es.indexes[index].blocked && es.indexes[index].aliases == old(es.indexes)[index].aliases
  {
    var aliases: Aliases, blocked: bool, count: nat;
    second := Raised;
    first, aliases, blocked, count := BlockSource(es, index);
    if first.Ok? {
      second := CleanupOne(es, index);
    }
  }

  datatype Run = Run(cleanup: bool, active: Name, others: seq<Name>, shards: nat)

  /** Any sequence of reindex runs and cleanups, each ending where it will: no acknowledged document is ever lost. */
  method Operate(es: Elastic, runs: seq<Run>)
    requires es.Valid() && es.Sound()
    requires forall run :: run in runs ==> run.active in es.slots && forall n :: n in run.others ==> n in es.slots
    modifies es
    ensures es.Valid() && es.Sound()
  {
    for k := 0 to |runs|
      invariant es.Valid() && es.Sound()
    {
      var run := runs[k];
      assert run in runs;
      if run.cleanup {
        var _ := ReindexCleanup(es, run.active, run.others);
      } else {
        var _, _ := Reindex(es, run.active, run.others, run.shards, false);
      }
    }
  }
}
